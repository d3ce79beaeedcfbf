/**
  Copying the overrides tree out of the archive: every member under the
  prefix is classified by what remains after the prefix, directory members
  are created, file members are written and counted.
*/
module Overrides {
  import opened Base
  import opened Text
  import opened FileSystem

  /** What `extract_overrides` does with one member name. */
  datatype Kind = Outside | EmptyRemainder | Directory | RegularFile

  /** The member's path below the prefix, `\` read as `/`. */
  function Remainder(member: string, prefix: string): string {
    if |prefix| <= |member| then ToSlash(member)[|prefix|..] else ""
  }

  /**
    Under the prefix, the remainder is empty exactly when the name is no longer
    than the prefix. Whether the member ends with `/` is decided on the raw
    name, not on the normalised one.
  */
  function Classify(member: string, prefix: string): (k: Kind)
    ensures k == Outside <==> !StartsWith(ToSlash(member), prefix)
    ensures k == Directory ==> member != "" && member[|member| - 1] == '/'
    ensures k == RegularFile ==> member != "" && member[|member| - 1] != '/'
  {
    if !StartsWith(ToSlash(member), prefix) then Outside
    else if |member| == |prefix| then EmptyRemainder
    else if member[|member| - 1] == '/' then Directory
    else RegularFile
  }

  /** Where the member lands: `dest.joinpath(remainder)`, so an absolute remainder leaves `dest`. */
  function Target(dest: string, member: string, prefix: string): string {
    JoinPath(dest, Remainder(member, prefix))
  }

  /** A remainder that starts with `/` is an absolute path, and the member is written there instead of below `dest`. */
  lemma AbsoluteRemainderEscapes(dest: string, member: string, prefix: string)
    requires Classify(member, prefix) == RegularFile && Remainder(member, prefix)[0] == '/'
    ensures Target(dest, member, prefix) == Remainder(member, prefix)
  {
  }

  /** The list comprehension that selects the members under the prefix, in order. */
  function UnderPrefix(names: seq<string>, prefix: string): (members: seq<string>)
    ensures forall k :: 0 <= k < |members| ==> StartsWith(ToSlash(members[k]), prefix)
    ensures |members| <= |names|
  {
    if names == [] then []
    else
      var rest := UnderPrefix(names[..|names| - 1], prefix);
      var last := names[|names| - 1];
      if StartsWith(ToSlash(last), prefix) then rest + [last] else rest
  }

  /** The selection keeps exactly the names under the prefix. */
  lemma {:induction false} UnderPrefixSelects(names: seq<string>, prefix: string)
    ensures forall m :: m in UnderPrefix(names, prefix) <==> m in names && StartsWith(ToSlash(m), prefix)
  {
    if names != [] {
      var init := names[..|names| - 1];
      UnderPrefixSelects(init, prefix);
      assert names == init + [names[|names| - 1]];
    }
  }

  /** The number of members written as files. */
  function CopyCount(names: seq<string>, prefix: string): nat {
    if names == [] then 0
    else CopyCount(names[..|names| - 1], prefix) + if Classify(names[|names| - 1], prefix) == RegularFile then 1 else 0
  }

  /** The file map after the members have been processed in order; a later member overwrites an earlier one. */
  function Written(files: map<string, Bytes>, names: seq<string>, read: string -> Bytes, prefix: string, dest: string): map<string, Bytes> {
    if names == [] then files
    else
      var before := Written(files, names[..|names| - 1], read, prefix, dest);
      var last := names[|names| - 1];
      if Classify(last, prefix) == RegularFile then before[Target(dest, last, prefix) := read(last)] else before
  }

  /** The directories created: each directory member, and the parent of each file member. */
  function Made(names: seq<string>, prefix: string, dest: string): set<string> {
    if names == [] then {}
    else
      var before := Made(names[..|names| - 1], prefix, dest);
      var last := names[|names| - 1];
      match Classify(last, prefix)
      case Directory => before + {Target(dest, last, prefix)}
      case RegularFile => before + {Parent(Target(dest, last, prefix))}
      case _ => before
  }

  /**
    Copies the overrides tree of an archive with member names `names` into `dest`;
    `read` gives the content of a member by name. Returns the number of files written.
  */
  method ExtractOverrides(disk: Disk, names: seq<string>, read: string -> Bytes, prefix: string, dest: string)
    returns (count: nat)
    requires disk.Valid()
    modifies disk
    ensures disk.Valid()
    ensures count == CopyCount(names, prefix)
    ensures disk.files == Written(old(disk.files), names, read, prefix, dest)
    ensures disk.dirs == old(disk.dirs) + Made(names, prefix, dest)
  {
    var members := UnderPrefix(names, prefix);
    ExtractionIgnoresOutside(disk.files, names, read, prefix, dest);
    if |members| == 0 {
      return 0;
    }
    count := 0;
    var i := 0;
    while i < |members|
      invariant 0 <= i <= |members|
      invariant disk.Valid()
      invariant count == CopyCount(members[..i], prefix)
      invariant disk.files == Written(old(disk.files), members[..i], read, prefix, dest)
      invariant disk.dirs == old(disk.dirs) + Made(members[..i], prefix, dest)
    {
      Unfold(old(disk.files), members, i, read, prefix, dest);
      var copied := CopyMember(disk, members[i], read, prefix, dest);
      if copied {
        count := count + 1;
      }
      i := i + 1;
    }
    assert members[..|members|] == members;
  }

  /** One member of the loop: skipped, created as a directory, or written as a file. */
  method CopyMember(disk: Disk, member: string, read: string -> Bytes, prefix: string, dest: string)
    returns (copied: bool)
    requires disk.Valid() && StartsWith(ToSlash(member), prefix)
    modifies disk
    ensures disk.Valid()
    ensures copied <==> Classify(member, prefix) == RegularFile
    ensures disk.files == if copied then old(disk.files)[Target(dest, member, prefix) := read(member)] else old(disk.files)
    ensures disk.dirs == old(disk.dirs) + Made([member], prefix, dest)
  {
    var relpath := Remainder(member, prefix);
    RegularFileIff(member, prefix);
    copied := false;
    if relpath == "" {
      // nothing below the prefix: skipped
    } else if member != "" && member[|member| - 1] == '/' {
      disk.MakeDirs(JoinPath(dest, relpath));
    } else {
      var target := JoinPath(dest, relpath);
      disk.MakeDirs(Parent(target));
      disk.WriteFile(target, read(member));
      copied := true;
    }
  }

  /** The definitions of the count, the files and the directories, taken one member further. */
  lemma Unfold(files: map<string, Bytes>, members: seq<string>, i: int, read: string -> Bytes, prefix: string, dest: string)
    requires 0 <= i < |members|
    ensures CopyCount(members[..i + 1], prefix) == CopyCount(members[..i], prefix) + if Classify(members[i], prefix) == RegularFile then 1 else 0
    ensures Written(files, members[..i + 1], read, prefix, dest)
            == if Classify(members[i], prefix) == RegularFile
               then Written(files, members[..i], read, prefix, dest)[Target(dest, members[i], prefix) := read(members[i])]
               else Written(files, members[..i], read, prefix, dest)
    ensures Made(members[..i + 1], prefix, dest) == Made(members[..i], prefix, dest) + Made([members[i]], prefix, dest)
  {
    assert members[..i + 1][..i] == members[..i];
    assert [members[i]][..0] == [];
  }

  /** Members outside the prefix do nothing, so the extraction can run over the selected members only. */
  lemma ExtractionIgnoresOutside(files: map<string, Bytes>, names: seq<string>, read: string -> Bytes, prefix: string, dest: string)
    ensures CopyCount(UnderPrefix(names, prefix), prefix) == CopyCount(names, prefix)
    ensures Written(files, UnderPrefix(names, prefix), read, prefix, dest) == Written(files, names, read, prefix, dest)
    ensures Made(UnderPrefix(names, prefix), prefix, dest) == Made(names, prefix, dest)
  {
    OutsideCountsNothing(names, prefix);
    OutsideWritesNothing(files, names, read, prefix, dest);
    OutsideMakesNothing(names, prefix, dest);
  }

  lemma {:induction false} OutsideCountsNothing(names: seq<string>, prefix: string)
    ensures CopyCount(UnderPrefix(names, prefix), prefix) == CopyCount(names, prefix)
  {
    if names != [] {
      var init, last := names[..|names| - 1], names[|names| - 1];
      OutsideCountsNothing(init, prefix);
      var rest := UnderPrefix(init, prefix);
      if StartsWith(ToSlash(last), prefix) {
        assert (rest + [last])[..|rest|] == rest;
      }
    }
  }

  lemma {:induction false} OutsideWritesNothing(files: map<string, Bytes>, names: seq<string>, read: string -> Bytes, prefix: string, dest: string)
    ensures Written(files, UnderPrefix(names, prefix), read, prefix, dest) == Written(files, names, read, prefix, dest)
  {
    if names != [] {
      var init, last := names[..|names| - 1], names[|names| - 1];
      OutsideWritesNothing(files, init, read, prefix, dest);
      var rest := UnderPrefix(init, prefix);
      if StartsWith(ToSlash(last), prefix) {
        assert (rest + [last])[..|rest|] == rest;
      }
    }
  }

  lemma {:induction false} OutsideMakesNothing(names: seq<string>, prefix: string, dest: string)
    ensures Made(UnderPrefix(names, prefix), prefix, dest) == Made(names, prefix, dest)
  {
    if names != [] {
      var init, last := names[..|names| - 1], names[|names| - 1];
      OutsideMakesNothing(init, prefix, dest);
      var rest := UnderPrefix(init, prefix);
      if StartsWith(ToSlash(last), prefix) {
        assert (rest + [last])[..|rest|] == rest;
      }
    }
  }

  /** The positions of the members that are written as files. */
  function FileIndices(names: seq<string>, prefix: string): set<int> {
    IndicesOf(names, IsFileMember(prefix))
  }

  /** The test "written as a file" for a fixed prefix. */
  function IsFileMember(prefix: string): string -> bool {
    m => Classify(m, prefix) == RegularFile
  }

  /** The positions of the names that satisfy `f`. */
  function IndicesOf(names: seq<string>, f: string -> bool): set<int> {
    set i | 0 <= i < |names| && f(names[i])
  }

  /** A member is written as a file iff it lies under the prefix, its remainder is non-empty and its raw name does not end in `/`. */
  lemma RegularFileIff(m: string, prefix: string)
    ensures Classify(m, prefix) == RegularFile <==>
              StartsWith(ToSlash(m), prefix) && Remainder(m, prefix) != "" && !(m != "" && m[|m| - 1] == '/')
    ensures Classify(m, prefix) == Directory <==>
              StartsWith(ToSlash(m), prefix) && Remainder(m, prefix) != "" && m != "" && m[|m| - 1] == '/'
    ensures Classify(m, prefix) == EmptyRemainder <==> StartsWith(ToSlash(m), prefix) && Remainder(m, prefix) == ""
  {
    if StartsWith(ToSlash(m), prefix) {
      assert |Remainder(m, prefix)| == |m| - |prefix|;
    }
  }

  /** The count is the number of positions that hold a member written as a file. */
  lemma {:induction false} CopyCountCounts(names: seq<string>, prefix: string)
    ensures CopyCount(names, prefix) == |FileIndices(names, prefix)|
  {
    CopyCountIsCountOf(names, prefix);
    CountOfIndices(names, IsFileMember(prefix));
  }

  /** The number of names that satisfy `f`. */
  function CountOf(names: seq<string>, f: string -> bool): nat {
    if names == [] then 0 else CountOf(names[..|names| - 1], f) + if f(names[|names| - 1]) then 1 else 0
  }

  lemma {:induction false} CopyCountIsCountOf(names: seq<string>, prefix: string)
    ensures CopyCount(names, prefix) == CountOf(names, IsFileMember(prefix))
  {
    if names != [] {
      CopyCountIsCountOf(names[..|names| - 1], prefix);
    }
  }

  lemma {:induction false} CountOfIndices(names: seq<string>, f: string -> bool)
    ensures CountOf(names, f) == |IndicesOf(names, f)|
  {
    if names != [] {
      var n := |names|;
      var init := names[..n - 1];
      CountOfIndices(init, f);
      assert forall i :: 0 <= i < n - 1 ==> init[i] == names[i];
      if f(names[n - 1]) {
        assert IndicesOf(names, f) == IndicesOf(init, f) + {n - 1};
      } else {
        assert IndicesOf(names, f) == IndicesOf(init, f);
      }
    }
  }

  /** When no member lies under the prefix nothing is written, nothing is created and the count is 0. */
  lemma {:induction false} NothingUnderPrefix(files: map<string, Bytes>, names: seq<string>, read: string -> Bytes, prefix: string, dest: string)
    requires forall i :: 0 <= i < |names| ==> !StartsWith(ToSlash(names[i]), prefix)
    ensures CopyCount(names, prefix) == 0
    ensures Written(files, names, read, prefix, dest) == files
    ensures Made(names, prefix, dest) == {}
  {
    if names != [] {
      NothingUnderPrefix(files, names[..|names| - 1], read, prefix, dest);
    }
  }

  /** The written paths are the old ones plus exactly the targets of the file members. */
  lemma {:induction false} WrittenPaths(files: map<string, Bytes>, names: seq<string>, read: string -> Bytes, prefix: string, dest: string)
    ensures Written(files, names, read, prefix, dest).Keys
            == files.Keys + set m | m in names && Classify(m, prefix) == RegularFile :: Target(dest, m, prefix)
  {
    if names != [] {
      var init := names[..|names| - 1];
      WrittenPaths(files, init, read, prefix, dest);
      assert names == init + [names[|names| - 1]];
    }
  }

  /** A file member that no later file member overwrites leaves its own content at its target. */
  lemma {:induction false} LastWriteWins(files: map<string, Bytes>, names: seq<string>, read: string -> Bytes, prefix: string, dest: string, i: int)
    requires 0 <= i < |names| && Classify(names[i], prefix) == RegularFile
    requires forall j :: i < j < |names| && Classify(names[j], prefix) == RegularFile ==>
               Target(dest, names[j], prefix) != Target(dest, names[i], prefix)
    ensures Target(dest, names[i], prefix) in Written(files, names, read, prefix, dest)
    ensures Written(files, names, read, prefix, dest)[Target(dest, names[i], prefix)] == read(names[i])
  {
    if i < |names| - 1 {
      var init := names[..|names| - 1];
      assert init[i] == names[i];
      forall j | i < j < |init| && Classify(init[j], prefix) == RegularFile
        ensures Target(dest, init[j], prefix) != Target(dest, init[i], prefix)
      {
        assert init[j] == names[j];
      }
      LastWriteWins(files, init, read, prefix, dest, i);
    }
  }

  /** A file that no member targets keeps its old content. */
  lemma {:induction false} UntouchedFilesKept(files: map<string, Bytes>, names: seq<string>, read: string -> Bytes, prefix: string, dest: string, p: string)
    requires p in files
    requires forall m :: m in names && Classify(m, prefix) == RegularFile ==> Target(dest, m, prefix) != p
    ensures p in Written(files, names, read, prefix, dest)
    ensures Written(files, names, read, prefix, dest)[p] == files[p]
  {
    if names != [] {
      var init := names[..|names| - 1];
      assert forall m :: m in init ==> m in names;
      UntouchedFilesKept(files, init, read, prefix, dest, p);
    }
  }

  /** The targets of the directory members. */
  function DirectoryTargets(names: seq<string>, prefix: string, dest: string): set<string> {
    set m | m in names && Classify(m, prefix) == Directory :: Target(dest, m, prefix)
  }

  /** The parent directories of the file members' targets. */
  function FileParents(names: seq<string>, prefix: string, dest: string): set<string> {
    set m | m in names && Classify(m, prefix) == RegularFile :: Parent(Target(dest, m, prefix))
  }

  lemma TargetsSnoc(names: seq<string>, prefix: string, dest: string)
    requires names != []
    ensures var init, last := names[..|names| - 1], names[|names| - 1];
            DirectoryTargets(names, prefix, dest)
            == DirectoryTargets(init, prefix, dest) + if Classify(last, prefix) == Directory then {Target(dest, last, prefix)} else {}
    ensures var init, last := names[..|names| - 1], names[|names| - 1];
            FileParents(names, prefix, dest)
            == FileParents(init, prefix, dest) + if Classify(last, prefix) == RegularFile then {Parent(Target(dest, last, prefix))} else {}
  {
    var init, last := names[..|names| - 1], names[|names| - 1];
    assert forall m :: m in names <==> m in init || m == last by {
      assert names == init + [last];
    }
  }

  /** The created directories are the targets of the directory members and the parents of the file members' targets. */
  lemma {:induction false} MadeDirectories(names: seq<string>, prefix: string, dest: string)
    ensures Made(names, prefix, dest) == DirectoryTargets(names, prefix, dest) + FileParents(names, prefix, dest)
  {
    if names != [] {
      MadeDirectories(names[..|names| - 1], prefix, dest);
      TargetsSnoc(names, prefix, dest);
    }
  }
}
