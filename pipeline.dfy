/**
  Processing a pack: choosing the output directory, copying the overrides,
  and turning the manifest's file list into downloads whose outcomes are
  tallied, with the early exits in between.
*/
module Pipeline {
  import opened Base
  import opened Text
  import opened Sanitize
  import opened Layout
  import opened FileSystem
  import opened Overrides
  import opened Fetch
  import opened Manifest
  import opened Scheduler

  /** What opening the pack as a zip archive gives: an error, or the member names and a reader for their contents. */
  datatype Archive = NotAZip | Zip(names: seq<string>, read: string -> Bytes)

  /**
    Everything outside the script that `process_mrpack` consults: whether the
    pack file exists, its archive, the UTF-8 and JSON decoder, the transport
    (the response received by the download with position `k`), the digests,
    and whether the delete after a transport error fails for position `k`.
  */
  datatype World = World(
    packExists: bool,
    archive: Archive,
    decode: Bytes -> Document,
    network: nat -> Response,
    digests: Digests,
    cleanupFails: nat -> bool)

  /** The command-line options: `--outdir`, `--verify-hashes`, `--server-files-only`. */
  datatype Options = Options(outdir: Option<string>, verifyHashes: bool, serverFilesOnly: bool)

  datatype ProcessError =
    | PackNotFound(path: string)
    | NotAZipArchive(path: string)
    | ManifestUndecodable
    | ManifestNotAnObject

  /** Where a run that does not raise stops. */
  datatype Stop =
    | NoManifest
    | NoFiles
    | NothingToDownload
    | Downloaded(scheduled: nat, succeeded: nat, failed: nat)

  /** The output directory, the number of override files reported (if the archive has an overrides tree) and the stop. */
  datatype Outcome =
    | Raised(error: ProcessError)
    | Returned(outdir: string, copied: Option<nat>, stop: Stop)

  /**
    `with_suffix('')` on the last path component: the final `.suffix` is
    dropped, unless the only dot starts the name or the name ends with a dot.
  */
  function WithoutSuffix(name: string): (r: string)
    ensures r == name || (0 < |r| < |name| - 1 && name[..|r|] == r && name[|r|] == '.' && forall j :: |r| < j < |name| ==> name[j] != '.')
    ensures r != name <==> exists i :: 0 < i < |name| - 1 && name[i] == '.' && forall j :: i < j < |name| ==> name[j] != '.'
  {
    var i := LastIndex(name, '.');
    if 0 < i < |name| - 1 then name[..i] else name
  }

  /** The usual pack file name loses exactly its `.mrpack` extension. */
  lemma WithoutMrpackSuffix(stem: string)
    requires stem != ""
    ensures WithoutSuffix(stem + ".mrpack") == stem
  {
    var name := stem + ".mrpack";
    var k := LastIndex(name, '.');
    assert name[|stem|] == '.';
    assert forall j :: |stem| < j < |name| ==> name[j] == ".mrpack"[j - |stem|];
    assert k == |stem|;
    assert name[..k] == stem;
  }

  /** A name whose only dot is its first character, or that has no dot at all, is kept whole. */
  lemma WithoutSuffixKeepsDotless(name: string)
    requires forall j :: 0 < j < |name| ==> name[j] != '.'
    ensures WithoutSuffix(name) == name
  {
  }

  /** The manifest document, when the archive has a manifest member. */
  function ManifestDoc(world: World, layout: Layout): Option<Document>
    requires world.archive.Zip?
  {
    match layout.indexMember
    case None => None
    case Some(m) => Some(world.decode(world.archive.read(m)))
  }

  /**
    The output directory: the option when given; otherwise the sanitised pack
    name next to the pack file, or the pack file's path without its suffix.
  */
  function OutputDir(outdir: Option<string>, doc: Option<Document>, packPath: string): (r: string)
    ensures outdir.Some? ==> r == outdir.value
    ensures outdir.None? ==> r == Parent(packPath) || (Parent(r) == Parent(packPath) && '/' !in LastComponent(r))
  {
    OutputDirShape(doc, packPath);
    match outdir
    case Some(d) => d
    case None =>
      if doc.Some? && HasPackName(doc.value) then Join(Parent(packPath), SanitizeForFilename(doc.value.name.value))
      else Join(Parent(packPath), WithoutSuffix(LastComponent(packPath)))
  }

  /** The folder chosen without `--outdir` is a single component beside the pack file, or the pack file's directory. */
  lemma OutputDirShape(doc: Option<Document>, packPath: string)
    ensures var folder := if doc.Some? && HasPackName(doc.value) then SanitizeForFilename(doc.value.name.value)
                          else WithoutSuffix(LastComponent(packPath));
            var dir := Join(Parent(packPath), folder);
            dir == Parent(packPath) || (Parent(dir) == Parent(packPath) && '/' !in LastComponent(dir))
  {
    var folder := if doc.Some? && HasPackName(doc.value) then SanitizeForFilename(doc.value.name.value)
                  else WithoutSuffix(LastComponent(packPath));
    if doc.Some? && HasPackName(doc.value) {
      SanitizedHasNoSeparator(doc.value.name.value);
    } else {
      var last := LastComponent(packPath);
      assert '/' !in last;
      assert '/' !in folder by {
        assert forall j :: 0 <= j < |folder| ==> folder[j] == last[j];
      }
    }
    if folder != "" {
      JoinParent(Parent(packPath), folder);
    }
  }

  /**
    A pack named `..` is unpacked into the parent of the pack file's
    directory: the sanitiser keeps the name, and it is joined as it is.
  */
  lemma OutputDirDotDot(doc: Document, packPath: string)
    requires HasPackName(doc) && doc.name.value == ".."
    ensures OutputDir(None, Some(doc), packPath) == Join(Parent(packPath), "..")
    ensures Parent(OutputDir(None, Some(doc), packPath)) == Parent(packPath)
  {
    SanitizeKeepsDotDot();
    JoinParent(Parent(packPath), "..");
  }

  /** A given output directory is used as it is. */
  lemma OutputDirGiven(d: string, doc: Option<Document>, packPath: string)
    ensures OutputDir(Some(d), doc, packPath) == d
  {
  }

  /**
    A pack name whose sanitised form is not empty becomes a single new
    component beside the pack file; a name that sanitises to nothing selects
    the pack file's own directory.
  */
  lemma OutputDirFromName(doc: Document, packPath: string)
    requires HasPackName(doc)
    ensures var dir, folder := OutputDir(None, Some(doc), packPath), SanitizeForFilename(doc.name.value);
            && (folder != "" ==> Parent(dir) == Parent(packPath) && LastComponent(dir) == folder)
            && (folder == "" ==> dir == Parent(packPath))
  {
    var folder := SanitizeForFilename(doc.name.value);
    SanitizedHasNoSeparator(doc.name.value);
    if folder != "" {
      JoinParent(Parent(packPath), folder);
    }
  }

  /** Without a usable pack name, `dir/stem.mrpack` is unpacked into `dir/stem`. */
  lemma OutputDirFallback(doc: Option<Document>, dir: string, stem: string)
    requires doc.None? || !HasPackName(doc.value)
    requires stem != "" && '/' !in stem
    ensures OutputDir(None, doc, Join(dir, stem + ".mrpack")) == Join(dir, stem)
  {
    var name := stem + ".mrpack";
    assert '/' !in name by {
      assert forall j :: 0 <= j < |name| ==> name[j] == if j < |stem| then stem[j] else ".mrpack"[j - |stem|];
    }
    JoinParent(dir, name);
    WithoutMrpackSuffix(stem);
  }

  /** What the download with each task's position reports. */
  function Outcomes(tasks: seq<Task>, world: World): (outcomes: seq<FetchResult>)
    ensures |outcomes| == |tasks|
  {
    seq(|tasks|, k requires 0 <= k < |tasks| =>
      FetchOutcome(tasks[k].dest, tasks[k].hashes, world.network(tasks[k].position), world.digests))
  }

  /** The destinations of the tasks. */
  function Dests(tasks: seq<Task>): set<string> {
    set k | 0 <= k < |tasks| :: tasks[k].dest
  }

  /** The parent directories of the tasks' destinations. */
  function DestParents(tasks: seq<Task>): set<string> {
    set k | 0 <= k < |tasks| :: Parent(tasks[k].dest)
  }

  /**
    Runs the submitted downloads one after the other, in submission order;
    the tally does not depend on the order in which they complete.
  */
  method RunTasks(disk: Disk, tasks: seq<Task>, world: World) returns (outcomes: seq<FetchResult>)
    requires disk.Valid()
    modifies disk
    ensures disk.Valid()
    ensures outcomes == Outcomes(tasks, world)
    ensures disk.dirs == old(disk.dirs) + DestParents(tasks)
    ensures disk.files == AfterDownloads(old(disk.files), tasks, world)
  {
    outcomes := [];
    var i := 0;
    while i < |tasks|
      invariant 0 <= i <= |tasks|
      invariant disk.Valid()
      invariant outcomes == Outcomes(tasks[..i], world)
      invariant disk.dirs == old(disk.dirs) + DestParents(tasks[..i])
      invariant disk.files == AfterDownloads(old(disk.files), tasks[..i], world)
    {
      var t := tasks[i];
      var r := DownloadFile(disk, t.dest, t.hashes, t.size, world.network(t.position), world.digests, world.cleanupFails(t.position));
      DestsSnoc(tasks, i, world);
      outcomes := outcomes + [r];
      i := i + 1;
    }
    assert tasks[..|tasks|] == tasks;
  }

  lemma DestsSnoc(tasks: seq<Task>, i: int, world: World)
    requires 0 <= i < |tasks|
    ensures DestParents(tasks[..i + 1]) == DestParents(tasks[..i]) + {Parent(tasks[i].dest)}
    ensures Outcomes(tasks[..i + 1], world) == Outcomes(tasks[..i], world) + [FetchOutcome(tasks[i].dest, tasks[i].hashes, world.network(tasks[i].position), world.digests)]
    ensures forall files :: AfterDownloads(files, tasks[..i + 1], world) == AfterFetchOf(AfterDownloads(files, tasks[..i], world), tasks[i], world)
  {
    assert tasks[..i + 1][..i] == tasks[..i];
  }

  /** The effect of one task's download on the file map. */
  function AfterFetchOf(files: map<string, Bytes>, t: Task, world: World): map<string, Bytes> {
    FetchedFiles(files, t.dest, world.network(t.position), world.cleanupFails(t.position))
  }

  /** The file map after the tasks' downloads have run in submission order. */
  function AfterDownloads(files: map<string, Bytes>, tasks: seq<Task>, world: World): map<string, Bytes> {
    if tasks == [] then files
    else AfterFetchOf(AfterDownloads(files, tasks[..|tasks| - 1], world), tasks[|tasks| - 1], world)
  }

  /** No file outside the tasks' destinations is touched by the downloads. */
  lemma {:induction false} DownloadsTouchOnlyDests(files: map<string, Bytes>, tasks: seq<Task>, world: World)
    ensures SameOutside(AfterDownloads(files, tasks, world), files, Dests(tasks))
  {
    if tasks != [] {
      var init := tasks[..|tasks| - 1];
      DownloadsTouchOnlyDests(files, init, world);
      assert Dests(tasks) == Dests(init) + {tasks[|tasks| - 1].dest} by {
        assert forall k :: 0 <= k < |init| ==> init[k] == tasks[k];
      }
    }
  }

  /**
    A task whose destination no later task shares leaves, after all the
    downloads, what its own download left: the received bytes when its stream
    completed (or broke and the delete failed), and no file when its transfer
    was refused or broke and the delete succeeded.
  */
  lemma {:induction false} DownloadLeavesDest(files: map<string, Bytes>, tasks: seq<Task>, world: World, k: int)
    requires 0 <= k < |tasks|
    requires forall j :: k < j < |tasks| ==> tasks[j].dest != tasks[k].dest
    ensures var after, response, cleanupFails := AfterDownloads(files, tasks, world), world.network(tasks[k].position), world.cleanupFails(tasks[k].position);
            && (response.Stream? && (response.end.Complete? || cleanupFails) ==>
                  tasks[k].dest in after && after[tasks[k].dest] == Flatten(response.chunks))
            && ((response.Refused? || response.end.Broken?) && !cleanupFails ==> tasks[k].dest !in after)
  {
    var init := tasks[..|tasks| - 1];
    if k < |tasks| - 1 {
      assert init[k] == tasks[k];
      DownloadLeavesDest(files, init, world, k);
    }
  }

  /**
    Read through the outcome: a successful download, and one whose digest did
    not match, leave the received bytes at the destination; a transport error
    leaves no file there unless the delete failed.
  */
  lemma DownloadOutcomeOnDisk(files: map<string, Bytes>, tasks: seq<Task>, world: World, k: int)
    requires 0 <= k < |tasks|
    requires forall j :: k < j < |tasks| ==> tasks[j].dest != tasks[k].dest
    ensures var after, outcome, response := AfterDownloads(files, tasks, world), Outcomes(tasks, world)[k], world.network(tasks[k].position);
            && (outcome.Fetched? || outcome.error.Sha1Mismatch? || outcome.error.Sha512Mismatch? ==>
                  response.Stream? && tasks[k].dest in after && after[tasks[k].dest] == Flatten(response.chunks))
            && (outcome.FetchFailed? && outcome.error.TransportError? && !world.cleanupFails(tasks[k].position) ==>
                  tasks[k].dest !in after)
  {
    DownloadLeavesDest(files, tasks, world, k);
  }

  /** The files after the overrides have been copied, when the archive has an overrides tree. */
  ghost function AfterOverrides(files: map<string, Bytes>, names: seq<string>, read: string -> Bytes, layout: Layout, outdir: string): map<string, Bytes> {
    if layout.hasOverrides then Written(files, names, read, OverridesPrefix, outdir) else files
  }

  /** The directories created for the overrides. */
  ghost function OverrideDirs(names: seq<string>, layout: Layout, outdir: string): set<string> {
    if layout.hasOverrides then Made(names, OverridesPrefix, outdir) else {}
  }

  /** The tasks scheduled for a manifest object. */
  function PackTasks(doc: Document, opts: Options, outdir: string): seq<Task>
    requires doc.Object?
  {
    Planned(Selected(FileList(doc), opts.serverFilesOnly), opts.verifyHashes, outdir)
  }

  /**
    `process_mrpack` with the archive, the decoder, the transport and the
    digests given by `world`. The layout found in the archive is returned as
    a ghost result so that the contract can refer to it.
  */
  method ProcessMrpack(disk: Disk, packPath: string, opts: Options, world: World)
    returns (outcome: Outcome, ghost layout: Layout)
    requires disk.Valid()
    modifies disk
    ensures disk.Valid()
    ensures !world.packExists ==> outcome == Raised(PackNotFound(packPath)) && unchanged(disk)
    ensures world.packExists && world.archive.NotAZip? ==> outcome == Raised(NotAZipArchive(packPath)) && unchanged(disk)
    ensures world.packExists && world.archive.Zip? ==>
              var names := world.archive.names;
              && (match layout.indexMember
                  case Some(m) => exists i :: FirstManifestAt(names, i) && names[i] == m
                  case None => forall i :: 0 <= i < |names| ==> !IsManifestMember(names[i]))
              && (layout.hasOverrides <==>
                    exists i :: 0 <= i < |names| && IsOverridesMember(names[i]))
    ensures world.packExists && world.archive.Zip? && ManifestDoc(world, layout) == Some(Undecodable) ==>
              outcome == Raised(ManifestUndecodable) && unchanged(disk)
    ensures world.packExists && world.archive.Zip? && ManifestDoc(world, layout) != Some(Undecodable) ==>
              var names, read, doc := world.archive.names, world.archive.read, ManifestDoc(world, layout);
              var outdir := OutputDir(opts.outdir, doc, packPath);
              var copied := if layout.hasOverrides then Some(CopyCount(names, OverridesPrefix)) else None;
              var files := AfterOverrides(old(disk.files), names, read, layout, outdir);
              var dirs := old(disk.dirs) + {outdir} + OverrideDirs(names, layout, outdir);
              if doc.None? || !Truthy(doc.value) then
                outcome == Returned(outdir, copied, NoManifest) && disk.files == files && disk.dirs == dirs
              else if !doc.value.Object? then
                outcome == Raised(ManifestNotAnObject) && disk.files == files && disk.dirs == dirs
              else if FileList(doc.value) == [] then
                outcome == Returned(outdir, copied, NoFiles) && disk.files == files && disk.dirs == dirs
              else if Selected(FileList(doc.value), opts.serverFilesOnly) == [] then
                outcome == Returned(outdir, copied, NothingToDownload) && disk.files == files && disk.dirs == dirs
              else
                var tasks := PackTasks(doc.value, opts, outdir);
                var results := Outcomes(tasks, world);
                && outcome == Returned(outdir, copied, Downloaded(|tasks|, Count(results, true), Count(results, false)))
                && disk.dirs == dirs + DestParents(tasks)
                && disk.files == AfterDownloads(files, tasks, world)
  {
    layout := Layout(None, false, None);
    if !world.packExists {
      return Raised(PackNotFound(packPath)), layout;
    }
    if world.archive.NotAZip? {
      return Raised(NotAZipArchive(packPath)), layout;
    }
    var names, read := world.archive.names, world.archive.read;
    var found := FindIndexAndOverrides(names);
    layout := found;

    var doc: Option<Document> := None;
    if found.indexMember.Some? {
      var d := world.decode(read(found.indexMember.value));
      if d.Undecodable? {
        return Raised(ManifestUndecodable), layout;
      }
      doc := Some(d);
    }

    var outdir := OutputDir(opts.outdir, doc, packPath);
    disk.MakeDirs(outdir);

    var copied: Option<nat> := None;
    if found.hasOverrides && found.overridesPrefix.Some? {
      var cnt := ExtractOverrides(disk, names, read, found.overridesPrefix.value, outdir);
      copied := Some(cnt);
    }

    outcome := ManifestPhase(disk, doc, opts, world, outdir, copied);
  }

  /** What follows the overrides: the early exits on the manifest, then the downloads. */
  method ManifestPhase(disk: Disk, doc: Option<Document>, opts: Options, world: World, outdir: string, copied: Option<nat>)
    returns (outcome: Outcome)
    requires disk.Valid()
    modifies disk
    ensures disk.Valid()
    ensures if doc.None? || !Truthy(doc.value) then outcome == Returned(outdir, copied, NoManifest) && unchanged(disk)
            else if !doc.value.Object? then outcome == Raised(ManifestNotAnObject) && unchanged(disk)
            else if FileList(doc.value) == [] then outcome == Returned(outdir, copied, NoFiles) && unchanged(disk)
            else if Selected(FileList(doc.value), opts.serverFilesOnly) == [] then
              outcome == Returned(outdir, copied, NothingToDownload) && unchanged(disk)
            else
              var tasks := PackTasks(doc.value, opts, outdir);
              var results := Outcomes(tasks, world);
              && outcome == Returned(outdir, copied, Downloaded(|tasks|, Count(results, true), Count(results, false)))
              && disk.dirs == old(disk.dirs) + DestParents(tasks)
              && disk.files == AfterDownloads(old(disk.files), tasks, world)
  {
    if doc.None? || !Truthy(doc.value) {
      return Returned(outdir, copied, NoManifest);
    }
    if !doc.value.Object? {
      return Raised(ManifestNotAnObject);
    }
    var files := FileList(doc.value);
    if files == [] {
      return Returned(outdir, copied, NoFiles);
    }
    var stop := DownloadPhase(disk, files, opts, world, outdir);
    outcome := Returned(outdir, copied, stop);
  }

  /** Filtering, scheduling, running and tallying the downloads of a non-empty file list. */
  method DownloadPhase(disk: Disk, files: seq<Entry>, opts: Options, world: World, outdir: string) returns (stop: Stop)
    requires disk.Valid()
    modifies disk
    ensures disk.Valid()
    ensures Selected(files, opts.serverFilesOnly) == [] ==> stop == NothingToDownload && unchanged(disk)
    ensures Selected(files, opts.serverFilesOnly) != [] ==>
              var tasks := Planned(Selected(files, opts.serverFilesOnly), opts.verifyHashes, outdir);
              var results := Outcomes(tasks, world);
              && stop == Downloaded(|tasks|, Count(results, true), Count(results, false))
              && disk.dirs == old(disk.dirs) + DestParents(tasks)
              && disk.files == AfterDownloads(old(disk.files), tasks, world)
  {
    var filesToDownload := FilterForServer(files, opts.serverFilesOnly);
    if |filesToDownload| == 0 {
      return NothingToDownload;
    }
    var tasks, scheduled := Schedule(filesToDownload, opts.verifyHashes, outdir);
    var results := RunTasks(disk, tasks, world);
    var succeeded, failed := Tally(results);
    stop := Downloaded(scheduled, succeeded, failed);
  }

  /**
    After collection every scheduled download is counted once, as a success
    or a failure, and the scheduled and the skipped entries together are all
    the entries that passed the filter.
  */
  lemma DownloadTally(doc: Document, opts: Options, outdir: string, world: World)
    requires doc.Object?
    ensures var selected := Selected(FileList(doc), opts.serverFilesOnly);
            var tasks := PackTasks(doc, opts, outdir);
            var results := Outcomes(tasks, world);
            && Count(results, true) + Count(results, false) == |tasks|
            && |tasks| + |SkippedIndices(selected)| == |selected|
  {
    var selected := Selected(FileList(doc), opts.serverFilesOnly);
    CountPartition(Outcomes(PackTasks(doc, opts, outdir), world));
    ScheduledPlusSkipped(selected, opts.verifyHashes, outdir);
  }
}
