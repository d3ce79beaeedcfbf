/**
  The download half of pack processing: the server-environment filter, the
  scheduling loop that turns entries into download tasks, and the tally of
  the tasks' outcomes.
*/
module Scheduler {
  import opened Base
  import opened Text
  import opened Manifest
  import opened Fetch

  /** The entries the filter keeps, in their order. */
  function Selected(files: seq<Entry>, serverOnly: bool): seq<Entry> {
    if files == [] then []
    else
      var rest := Selected(files[..|files| - 1], serverOnly);
      var last := files[|files| - 1];
      if !serverOnly || KeepOnServer(last) then rest + [last] else rest
  }

  /** The loop that builds `files_to_download`. */
  method FilterForServer(files: seq<Entry>, serverOnly: bool) returns (kept: seq<Entry>)
    ensures kept == Selected(files, serverOnly)
  {
    kept := [];
    var i := 0;
    while i < |files|
      invariant 0 <= i <= |files|
      invariant kept == Selected(files[..i], serverOnly)
    {
      var entry := files[i];
      assert files[..i + 1][..i] == files[..i];
      if serverOnly && !KeepOnServer(entry) {
        i := i + 1;
        continue;
      }
      kept := kept + [entry];
      i := i + 1;
    }
    assert files[..|files|] == files;
  }

  /** `a` is `b` with some elements removed, the rest keeping their order. */
  predicate IsSubsequence(a: seq<Entry>, b: seq<Entry>)
    decreases |b|
  {
    a == [] ||
    (b != [] &&
     ((a[|a| - 1] == b[|b| - 1] && IsSubsequence(a[..|a| - 1], b[..|b| - 1])) || IsSubsequence(a, b[..|b| - 1])))
  }

  /** The filter never reorders or invents entries. */
  lemma {:induction false} SelectedIsSubsequence(files: seq<Entry>, serverOnly: bool)
    ensures IsSubsequence(Selected(files, serverOnly), files)
  {
    if files != [] {
      var init, last := files[..|files| - 1], files[|files| - 1];
      SelectedIsSubsequence(init, serverOnly);
      var rest := Selected(init, serverOnly);
      if !serverOnly || KeepOnServer(last) {
        assert (rest + [last])[..|rest|] == rest;
      }
    }
  }

  /** Without the flag the list is unchanged. */
  lemma {:induction false} SelectedWithoutFlag(files: seq<Entry>)
    ensures Selected(files, false) == files
  {
    if files != [] {
      SelectedWithoutFlag(files[..|files| - 1]);
      assert files == files[..|files| - 1] + [files[|files| - 1]];
    }
  }

  /** With the flag an entry survives iff it occurs in the list and its server environment is kept. */
  lemma {:induction false} SelectedWithFlag(files: seq<Entry>)
    ensures forall e :: e in Selected(files, true) <==> e in files && KeepOnServer(e)
  {
    if files != [] {
      var init, last := files[..|files| - 1], files[|files| - 1];
      SelectedWithFlag(init);
      assert forall e :: e in files <==> e in init || e == last by {
        assert files == init + [last];
      }
    }
  }

  /** What is handed to `download_file` for one scheduled entry, and what is remembered about it. */
  datatype Task = Task(
    idx: nat,
    path: string,
    url: string,
    dest: string,
    hashes: Option<map<string, string>>,
    size: Option<int>,
    position: nat)

  /** The task for a dispatchable entry at 1-based index `idx`, given the next position. */
  function TaskFor(e: Entry, idx: nat, verify: bool, outdir: string, position: nat): Task
    requires Dispatchable(e)
  {
    Task(idx, e.path.value, DownloadList(e.downloads)[0], JoinPath(outdir, e.path.value),
         if verify then e.hashes else None, SizeHint(e), position)
  }

  /** The tasks the scheduling loop submits, in submission order. */
  function Planned(entries: seq<Entry>, verify: bool, outdir: string): seq<Task> {
    if entries == [] then []
    else
      var before := Planned(entries[..|entries| - 1], verify, outdir);
      var last := entries[|entries| - 1];
      if Dispatchable(last) then before + [TaskFor(last, |entries|, verify, outdir, |before|)] else before
  }

  /** The scheduling loop: skip entries without a path or a URL, submit the others with the next position. */
  method Schedule(entries: seq<Entry>, verify: bool, outdir: string) returns (tasks: seq<Task>, scheduled: nat)
    ensures tasks == Planned(entries, verify, outdir)
    ensures scheduled == |tasks|
  {
    tasks := [];
    scheduled := 0;
    var nextPosition := 0;
    var idx := 1;
    while idx <= |entries|
      invariant 1 <= idx <= |entries| + 1
      invariant tasks == Planned(entries[..idx - 1], verify, outdir)
      invariant scheduled == nextPosition == |tasks|
    {
      var entry := entries[idx - 1];
      assert entries[..idx][..idx - 1] == entries[..idx - 1];
      if entry.path.None? || entry.path.value == "" {
        idx := idx + 1;
        continue;
      }
      var downloads := DownloadList(entry.downloads);
      if downloads == [] {
        idx := idx + 1;
        continue;
      }
      var url := downloads[0];
      var dest := JoinPath(outdir, entry.path.value);
      var expectedHashes := if verify then entry.hashes else None;
      var size := SizeHint(entry);
      var position := nextPosition;
      nextPosition := nextPosition + 1;
      tasks := tasks + [Task(idx, entry.path.value, url, dest, expectedHashes, size, position)];
      scheduled := scheduled + 1;
      idx := idx + 1;
    }
    assert entries[..|entries|] == entries;
  }

  /** Scheduled tasks receive the positions 0, 1, 2, … in submission order. */
  lemma {:induction false} PlannedPositions(entries: seq<Entry>, verify: bool, outdir: string)
    ensures forall k :: 0 <= k < |Planned(entries, verify, outdir)| ==> Planned(entries, verify, outdir)[k].position == k
  {
    if entries != [] {
      PlannedPositions(entries[..|entries| - 1], verify, outdir);
    }
  }

  /** Task `k` is the task of the dispatchable entry at its 1-based index, with position `k`. */
  predicate FromEntry(entries: seq<Entry>, tasks: seq<Task>, k: int, verify: bool, outdir: string)
    requires 0 <= k < |tasks|
  {
    && 1 <= tasks[k].idx <= |entries|
    && Dispatchable(entries[tasks[k].idx - 1])
    && tasks[k] == TaskFor(entries[tasks[k].idx - 1], tasks[k].idx, verify, outdir, k)
  }

  /**
    Every task comes from a dispatchable entry: it carries that entry's 1-based
    index, its first URL, its hashes only when verifying, its size hint, and the
    destination the output directory joined with the entry's path; indices increase along the tasks.
  */
  lemma {:induction false} PlannedFromEntries(entries: seq<Entry>, verify: bool, outdir: string)
    ensures forall k :: 0 <= k < |Planned(entries, verify, outdir)| ==> FromEntry(entries, Planned(entries, verify, outdir), k, verify, outdir)
    ensures forall j, k :: 0 <= j < k < |Planned(entries, verify, outdir)| ==>
              Planned(entries, verify, outdir)[j].idx < Planned(entries, verify, outdir)[k].idx
  {
    if entries != [] {
      var n := |entries|;
      var init := entries[..n - 1];
      PlannedFromEntries(init, verify, outdir);
      var before, tasks := Planned(init, verify, outdir), Planned(entries, verify, outdir);
      assert forall k :: 0 <= k < |before| ==> tasks[k] == before[k];
      forall k | 0 <= k < |tasks|
        ensures FromEntry(entries, tasks, k, verify, outdir)
      {
        if k < |before| {
          assert FromEntry(init, before, k, verify, outdir);
          assert entries[before[k].idx - 1] == init[before[k].idx - 1];
        }
      }
      forall j, k | 0 <= j < k < |tasks| ensures tasks[j].idx < tasks[k].idx {
        if k < |before| {
          assert before[j].idx < before[k].idx;
        } else {
          assert FromEntry(init, before, j, verify, outdir);
        }
      }
    }
  }

  /** A scheduled task's fields, read back against its entry. */
  lemma TaskForFields(e: Entry, idx: nat, verify: bool, outdir: string, position: nat)
    requires Dispatchable(e)
    ensures var t := TaskFor(e, idx, verify, outdir, position);
            && t.url == DownloadList(e.downloads)[0]
            && (e.downloads.Url? ==> t.url == e.downloads.url)
            && (e.downloads.UrlList? ==> t.url == e.downloads.urls[0])
            && (verify ==> t.hashes == e.hashes)
            && (!verify ==> t.hashes.None?)
            && (e.fileSize == Some(0) ==> t.size.None?)
            && (e.path.value[0] != '/' ==> t.dest == outdir + "/" + e.path.value)
  {
  }

  /** An absolute entry path is used as the destination as it is, outside the output directory. */
  lemma AbsolutePathEscapes(outdir: string, path: string)
    requires path != "" && path[0] == '/'
    ensures JoinPath(outdir, path) == path
  {
  }

  /** The 0-based positions of the entries that get scheduled, and of those that are skipped. */
  function DispatchableIndices(entries: seq<Entry>): set<int> {
    set i | 0 <= i < |entries| && Dispatchable(entries[i])
  }

  function SkippedIndices(entries: seq<Entry>): set<int> {
    set i | 0 <= i < |entries| && !Dispatchable(entries[i])
  }

  /**
    The number of tasks is the number of dispatchable entries, and the
    scheduled and the skipped entries together are all the filtered entries.
  */
  lemma {:induction false} ScheduledPlusSkipped(entries: seq<Entry>, verify: bool, outdir: string)
    ensures |Planned(entries, verify, outdir)| == |DispatchableIndices(entries)|
    ensures |Planned(entries, verify, outdir)| + |SkippedIndices(entries)| == |entries|
  {
    if entries != [] {
      ScheduledPlusSkipped(entries[..|entries| - 1], verify, outdir);
      PlannedLengthStep(entries, verify, outdir);
      IndicesStep(entries);
    }
  }

  /** The dispatchable and the skipped positions, taken one entry further. */
  lemma IndicesStep(entries: seq<Entry>)
    requires entries != []
    ensures var n := |entries|;
            DispatchableIndices(entries)
            == DispatchableIndices(entries[..n - 1]) + if Dispatchable(entries[n - 1]) then {n - 1} else {}
    ensures var n := |entries|;
            SkippedIndices(entries)
            == SkippedIndices(entries[..n - 1]) + if Dispatchable(entries[n - 1]) then {} else {n - 1}
  {
    var n := |entries|;
    var init := entries[..n - 1];
    assert forall i :: 0 <= i < n - 1 ==> init[i] == entries[i];
  }

  /** One more entry adds one task exactly when it is dispatchable. */
  lemma PlannedLengthStep(entries: seq<Entry>, verify: bool, outdir: string)
    requires entries != []
    ensures |Planned(entries, verify, outdir)|
            == |Planned(entries[..|entries| - 1], verify, outdir)| + if Dispatchable(entries[|entries| - 1]) then 1 else 0
  {
  }

  /** The number of outcomes that are successes (`ok`) or failures (`!ok`). */
  function Count(outcomes: seq<FetchResult>, ok: bool): nat {
    if outcomes == [] then 0
    else Count(outcomes[..|outcomes| - 1], ok) + if outcomes[|outcomes| - 1].Fetched? == ok then 1 else 0
  }

  /** The collection loop: a raising future counts as failed, any other as succeeded. */
  method Tally(outcomes: seq<FetchResult>) returns (succeeded: nat, failed: nat)
    ensures succeeded == Count(outcomes, true)
    ensures failed == Count(outcomes, false)
  {
    succeeded, failed := 0, 0;
    var i := 0;
    while i < |outcomes|
      invariant 0 <= i <= |outcomes|
      invariant succeeded == Count(outcomes[..i], true)
      invariant failed == Count(outcomes[..i], false)
    {
      assert outcomes[..i + 1][..i] == outcomes[..i];
      if outcomes[i].FetchFailed? {
        failed := failed + 1;
      } else {
        succeeded := succeeded + 1;
      }
      i := i + 1;
    }
    assert outcomes[..|outcomes|] == outcomes;
  }

  /** Every outcome is counted exactly once. */
  lemma {:induction false} CountPartition(outcomes: seq<FetchResult>)
    ensures Count(outcomes, true) + Count(outcomes, false) == |outcomes|
  {
    if outcomes != [] {
      CountPartition(outcomes[..|outcomes| - 1]);
    }
  }

  /** The successes are the multiplicity of `Fetched` among the outcomes. */
  lemma {:induction false} CountIsMultiplicity(outcomes: seq<FetchResult>)
    ensures Count(outcomes, true) == multiset(outcomes)[Fetched]
  {
    if outcomes != [] {
      var init, last := outcomes[..|outcomes| - 1], outcomes[|outcomes| - 1];
      CountIsMultiplicity(init);
      assert outcomes == init + [last];
      assert multiset(outcomes) == multiset(init) + multiset{last};
    }
  }

  /** The tally does not depend on the order in which the futures complete. */
  lemma TallyOrderIndependent(a: seq<FetchResult>, b: seq<FetchResult>)
    requires multiset(a) == multiset(b)
    ensures Count(a, true) == Count(b, true)
    ensures Count(a, false) == Count(b, false)
  {
    CountIsMultiplicity(a);
    CountIsMultiplicity(b);
    CountPartition(a);
    CountPartition(b);
    assert |a| == |multiset(a)| == |multiset(b)| == |b|;
  }
}
