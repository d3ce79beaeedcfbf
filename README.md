# extract_mrpack, modelled in Dafny

`extract_mrpack.py` unpacks a Modrinth modpack (`.mrpack`, a zip archive) without the
Modrinth launcher. It looks for the manifest `modrinth.index.json` and for an `overrides/`
tree inside the archive, chooses an output directory (the `--outdir` option, the sanitised
pack name beside the pack file, or the pack file's path without its suffix), copies the
overrides into it with the `overrides/` prefix stripped, and then downloads every file the
manifest lists. Downloads can be filtered to what a server needs and checked against their
SHA-1 and SHA-512 hashes. At the end it tallies how many downloads succeeded and failed.

The model has one module per concern:

- `Base`: `Option`, bytes.
- `Text`: ASCII character rules, `\` to `/`, `strip()`, and path parent, last component and join on strings.
- `Sanitize`: `sanitize_for_filename`.
- `Layout`: `find_index_and_overrides`, as two search loops.
- `FileSystem`: a `Disk` class, a set of directories and a map from paths to contents, updated in place.
- `Overrides`: `extract_overrides`, as a method on the `Disk` proved against fold functions (`CopyCount`, `Written`, `Made`).
- `Fetch`: `download_file`.
  - The HTTP response is an input value: refused, or a stream of chunks that completes or breaks.
  - The two digests are uninterpreted functions.
  - The write loop is proved against the concatenation of the non-empty chunks.
- `Manifest`: the parsed manifest and the truthiness rules the script applies to it.
- `Scheduler`: the server filter, the scheduling loop and the tally.
- `Pipeline`: `process_mrpack`, with the archive, the JSON decoder, the transport and the digests passed in as a `World` value.

## Model

| member | source | states |
|---|---|---|
| Text.Strip | extract_mrpack.py:35 | the result is the input with exactly its leading and trailing whitespace removed |
| Text.StripTrimmed | extract_mrpack.py:35 | stripping a string that neither starts nor ends with whitespace leaves it unchanged |
| Text.JoinParent | extract_mrpack.py:162 | joining a single path component to a directory gives a path whose parent is that directory and whose last component is that name |
| Text.JoinPath | extract_mrpack.py:227 | an absolute path replaces the directory; a relative, non-empty one gives a path that starts with the directory followed by `/` |
| Sanitize.SanitizeForFilename | extract_mrpack.py:32-35 | every kept character is an ASCII letter or digit or one of ` ._-()`; the result neither starts nor ends with a space; it is no longer than the name |
| Sanitize.SanitizeStripsOnlySpaces | extract_mrpack.py:35 | the result is the masked name with only spaces removed at its two ends |
| Sanitize.SanitizeFixesSafeNames | extract_mrpack.py:32-35 | a name made only of kept characters, with no space at either end, is returned unchanged |
| Sanitize.SanitizeIdempotent | extract_mrpack.py:32-35 | sanitising twice gives the same result as sanitising once |
| Sanitize.SanitizedHasNoSeparator | extract_mrpack.py:35 | the result contains neither `/` nor `\`, so the folder name is a single path component |
| Sanitize.SanitizeKeepsDotDot | extract_mrpack.py:35 | `..` passes through unchanged, and ` . ` becomes `.` |
| Layout.FindIndexAndOverrides | extract_mrpack.py:38-59 | the manifest member is the first name whose last component, lower-cased, is `modrinth.index.json`, or none when no name is; the overrides flag holds exactly when some name (with `\` as `/`) starts with `overrides/` or is `overrides`; the prefix is `overrides/` exactly when the flag holds |
| Layout.FindIndexMember | extract_mrpack.py:46-50 | the first manifest member, or none exactly when no member is a manifest |
| Layout.FindOverridesRoot | extract_mrpack.py:52-57 | `overrides/` exactly when some member is in the overrides tree or is its root, otherwise none |
| Layout.OverridesMemberSimplified | extract_mrpack.py:55 | the three-way test reduces to "starts with `overrides/` or equals `overrides`" |
| Overrides.Classify | extract_mrpack.py:64-75 | a member is outside exactly when its normalised name does not start with the prefix; a directory member's raw name ends in `/`, a file member's does not |
| Overrides.UnderPrefix | extract_mrpack.py:64 | every selected member's normalised name starts with the prefix, and no more members are selected than there are names |
| Overrides.UnderPrefixSelects | extract_mrpack.py:64 | a name is selected exactly when it is in the listing and its normalised form starts with the prefix |
| Overrides.AbsoluteRemainderEscapes | extract_mrpack.py:69-72 | a file member whose remainder starts with `/` is written at that absolute path, not below the output directory |
| Overrides.ExtractOverrides | extract_mrpack.py:62-80 | the count is the number of regular-file members under the prefix; the new files map is the old one with every such member written to its target in archive order; the new directories are the old ones plus the directory members' targets and the file targets' parents |
| Overrides.CopyMember | extract_mrpack.py:68-79 | one member is copied exactly when its remainder is non-empty and it does not end in `/`; only that member's target changes, and only the directories it needs are added |
| Overrides.ExtractionIgnoresOutside | extract_mrpack.py:64 | pre-filtering by the prefix changes neither the count, the files nor the directories |
| Overrides.RegularFileIff | extract_mrpack.py:69-75 | the classification of a member as skipped, directory or regular file, each stated as an if-and-only-if over its name |
| Overrides.CopyCountCounts | extract_mrpack.py:67-79 | the returned count equals the number of member indices that are regular files under the prefix |
| Overrides.NothingUnderPrefix | extract_mrpack.py:64-66 | with no member under the prefix the count is 0 and neither files nor directories change |
| Overrides.WrittenPaths | extract_mrpack.py:72-78 | the written paths are the old paths plus the targets of the regular-file members |
| Overrides.LastWriteWins | extract_mrpack.py:77-78 | when later members go to other targets, a member's target holds that member's contents after extraction |
| Overrides.UntouchedFilesKept | extract_mrpack.py:72-78 | a file that no member targets keeps its contents |
| Overrides.MadeDirectories | extract_mrpack.py:72-76 | the created directories are exactly the directory members' targets and the file targets' parents |
| FileSystem.Disk.MakeDirs | extract_mrpack.py:166 | adds the directory; files are unchanged |
| FileSystem.Disk.WriteFile | extract_mrpack.py:77 | replaces the file's contents; directories are unchanged |
| FileSystem.Disk.Append | extract_mrpack.py:112 | appends to an open file's contents; nothing else changes |
| FileSystem.Disk.RemoveIfExists | extract_mrpack.py:123-124 | removes the path if it is a file; nothing else changes |
| Fetch.Verify | extract_mrpack.py:130-139 | a failure is always a digest mismatch, never a transport error; it names the destination and an expected and a computed hex that differ ignoring case; a SHA-1 failure needs a SHA-1 accumulator and reports the expected `sha1` value, likewise for SHA-512; with no accumulator verification succeeds |
| Fetch.VerifyMeansAllMatch | extract_mrpack.py:130-139 | a download verifies exactly when every requested algorithm among `sha1` and `sha512` has a digest equal to the expected hex, ignoring case; otherwise the first mismatch in the order sha1 then sha512 is reported, with the expected and the computed hex |
| Fetch.NoHashesAlwaysVerify | extract_mrpack.py:93-94 | with no hash map or an empty one, verification always succeeds |
| Fetch.OtherAlgorithmsIgnored | extract_mrpack.py:131-138 | adding an expected hash for an algorithm other than sha1 or sha512 never changes the result |
| Fetch.FlattenNonEmpty | extract_mrpack.py:109-112 | skipping the empty chunks does not change the bytes written |
| Fetch.ParseInt | extract_mrpack.py:101 | a parsed integer comes from non-empty stripped text whose characters after the first are digits; stripped text made only of digits parses to its decimal value |
| Fetch.DecimalValue | extract_mrpack.py:101 | a decimal rendering of a natural number parses back to that number |
| Fetch.ProgressTotalRule | extract_mrpack.py:100-103 | a non-zero size hint wins; otherwise a decimal Content-Length header gives its value, and a missing or empty header gives 0 |
| Fetch.FetchOutcome | extract_mrpack.py:96-139 | the download fails with a transport error exactly when the request is refused or the stream breaks, and that error carries the transport's reason |
| Fetch.FetchSucceedsIff | extract_mrpack.py:96-139 | a download succeeds exactly when the response is not refused, its stream completes, and the digests of the received bytes match |
| Fetch.WriteChunks | extract_mrpack.py:108-116 | the destination holds the concatenation of the chunks, and each requested hash has been fed exactly those bytes |
| Fetch.FetchedFiles | extract_mrpack.py:96-127 | the files after one download differ from the files before at most at the destination |
| Fetch.DownloadFile | extract_mrpack.py:83-139 | the parent directory is created; the result is the outcome function of the response; the files become `FetchedFiles` of the old files; a refused or broken transfer removes `dest` unless the removal fails, in which case `dest` keeps what it had (refused) or what was received (broken); a completed one leaves the received bytes in `dest` and reports the verification result, including on a mismatch |
| Manifest.Truthy | extract_mrpack.py:176 | an object manifest is falsy exactly when it has no key at all; one with a `files` key is truthy; an undecodable one is never truthy |
| Manifest.HasPackName | extract_mrpack.py:160 | a usable pack name needs an object manifest, hence a truthy one, whose `name` holds a non-empty string |
| Manifest.DownloadListEmpty | extract_mrpack.py:220-223 | the normalised download list is empty exactly when the field is missing, null, an empty string or an empty list |
| Manifest.KeepOnServerIff | extract_mrpack.py:189-195 | an entry survives the server filter exactly when its `env.server` is missing or one of `required`, `optional`, `unknown` |
| Manifest.SizeHint | extract_mrpack.py:229 | a size of 0 becomes no hint; any other size is passed on |
| Scheduler.FilterForServer | extract_mrpack.py:186-196 | the kept list is the selection function of the entries and the flag |
| Scheduler.SelectedIsSubsequence | extract_mrpack.py:186-196 | the filter keeps a subsequence of the file list, in order |
| Scheduler.SelectedWithoutFlag | extract_mrpack.py:188 | without `--server-files-only`, every entry is kept |
| Scheduler.SelectedWithFlag | extract_mrpack.py:188-196 | with the flag, an entry is kept exactly when it is in the list and passes the server test |
| Scheduler.Schedule | extract_mrpack.py:215-234 | the tasks are the plan for the entries, and the scheduled count is the number of tasks |
| Scheduler.PlannedPositions | extract_mrpack.py:230 | positions are 0, 1, 2, … in scheduling order, with no gaps for skipped entries |
| Scheduler.PlannedFromEntries | extract_mrpack.py:215-233 | each task comes from a dispatchable entry whose 1-based index it carries: first URL, destination the output directory joined with the entry's path, hashes only with `--verify-hashes`, size hint; indices strictly increase |
| Scheduler.TaskForFields | extract_mrpack.py:226-229 | the fields of a task built from one entry |
| Scheduler.AbsolutePathEscapes | extract_mrpack.py:227 | an absolute manifest path replaces the output directory |
| Scheduler.ScheduledPlusSkipped | extract_mrpack.py:215-225 | the number of tasks is the number of dispatchable entries, and tasks plus skipped entries are all the filtered entries |
| Scheduler.Tally | extract_mrpack.py:237-245 | the success and failure counters equal the number of successful and failed outcomes |
| Scheduler.CountPartition | extract_mrpack.py:237-245 | every outcome is counted exactly once, as a success or as a failure |
| Scheduler.CountIsMultiplicity | extract_mrpack.py:245 | the success count is the multiplicity of success in the outcomes |
| Scheduler.TallyOrderIndependent | extract_mrpack.py:237 | outcomes collected in any completion order give the same tally |
| Pipeline.WithoutSuffix | extract_mrpack.py:164 | the suffix is dropped exactly when the last dot sits after the first character and before the last one; the result is then the name cut at that last dot, and otherwise the name itself |
| Pipeline.WithoutMrpackSuffix | extract_mrpack.py:164 | `stem.mrpack` becomes `stem` |
| Pipeline.WithoutSuffixKeepsDotless | extract_mrpack.py:164 | a name with no dot after its first character is kept whole |
| Pipeline.OutputDir | extract_mrpack.py:158-164 | a given `--outdir` is returned as it is; otherwise the result is the pack file's directory or a single new component beside the pack file |
| Pipeline.OutputDirShape | extract_mrpack.py:160-164 | the folder derived from the pack name or from the pack file name never holds a `/`, so joining it adds at most one component |
| Pipeline.OutputDirDotDot | extract_mrpack.py:160-162 | a pack named `..` is unpacked into `..` joined to the pack file's directory, which is that directory's parent |
| Pipeline.OutputDirGiven | extract_mrpack.py:159 | a given `--outdir` is used as it is |
| Pipeline.OutputDirFromName | extract_mrpack.py:160-162 | a pack name becomes one new component beside the pack file; a name that sanitises to nothing selects the pack file's own directory |
| Pipeline.OutputDirFallback | extract_mrpack.py:163-164 | without a usable name, `dir/stem.mrpack` is unpacked into `dir/stem` |
| Pipeline.RunTasks | extract_mrpack.py:212-245 | each task's outcome is the download outcome for its response; directories grow by the destinations' parents; the files are the old files with every task's download effect applied in submission order |
| Pipeline.DownloadsTouchOnlyDests | extract_mrpack.py:227-232 | no file outside the tasks' destinations changes |
| Pipeline.DownloadLeavesDest | extract_mrpack.py:96-127 | when no later task shares its destination, a task's destination ends up holding the received bytes after a completed stream (or a broken one whose delete failed), and no file after a refused or broken transfer whose delete succeeded |
| Pipeline.DownloadOutcomeOnDisk | extract_mrpack.py:96-139 | when no later task shares its destination: a success and a digest mismatch both leave the received bytes at the destination, and a transport error leaves no file there unless the delete failed |
| Pipeline.ManifestPhase | extract_mrpack.py:176-245 | no or falsy manifest, a non-object, an empty file list or an empty selection stop without touching the disk; otherwise the tally of the planned downloads is returned and the files are the downloads' fold over the old files |
| Pipeline.DownloadPhase | extract_mrpack.py:186-245 | an empty selection stops without touching the disk; otherwise the stop records the scheduled tasks and how many succeeded and failed, and the files are the downloads' fold over the old files |
| Pipeline.ProcessMrpack | extract_mrpack.py:142-255 | a missing pack and a non-zip both raise without touching the disk; the layout is the one the search promises; an undecodable manifest raises before anything is written; otherwise the output directory is created and the overrides are extracted, then the manifest's exits or the tallied downloads follow, each with the files and directories it leaves |
| Pipeline.DownloadTally | extract_mrpack.py:207-245 | successes plus failures equal the scheduled count, and scheduled plus skipped entries equal the filtered entries |

## Left out

- The dependency checks on `requests` and `tqdm` (lines 87-90) and the progress bar itself. Progress display has no effect on files or results. The progress total is computed (`Fetch.ProgressTotal`) but, as in the source, used only for display.
- HTTP. A request is an input `Response`: refused (request or `raise_for_status` raised), or a stream of chunks that completes or breaks. The 30-second timeout is part of "refused or broken".
- SHA-1 and SHA-512 are uninterpreted functions from bytes to hex strings: hashing a stream chunk by chunk equals hashing the whole.
- `zipfile` and `json`: the archive is a list of names with a reader, and the decoder is a function from bytes to a `Document`. A corrupted member is not modelled (the read is total).
- The thread pool, the worker count and `as_completed`. Downloads run one after the other in submission order. `Scheduler.TallyOrderIndependent` shows that the tally does not depend on completion order. Writes by concurrent workers to the same destination are not modelled.
- Timing, the `print` messages, `main`, `argparse` and the exit code.
- Manifest values of the wrong JSON type are not modelled: non-object entries, a non-string path, hash or URL, a non-string `name` converted by `str()`, a non-map `env`. The `Entry` type holds only well-typed values.
- Unicode: characters are classified by ASCII rules only (`isalnum`, `lower`, whitespace). Python's `int()` accepting underscores and non-ASCII digits is not modelled in `Fetch.ParseInt`.
- `pathlib` normalisation: `.` and `..` are kept as components, a doubled `/` is kept (member `overrides/a//b` goes to `dest/a//b`, where pathlib writes `dest/a/b`), and a trailing `/` is kept (member `overrides/sub\` is written at `dest/sub/`, where pathlib writes `dest/sub`). `joinpath` is modelled as a string join in which an absolute path replaces the directory. `Path.parent` of a one-component path is `.`.
- Operating-system errors other than the swallowed delete failure (a directory where a file is expected, permissions, a full disk). The failing delete is an input (`World.cleanupFails`).
- FileSystem.Disk.MakeDirs: records only the named directory, not its missing ancestors.

### Where the model follows the code rather than the written description

- A download whose digest does not match raises, but the file it wrote stays on disk. Only transport errors remove the destination.
- A refused request also removes a destination that existed before the call.
- Entries skipped for a missing path or URL are not counted by the script. `Scheduler.ScheduledPlusSkipped` states the relation instead.
- A manifest path can leave the output directory (`Scheduler.AbsolutePathEscapes`), and so can an overrides member whose remainder is absolute, such as `overrides//etc/x` (`Overrides.AbsoluteRemainderEscapes`).
- A pack named `..` is unpacked into the parent of the pack file's directory (`Pipeline.OutputDirDotDot`).
- A pack name made only of characters that sanitise to spaces selects the pack file's own directory as the output directory.
- A truthy manifest that is not a JSON object raises only after the output directory has been created and the overrides copied.
