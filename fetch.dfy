/**
  Fetching one artifact: stream the response into the destination file while
  feeding the requested digest accumulators, delete the file when the
  transport fails, and compare the digests case-insensitively at the end.
*/
module Fetch {
  import opened Base
  import opened Text
  import opened FileSystem

  /** The size `iter_content` is asked for; the transport may deliver shorter chunks, and empty ones. */
  const ChunkSize: nat := 8192

  /** How the stream of a ready response ends. */
  datatype StreamEnd = Complete | Broken(reason: string)

  /**
    What the transport answers for the URL: either the request fails before any
    body is read (a connection error, or an error status raised by
    `raise_for_status`), or a body arrives as chunks and then ends or breaks.
  */
  datatype Response =
    | Refused(reason: string)
    | Stream(contentLength: Option<string>, chunks: seq<Bytes>, end: StreamEnd)

  /** The hex digest functions, SHA-1 and SHA-512, as functions of the whole byte string fed to them. */
  datatype Digests = Digests(sha1: Bytes -> string, sha512: Bytes -> string)

  datatype FetchError =
    | TransportError(reason: string)
    | Sha1Mismatch(dest: string, expected: string, got: string)
    | Sha512Mismatch(dest: string, expected: string, got: string)

  /** `download_file` either returns `True` or raises. */
  datatype FetchResult = Fetched | FetchFailed(error: FetchError)

  /** Whether an accumulator for `alg` is created: the expected hashes are present, non-empty and name `alg`. */
  predicate Requested(expected: Option<map<string, string>>, alg: string) {
    expected.Some? && alg in expected.value
  }

  /** An accumulator that has been fed `data`, if one was created. */
  function Accumulated(expected: Option<map<string, string>>, alg: string, data: Bytes): Option<Bytes> {
    if Requested(expected, alg) then Some(data) else None
  }

  /** Hex strings are compared after lowering both. */
  predicate HexEqual(a: string, b: string) {
    Lower(a) == Lower(b)
  }

  /** The final check: SHA-1 first, then SHA-512, each only when both expected and accumulated. */
  function Verify(expected: Option<map<string, string>>, h1: Option<Bytes>, h512: Option<Bytes>, digests: Digests, dest: string): (r: FetchResult)
    ensures r.FetchFailed? ==> !r.error.TransportError? && r.error.dest == dest && !HexEqual(r.error.got, r.error.expected)
    ensures r.FetchFailed? && r.error.Sha1Mismatch? ==> h1.Some? && expected.Some? && "sha1" in expected.value && r.error.expected == expected.value["sha1"]
    ensures r.FetchFailed? && r.error.Sha512Mismatch? ==> h512.Some? && expected.Some? && "sha512" in expected.value && r.error.expected == expected.value["sha512"]
    ensures h1.None? && h512.None? ==> r == Fetched
  {
    if expected.None? || expected.value == map[] then Fetched
    else if "sha1" in expected.value && h1.Some? && !HexEqual(digests.sha1(h1.value), expected.value["sha1"]) then
      FetchFailed(Sha1Mismatch(dest, expected.value["sha1"], digests.sha1(h1.value)))
    else if "sha512" in expected.value && h512.Some? && !HexEqual(digests.sha512(h512.value), expected.value["sha512"]) then
      FetchFailed(Sha512Mismatch(dest, expected.value["sha512"], digests.sha512(h512.value)))
    else Fetched
  }

  /** The digest of `data` under one of the two supported algorithms. */
  function Digest(digests: Digests, alg: string, data: Bytes): string {
    if alg == "sha1" then digests.sha1(data) else digests.sha512(data)
  }

  predicate Supported(alg: string) {
    alg == "sha1" || alg == "sha512"
  }

  /**
    With both accumulators fed the file's content, verification succeeds iff
    every supported algorithm named in the expected hashes matches
    case-insensitively; when both mismatch, the SHA-1 error is reported.
  */
  lemma VerifyMeansAllMatch(expected: Option<map<string, string>>, data: Bytes, digests: Digests, dest: string)
    ensures var r := Verify(expected, Accumulated(expected, "sha1", data), Accumulated(expected, "sha512", data), digests, dest);
            && (r == Fetched <==> forall alg :: Supported(alg) && Requested(expected, alg) ==> HexEqual(Digest(digests, alg, data), expected.value[alg]))
            && (Requested(expected, "sha1") && !HexEqual(digests.sha1(data), expected.value["sha1"]) ==>
                  r == FetchFailed(Sha1Mismatch(dest, expected.value["sha1"], digests.sha1(data))))
            && (Requested(expected, "sha512") && !HexEqual(digests.sha512(data), expected.value["sha512"])
                && !(Requested(expected, "sha1") && !HexEqual(digests.sha1(data), expected.value["sha1"])) ==>
                  r == FetchFailed(Sha512Mismatch(dest, expected.value["sha512"], digests.sha512(data))))
  {
    var r := Verify(expected, Accumulated(expected, "sha1", data), Accumulated(expected, "sha512", data), digests, dest);
    if r == Fetched {
      forall alg | Supported(alg) && Requested(expected, alg)
        ensures HexEqual(Digest(digests, alg, data), expected.value[alg])
      {
      }
    } else {
      if Requested(expected, "sha1") && !HexEqual(digests.sha1(data), expected.value["sha1"]) {
        assert Supported("sha1") && !HexEqual(Digest(digests, "sha1", data), expected.value["sha1"]);
      } else {
        assert Supported("sha512") && !HexEqual(Digest(digests, "sha512", data), expected.value["sha512"]);
      }
    }
  }

  /** Absent or empty expected hashes always verify. */
  lemma NoHashesAlwaysVerify(h1: Option<Bytes>, h512: Option<Bytes>, digests: Digests, dest: string)
    ensures Verify(None, h1, h512, digests, dest) == Fetched
    ensures Verify(Some(map[]), h1, h512, digests, dest) == Fetched
  {
  }

  /** Keys other than `sha1` and `sha512` play no part in verification. */
  lemma OtherAlgorithmsIgnored(e: map<string, string>, alg: string, hex: string, data: Bytes, digests: Digests, dest: string)
    requires !Supported(alg) && alg !in e
    ensures var withAlg := Some(e[alg := hex]);
            Verify(withAlg, Accumulated(withAlg, "sha1", data), Accumulated(withAlg, "sha512", data), digests, dest)
            == Verify(Some(e), Accumulated(Some(e), "sha1", data), Accumulated(Some(e), "sha512", data), digests, dest)
  {
    var withAlg := e[alg := hex];
    assert "sha1" in withAlg <==> "sha1" in e;
    assert "sha512" in withAlg <==> "sha512" in e;
    if "sha1" in e { assert withAlg["sha1"] == e["sha1"]; }
    if "sha512" in e { assert withAlg["sha512"] == e["sha512"]; }
  }

  /** Concatenation of the chunks, in order. */
  function Flatten(chunks: seq<Bytes>): Bytes {
    if chunks == [] then [] else Flatten(chunks[..|chunks| - 1]) + chunks[|chunks| - 1]
  }

  /** The chunks the loop does not skip. */
  function NonEmpty(chunks: seq<Bytes>): seq<Bytes> {
    if chunks == [] then []
    else NonEmpty(chunks[..|chunks| - 1]) + if chunks[|chunks| - 1] == [] then [] else [chunks[|chunks| - 1]]
  }

  /** Skipping the empty chunks changes nothing in what is written. */
  lemma {:induction false} FlattenNonEmpty(chunks: seq<Bytes>)
    ensures Flatten(NonEmpty(chunks)) == Flatten(chunks)
    ensures forall k :: 0 <= k < |NonEmpty(chunks)| ==> NonEmpty(chunks)[k] != []
  {
    if chunks != [] {
      var init, last := chunks[..|chunks| - 1], chunks[|chunks| - 1];
      FlattenNonEmpty(init);
      var ne := NonEmpty(init);
      if last != [] {
        assert (ne + [last])[..|ne|] == ne;
      } else {
        assert NonEmpty(chunks) == ne + [] == ne;
        assert Flatten(chunks) == Flatten(init) + [];
      }
    }
  }

  /** One more chunk: an empty one adds nothing, any other is appended. */
  lemma NonEmptyStep(chunks: seq<Bytes>, i: int)
    requires 0 <= i < |chunks|
    ensures chunks[i] == [] ==> Flatten(NonEmpty(chunks[..i + 1])) == Flatten(NonEmpty(chunks[..i]))
    ensures chunks[i] != [] ==> Flatten(NonEmpty(chunks[..i + 1])) == Flatten(NonEmpty(chunks[..i])) + chunks[i]
  {
    assert chunks[..i + 1][..i] == chunks[..i];
    var before := NonEmpty(chunks[..i]);
    if chunks[i] != [] {
      assert NonEmpty(chunks[..i + 1]) == before + [chunks[i]];
      assert (before + [chunks[i]])[..|before|] == before;
    } else {
      assert NonEmpty(chunks[..i + 1]) == before + [] == before;
    }
  }

  /** Python `int(s)` on ASCII text: surrounding whitespace, an optional sign, then decimal digits. */
  function ParseInt(s: string): (r: Option<int>)
    ensures r.Some? ==> var t := Strip(s); t != [] && forall k :: 1 <= k < |t| ==> IsDigit(t[k])
    ensures var t := Strip(s); t != [] && AllDigits(t) ==> r == Some(DigitsValue(t))
  {
    var t := Strip(s);
    if t == [] then None
    else if t[0] == '-' || t[0] == '+' then
      match ParseDigits(t[1..])
      case None => None
      case Some(n) =>
        var v: int := n;
        Some(if t[0] == '-' then -v else v)
    else
      match ParseDigits(t)
      case None => None
      case Some(n) => Some(n)
  }

  predicate AllDigits(s: string) {
    forall k :: 0 <= k < |s| ==> IsDigit(s[k])
  }

  function DigitsValue(s: string): nat
    requires AllDigits(s)
  {
    if s == [] then 0 else DigitsValue(s[..|s| - 1]) * 10 + (s[|s| - 1] as int - '0' as int)
  }

  function ParseDigits(s: string): Option<nat> {
    if s != [] && AllDigits(s) then Some(DigitsValue(s)) else None
  }

  /**
    The progress-bar total: the size hint from the manifest when it is present
    and non-zero, else the `Content-Length` header, and 0 when the header is
    missing or not an integer.
  */
  function ProgressTotal(totalSize: Option<int>, contentLength: Option<string>): int {
    if totalSize.Some? && totalSize.value != 0 then totalSize.value
    else match contentLength
      case None => 0
      case Some(h) => match ParseInt(h) case None => 0 case Some(n) => n
  }

  /** The decimal representation of `n`. */
  function DecimalString(n: nat): (s: string)
    ensures s != [] && AllDigits(s)
  {
    if n < 10 then [('0' as int + n) as char] else DecimalString(n / 10) + [('0' as int + n % 10) as char]
  }

  lemma {:induction false} DecimalValue(n: nat)
    ensures DigitsValue(DecimalString(n)) == n
  {
    if n >= 10 {
      DecimalValue(n / 10);
      var s := DecimalString(n);
      assert s[..|s| - 1] == DecimalString(n / 10);
    }
  }

  /**
    Without a size hint, a `Content-Length` header holding the decimal form of
    `n` yields the total `n`; a non-numeric header yields 0; a non-zero hint
    wins over any header.
  */
  lemma ProgressTotalRule(n: nat, hint: int, header: Option<string>)
    ensures ProgressTotal(None, Some(DecimalString(n))) == n
    ensures ProgressTotal(Some(0), Some(DecimalString(n))) == n
    ensures ProgressTotal(None, Some("")) == 0
    ensures ProgressTotal(None, None) == 0
    ensures hint != 0 ==> ProgressTotal(Some(hint), header) == hint
  {
    var s := DecimalString(n);
    DecimalValue(n);
    assert !IsSpace(s[0]) && !IsSpace(s[|s| - 1]);
    StripTrimmed(s);
    assert Strip("") == "";
  }

  /** What `download_file` reports for a response: the result depends only on the response, never on the disk. */
  function FetchOutcome(dest: string, expected: Option<map<string, string>>, response: Response, digests: Digests): (r: FetchResult)
    ensures r.FetchFailed? && r.error.TransportError? <==> response.Refused? || response.end.Broken?
    ensures response.Refused? ==> r.error.reason == response.reason
    ensures response.Stream? && response.end.Broken? ==> r.error.reason == response.end.reason
  {
    match response
    case Refused(reason) => FetchFailed(TransportError(reason))
    case Stream(_, chunks, end) =>
      if end.Broken? then FetchFailed(TransportError(end.reason))
      else Verify(expected, Accumulated(expected, "sha1", Flatten(chunks)), Accumulated(expected, "sha512", Flatten(chunks)), digests, dest)
  }

  /**
    A download succeeds iff the stream completes and every supported digest
    named in the expected hashes matches the concatenated chunks.
  */
  lemma FetchSucceedsIff(dest: string, expected: Option<map<string, string>>, response: Response, digests: Digests)
    ensures FetchOutcome(dest, expected, response, digests) == Fetched <==>
              && response.Stream? && response.end.Complete?
              && forall alg :: Supported(alg) && Requested(expected, alg) ==>
                   HexEqual(Digest(digests, alg, Flatten(response.chunks)), expected.value[alg])
  {
    if response.Stream? {
      VerifyMeansAllMatch(expected, Flatten(response.chunks), digests, dest);
    }
  }

  /**
    The file map after `download_file` has run on `dest`: a completed stream
    leaves the received bytes, a refused or broken one removes `dest` unless
    the delete fails, in which case `dest` keeps what it had (refused) or what
    was received (broken).
  */
  function FetchedFiles(files: map<string, Bytes>, dest: string, response: Response, cleanupFails: bool): (r: map<string, Bytes>)
    ensures SameOutside(r, files, {dest})
  {
    match response
    case Refused(_) => if cleanupFails then files else files - {dest}
    case Stream(_, chunks, end) =>
      if end.Broken? && !cleanupFails then files - {dest} else files[dest := Flatten(chunks)]
  }

  /**
    `open(dest, 'wb')` and the chunk loop: empty chunks are skipped, every
    other chunk is written and fed to the accumulators that were created.
  */
  method WriteChunks(disk: Disk, dest: string, chunks: seq<Bytes>, expected: Option<map<string, string>>)
    returns (h1: Option<Bytes>, h512: Option<Bytes>)
    requires disk.Valid() && Parent(dest) in disk.dirs
    modifies disk
    ensures disk.Valid() && disk.dirs == old(disk.dirs)
    ensures disk.files == old(disk.files)[dest := Flatten(chunks)]
    ensures h1 == Accumulated(expected, "sha1", Flatten(chunks))
    ensures h512 == Accumulated(expected, "sha512", Flatten(chunks))
  {
    h1 := if Requested(expected, "sha1") then Some([]) else None;
    h512 := if Requested(expected, "sha512") then Some([]) else None;
    disk.WriteFile(dest, []);
    ghost var written: Bytes := [];
    var i := 0;
    while i < |chunks|
      invariant 0 <= i <= |chunks|
      invariant written == Flatten(NonEmpty(chunks[..i]))
      invariant disk.Valid() && disk.dirs == old(disk.dirs)
      invariant disk.files == old(disk.files)[dest := written]
      invariant h1 == Accumulated(expected, "sha1", written)
      invariant h512 == Accumulated(expected, "sha512", written)
    {
      var chunk := chunks[i];
      NonEmptyStep(chunks, i);
      if chunk != [] {
        disk.Append(dest, chunk);
        UpdateTwice(old(disk.files), dest, written, written + chunk);
        written := written + chunk;
        if h1.Some? {
          h1 := Some(h1.value + chunk);
        }
        if h512.Some? {
          h512 := Some(h512.value + chunk);
        }
      }
      i := i + 1;
    }
    assert chunks[..|chunks|] == chunks;
    FlattenNonEmpty(chunks);
  }

  /**
    Downloads one artifact into `dest`. `response` is what the transport
    answers for the URL; `cleanupFails` says whether the best-effort delete
    after a transport error fails (that failure is swallowed). A digest
    mismatch leaves the downloaded file in place.
  */
  method DownloadFile(disk: Disk, dest: string, expected: Option<map<string, string>>, totalSize: Option<int>,
                      response: Response, digests: Digests, cleanupFails: bool)
    returns (r: FetchResult)
    requires disk.Valid()
    modifies disk
    ensures disk.Valid()
    ensures disk.dirs == old(disk.dirs) + {Parent(dest)}
    ensures r == FetchOutcome(dest, expected, response, digests)
    ensures disk.files == FetchedFiles(old(disk.files), dest, response, cleanupFails)
    ensures response.Refused? ==>
              && r == FetchFailed(TransportError(response.reason))
              && disk.files == if cleanupFails then old(disk.files) else old(disk.files) - {dest}
    ensures response.Stream? && response.end.Broken? ==>
              && r == FetchFailed(TransportError(response.end.reason))
              && disk.files == if cleanupFails then old(disk.files)[dest := Flatten(response.chunks)] else old(disk.files) - {dest}
    ensures response.Stream? && response.end.Complete? ==>
              && disk.files == old(disk.files)[dest := Flatten(response.chunks)]
              && r == Verify(expected, Accumulated(expected, "sha1", Flatten(response.chunks)),
                             Accumulated(expected, "sha512", Flatten(response.chunks)), digests, dest)
  {
    disk.MakeDirs(Parent(dest));
    match response
    case Refused(reason) =>
      if !cleanupFails {
        disk.RemoveIfExists(dest);
      }
      return FetchFailed(TransportError(reason));
    case Stream(contentLength, chunks, end) =>
      // the total only sizes the progress bar
      var total := ProgressTotal(totalSize, contentLength);
      var h1, h512 := WriteChunks(disk, dest, chunks, expected);
      if end.Broken? {
        if !cleanupFails {
          disk.RemoveIfExists(dest);
        }
        return FetchFailed(TransportError(end.reason));
      }
      r := Verify(expected, h1, h512, digests, dest);
  }
}
