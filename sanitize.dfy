/**
  The folder-name sanitiser: every character that is not alphanumeric and not
  one of ` ._-()` becomes `_`, then surrounding whitespace is stripped.
*/
module Sanitize {
  import opened Text

  /** The characters the sanitiser keeps as they are. */
  predicate IsKept(c: char) {
    IsAsciiAlnum(c) || c == ' ' || c == '.' || c == '_' || c == '-' || c == '(' || c == ')'
  }

  /** The character-wise replacement, before stripping. */
  function Masked(name: string): string {
    seq(|name|, i requires 0 <= i < |name| => if IsKept(name[i]) then name[i] else '_')
  }

  /** Among the kept characters, the only whitespace is the space itself. */
  lemma KeptSpaceIsBlank(c: char)
    requires IsKept(c) && IsSpace(c)
    ensures c == ' '
  {
  }

  /** Every character of a slice taken from a string of kept characters is kept. */
  lemma SliceKept(s: string, r: string, i: int)
    requires forall k :: 0 <= k < |s| ==> IsKept(s[k])
    requires TrimmedAt(s, r, i)
    ensures forall k :: 0 <= k < |r| ==> IsKept(r[k])
  {
    forall k | 0 <= k < |r| ensures IsKept(r[k]) {
      assert r[k] == s[i + k];
    }
  }

  function SanitizeForFilename(name: string): (r: string)
    ensures forall i :: 0 <= i < |r| ==> IsKept(r[i])
    ensures r != [] ==> r[0] != ' ' && r[|r| - 1] != ' '
    ensures |r| <= |name|
  {
    var m := Masked(name);
    var r := Strip(m);
    SliceKept(m, r, Leading(m));
    r
  }

  /** `r` is the slice of `m` at `i` and every character of `m` outside it is a space. */
  predicate PaddedBySpaces(m: string, r: string, i: int) {
    && 0 <= i <= |m| - |r| && m[i..i + |r|] == r
    && (forall k :: 0 <= k < i ==> m[k] == ' ')
    && (forall k :: i + |r| <= k < |m| ==> m[k] == ' ')
  }

  /**
    Stripping only ever removes spaces: the sanitised name is a slice of the
    masked name and every masked character outside that slice is ' '.
    So tabs, newlines and other whitespace survive as '_' instead of being stripped.
  */
  lemma SanitizeStripsOnlySpaces(name: string)
    ensures exists i :: PaddedBySpaces(Masked(name), SanitizeForFilename(name), i)
  {
    var m, r := Masked(name), SanitizeForFilename(name);
    var i := Leading(m);
    forall k | 0 <= k < |m| && !(i <= k < i + |r|) ensures m[k] == ' ' {
      KeptSpaceIsBlank(m[k]);
    }
    assert PaddedBySpaces(m, r, i);
  }

  /** A name made of kept characters, with no space at either end, is its own sanitised form. */
  lemma SanitizeFixesSafeNames(name: string)
    requires forall i :: 0 <= i < |name| ==> IsKept(name[i])
    requires name != [] ==> name[0] != ' ' && name[|name| - 1] != ' '
    ensures SanitizeForFilename(name) == name
  {
    assert Masked(name) == name;
    if name != [] {
      assert !IsSpace(name[0]) by {
        if IsSpace(name[0]) { KeptSpaceIsBlank(name[0]); }
      }
      assert !IsSpace(name[|name| - 1]) by {
        if IsSpace(name[|name| - 1]) { KeptSpaceIsBlank(name[|name| - 1]); }
      }
    }
    StripTrimmed(name);
  }

  /** Sanitising twice gives the same folder name as sanitising once. */
  lemma SanitizeIdempotent(name: string)
    ensures SanitizeForFilename(SanitizeForFilename(name)) == SanitizeForFilename(name)
  {
    SanitizeFixesSafeNames(SanitizeForFilename(name));
  }

  /** The sanitised name never holds a path separator, so it is a single path component. */
  lemma SanitizedHasNoSeparator(name: string)
    ensures '/' !in SanitizeForFilename(name) && '\\' !in SanitizeForFilename(name)
  {
    var r := SanitizeForFilename(name);
    forall k | 0 <= k < |r| ensures r[k] != '/' && r[k] != '\\' {
      assert IsKept(r[k]);
    }
  }

  /** The sanitiser does not reject the names `.` and `..`, which denote existing directories. */
  lemma SanitizeKeepsDotDot()
    ensures SanitizeForFilename("..") == ".."
    ensures SanitizeForFilename(" . ") == "."
  {
    SanitizeFixesSafeNames("..");
    assert Masked(" . ") == " . ";
    assert Leading(" . ") == 1 && Trailing(" . ") == 2;
  }
}
