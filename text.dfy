/**
  The string operations the script relies on (`str.isalnum`, `str.isspace`,
  `str.lower`, `str.replace`, `str.split('/')[-1]`, `str.strip`) and the few
  `pathlib` operations it uses (`parent`, `joinpath`), all on ASCII.
  Paths are plain strings with `/` as the separator.
*/
module Text {

  predicate IsAsciiAlnum(c: char) {
    'a' <= c <= 'z' || 'A' <= c <= 'Z' || '0' <= c <= '9'
  }

  predicate IsDigit(c: char) {
    '0' <= c <= '9'
  }

  /** The ASCII characters Python's `str.isspace` accepts: space, `\t` to `\r`, and `\x1c` to `\x1f`. */
  predicate IsSpace(c: char) {
    c == ' ' || 9 <= c as int <= 13 || 28 <= c as int <= 31
  }

  function LowerChar(c: char): char {
    if 'A' <= c <= 'Z' then (c as int + 32) as char else c
  }

  /** `s.lower()` */
  function Lower(s: string): string {
    if s == [] then [] else Lower(s[..|s| - 1]) + [LowerChar(s[|s| - 1])]
  }

  /** `s.replace('\\', '/')` */
  function ToSlash(s: string): (r: string)
    ensures |r| == |s|
  {
    if s == [] then [] else ToSlash(s[..|s| - 1]) + [if s[|s| - 1] == '\\' then '/' else s[|s| - 1]]
  }

  /** `s.startswith(prefix)` */
  predicate StartsWith(s: string, prefix: string) {
    |prefix| <= |s| && s[..|prefix|] == prefix
  }

  /** The index of the last `c` in `s`, or -1 when there is none. */
  function LastIndex(s: string, c: char): (k: int)
    ensures -1 <= k < |s|
    ensures k >= 0 ==> s[k] == c
    ensures forall j :: k < j < |s| ==> s[j] != c
  {
    if s == [] then -1
    else if s[|s| - 1] == c then |s| - 1
    else LastIndex(s[..|s| - 1], c)
  }

  /** `s.split('/')[-1]`: what follows the last `/`. */
  function LastComponent(s: string): string {
    s[LastIndex(s, '/') + 1..]
  }

  /** `Path(p).parent`: everything before the last `/`, or `.` when there is none. */
  function Parent(p: string): string {
    var k := LastIndex(p, '/');
    if k >= 0 then p[..k] else "."
  }

  /** A relative `name` placed below `dir`; joining the empty name gives `dir` back. */
  function Join(dir: string, name: string): string {
    if name == "" then dir else dir + "/" + name
  }

  /** `Path(dir).joinpath(path)`: an absolute `path` replaces `dir`, a relative one is placed below it. */
  function JoinPath(dir: string, path: string): (r: string)
    ensures path != [] && path[0] == '/' ==> r == path
    ensures !(path != [] && path[0] == '/') ==> StartsWith(r, dir) && (path != [] ==> |r| > |dir| && r[|dir|] == '/')
  {
    if path != "" && path[0] == '/' then path else Join(dir, path)
  }

  /** A name without `/` joined to a directory is the last component of the result, and the directory its parent. */
  lemma JoinParent(dir: string, name: string)
    requires name != "" && '/' !in name
    ensures LastComponent(Join(dir, name)) == name
    ensures Parent(Join(dir, name)) == dir
  {
    var whole := dir + "/" + name;
    var k := LastIndex(whole, '/');
    assert whole[|dir|] == '/';
    assert forall j :: |dir| < j < |whole| ==> whole[j] == name[j - |dir| - 1];
    assert k == |dir|;
  }

  /** The number of whitespace characters at the start of `s`. */
  function Leading(s: string): (k: nat)
    ensures k <= |s|
    ensures forall j :: 0 <= j < k ==> IsSpace(s[j])
    ensures k < |s| ==> !IsSpace(s[k])
  {
    if s != [] && IsSpace(s[0]) then 1 + Leading(s[1..]) else 0
  }

  /** The length of `s` without its trailing whitespace. */
  function Trailing(s: string): (e: nat)
    ensures e <= |s|
    ensures forall j :: e <= j < |s| ==> IsSpace(s[j])
    ensures e > 0 ==> !IsSpace(s[e - 1])
  {
    if s != [] && IsSpace(s[|s| - 1]) then Trailing(s[..|s| - 1]) else |s|
  }

  /** `r` is `s[i..i + |r|]` and everything of `s` outside that slice is whitespace. */
  predicate TrimmedAt(s: string, r: string, i: int) {
    && 0 <= i <= |s| - |r| && s[i..i + |r|] == r
    && (forall k :: 0 <= k < i ==> IsSpace(s[k]))
    && (forall k :: i + |r| <= k < |s| ==> IsSpace(s[k]))
  }

  /** `s.strip()`: the slice of `s` after its leading whitespace, with only whitespace after it. */
  function Strip(s: string): (r: string)
    ensures TrimmedAt(s, r, Leading(s))
    ensures r != [] ==> !IsSpace(r[0]) && !IsSpace(r[|r| - 1])
  {
    var i, e := Leading(s), Trailing(s);
    if i == |s| then [] else s[i..e]
  }

  /** A string with no whitespace at either end is left alone by `strip`. */
  lemma StripTrimmed(s: string)
    requires s != [] ==> !IsSpace(s[0]) && !IsSpace(s[|s| - 1])
    ensures Strip(s) == s
  {
  }
}
