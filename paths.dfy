/**
 * Pure path arithmetic in the manner of Python's `pathlib.PurePath`.
 *
 * A path is the sequence of its components, read from the filesystem root,
 * so `[]` is the root and `["home", "notes.txt"]` is `/home/notes.txt`.
 */
module PurePaths {

  type Path = seq<string>

  /** `PurePath.name`: the last component, or "" for the root. */
  function Name(p: Path): string {
    if |p| == 0 then "" else p[|p| - 1]
  }

  /** `PurePath.parent`; the root is its own parent. */
  function Parent(p: Path): Path {
    if |p| == 0 then [] else p[..|p| - 1]
  }

  /** `PurePath.with_name(n)`, defined for every path that has a name. */
  function WithName(p: Path, n: string): (r: Path)
    requires |p| > 0
    ensures |r| == |p| && Parent(r) == Parent(p) && Name(r) == n
  {
    p[..|p| - 1] + [n]
  }

  /** `a` is `p` itself or one of its ancestors. */
  predicate IsPrefix(a: Path, p: Path) {
    |a| <= |p| && p[..|a|] == a
  }

  /** `p` lies somewhere below `a` (and is not `a` itself). */
  predicate StrictlyBelow(a: Path, p: Path) {
    |a| < |p| && p[..|a|] == a
  }

  /** `str.rfind('.')`: the index of the last dot, or -1 when there is none. */
  function LastDot(s: string): (i: int)
    ensures -1 <= i < |s|
    ensures i >= 0 ==> s[i] == '.'
    ensures forall k :: i < k < |s| ==> s[k] != '.'
  {
    if |s| == 0 then -1
    else if s[|s| - 1] == '.' then |s| - 1
    else LastDot(s[..|s| - 1])
  }

  /** A dot with no dot after it is the one `LastDot` finds. */
  lemma LastDotIsLast(s: string, i: int)
    requires 0 <= i < |s| && s[i] == '.'
    requires forall k :: i < k < |s| ==> s[k] != '.'
    ensures LastDot(s) == i
  {
  }

  /**
   * `PurePath.suffix` of a name: from the last dot to the end, provided that
   * dot is neither the first nor the last character; otherwise "".
   */
  function Suffix(name: string): (r: string)
    ensures r != "" ==> |r| >= 2 && |r| < |name| && r == name[|name| - |r|..]
                        && r[0] == '.' && forall k :: 0 < k < |r| ==> r[k] != '.'
    ensures r == "" ==> |name| == 0 || name[|name| - 1] == '.'
                        || forall k :: 0 < k < |name| ==> name[k] != '.'
  {
    var i := LastDot(name);
    if 0 < i < |name| - 1 then name[i..] else ""
  }

  /** `PurePath.stem` of a name: what is left of it once the suffix is cut off. */
  function Stem(name: string): (r: string)
    ensures r + Suffix(name) == name
  {
    var i := LastDot(name);
    if 0 < i < |name| - 1 then name[..i] else name
  }

  /** The number a string of decimal digits denotes, most significant digit first. */
  function DigitsValue(s: string): nat
    requires forall k :: 0 <= k < |s| ==> '0' <= s[k] <= '9'
  {
    if |s| == 0 then 0
    else DigitsValue(s[..|s| - 1]) * 10 + (s[|s| - 1] - '0') as nat
  }

  /** `str(n)` for a natural number: its decimal digits, most significant first. */
  function DecimalString(n: nat): (s: string)
    ensures |s| >= 1
    ensures forall k :: 0 <= k < |s| ==> '0' <= s[k] <= '9'
    ensures s[0] == '0' ==> n == 0
    ensures DigitsValue(s) == n
  {
    var digit := ['0' + (n % 10) as char];
    if n < 10 then digit
    else
      var high := DecimalString(n / 10);
      assert (high + digit)[..|high|] == high;
      high + digit
  }
}
