/** The path order every manifest is sorted by, and the containment test of
    directories (src/conf.c). A C string is a `string`; a null pointer is `None`. */
module Wrappers {
  datatype Option<+T> = None | Some(value: T)
}

module PathOrder {
  import opened Wrappers

  /** Where a character stands in the order: '/' before everything, then the
      bytes from 0x80 up (negative as a C `char`), then ASCII. */
  function Rank(c: char): int {
    if c == '/' then -0x11_0000
    else if c as int < 0x80 then c as int
    else c as int - 0x11_0000
  }

  /** Length of the longest common prefix. */
  function Lcp(a: string, b: string): (n: nat)
    ensures n <= |a| && n <= |b|
    ensures forall i :: 0 <= i < n ==> a[i] == b[i]
    ensures n < |a| && n < |b| ==> a[n] != b[n]
  {
    if |a| == 0 || |b| == 0 || a[0] != b[0] then 0
    else
      var n := Lcp(a[1..], b[1..]);
      assert forall i :: 0 < i < n + 1 ==> a[i] == a[1..][i - 1] && b[i] == b[1..][i - 1];
      n + 1
  }

  /** The order itself, decided by the first difference. */
  function PathCmp(a: string, b: string): int {
    var n := Lcp(a, b);
    if n == |a| && n == |b| then 0
    else if n == |a| then -1
    else if n == |b| then 1
    else if Rank(a[n]) < Rank(b[n]) then -1 else 1
  }

  lemma LcpUnique(a: string, b: string, n: nat)
    requires n <= |a| && n <= |b| && forall i :: 0 <= i < n ==> a[i] == b[i]
    requires n < |a| && n < |b| ==> a[n] != b[n]
    ensures Lcp(a, b) == n
  {
    assert Lcp(a, b) >= n && n >= Lcp(a, b);
  }

  /** `pathcmp`: the character loop, null pointers included. */
  method Pathcmp(a: Option<string>, b: Option<string>) returns (r: int)
    ensures r == CmpOpt(a, b)
  {
    if a.None? && b.None? { return 0; }
    if a.Some? && b.None? { return 1; }
    if a.None? && b.Some? { return -1; }
    var x, y := a.value, b.value;
    var i := 0;
    while i < |x| && i < |y|
      invariant 0 <= i <= |x| && i <= |y|
      invariant forall k :: 0 <= k < i ==> x[k] == y[k]
    {
      if x[i] != y[i] {
        LcpUnique(x, y, i);
        if x[i] == '/' && y[i] != '/' { return -1; }
        if x[i] != '/' && y[i] == '/' { return 1; }
        if SignedLess(x[i], y[i]) { return -1; }
        if SignedLess(y[i], x[i]) { return 1; }
      }
      i := i + 1;
    }
    LcpUnique(x, y, i);
    if i == |x| && i == |y| { return 0; }
    if i < |x| && i == |y| { return 1; }
    return -1;
  }

  /** C's `<` on two `char` values, where bytes from 0x80 up are negative. */
  predicate SignedLess(c: char, d: char) {
    if (c as int < 0x80) == (d as int < 0x80) then c < d else d as int < 0x80
  }

  function CmpOpt(a: Option<string>, b: Option<string>): int {
    match (a, b)
    case (None, None) => 0
    case (Some(_), None) => 1
    case (None, Some(_)) => -1
    case (Some(x), Some(y)) => PathCmp(x, y)
  }

  // ----- The order is total -----

  lemma PathCmpAntisymmetric(a: string, b: string)
    ensures PathCmp(a, b) == -PathCmp(b, a)
    ensures PathCmp(a, b) == 0 <==> a == b
  {
    LcpUnique(b, a, Lcp(a, b));
    if a == b { LcpUnique(a, b, |a|); }
    if PathCmp(a, b) == 0 { assert a == b; }
  }

  lemma PathCmpTransitive(a: string, b: string, c: string)
    requires PathCmp(a, b) < 0 && PathCmp(b, c) < 0
    ensures PathCmp(a, c) < 0
  {
    var m, n := Lcp(a, b), Lcp(b, c);
    var k := if m < n then m else n;
    LcpUnique(a, c, k);
  }

  // ----- Directories -----

  /** `sub` is `dir` itself or lies under it: `dir` is a prefix of `sub` that
      ends at a component boundary. */
  predicate Within(dir: string, sub: string) {
    dir <= sub &&
    (|sub| == |dir| || sub[|dir|] == '/' || (|dir| > 0 && dir[|dir| - 1] == '/'))
  }

  function Slashes(s: string): nat {
    if s == "" then 0 else Slashes(s[..|s| - 1]) + (if s[|s| - 1] == '/' then 1 else 0)
  }

  /** `is_subdir`: non-zero exactly for `Within`, and then one more than the
      slashes matched, plus one unless `dir` itself ended in the slash. */
  method IsSubdir(dir: Option<string>, sub: Option<string>) returns (count: int)
    ensures (count != 0) == (dir.Some? && sub.Some? && Within(dir.value, sub.value))
    ensures count != 0 ==>
              count == Slashes(dir.value) +
                       if dir.value == sub.value || sub.value[|dir.value|] == '/' then 2 else 1
  {
    if sub.None? || dir.None? { return 0; }
    var d, s := dir.value, sub.value;
    count := 1;
    var i, last := 0, 0;  // last: index of the last match, 0 before any
    while i < |s| && i < |d|
      invariant 0 <= i <= |s| && i <= |d|
      invariant d[..i] == s[..i]
      invariant last == if i == 0 then 0 else i - 1
      invariant count == 1 + Slashes(d[..i])
    {
      if s[i] != d[i] { break; }
      last := i;
      assert d[..i + 1][..i] == d[..i];
      if s[i] == '/' { count := count + 1; }
      i := i + 1;
    }
    if i == |d| { assert d[..i] == d; }
    if i == |d| && i == |s| { assert s[..i] == s; return count + 1; }
    if i == |d| && i < |s| && s[i] == '/' { return count + 1; }
    if last < |d| && d[last] == '/' && last < |s| && s[last] == '/' && last + 1 < |s| && last + 1 == |d| {
      return count;
    }
    return 0;
  }

  lemma WithinTransitive(a: string, b: string, c: string)
    requires Within(a, b) && Within(b, c)
    ensures Within(a, c)
  {
  }

  /** A directory sorts before everything under it. */
  lemma WithinIsAfter(d: string, p: string)
    requires Within(d, p)
    ensures PathCmp(d, p) <= 0
  {
    LcpUnique(d, p, |d|);
  }

  /** What lies under a directory is contiguous in the path order; this is
      what '/' being the least character buys. */
  lemma DescendantsContiguous(d: string, a: string, b: string)
    requires PathCmp(d, a) <= 0 && PathCmp(a, b) <= 0
    requires Within(d, b)
    ensures Within(d, a)
  {
    PathCmpAntisymmetric(a, b);
    PathCmpAntisymmetric(d, a);
    var m, n := Lcp(d, a), Lcp(a, b);
    assert forall i :: 0 <= i < |d| ==> d[i] == b[i];
    assert m == |d|;
    assert d <= a;
  }
}
