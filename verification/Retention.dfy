/** Which backups a retention pass deletes: `get_current_backups`,
    `do_remove_old_backups` and `remove_old_backups` (src/current_backups_server.c),
    and the `keep` values they work from (src/conf.c). */
module Retention {
  import opened Wrappers
  import opened Store

  /** The fields of `struct bu` that retention looks at. */
  datatype Bu = Bu(index: nat, hardlinked: bool, deletable: bool, trindex: nat)

  // ----- The ranges -----

  predicate KeepOk(keep: seq<nat>) { |keep| > 0 && forall x :: 0 <= x < |keep| ==> keep[x] >= 1 }

  /** The product of the first `x` keep values. */
  function Product(keep: seq<nat>, x: nat): nat
    requires x <= |keep|
  {
    if x == 0 then 1 else Product(keep, x - 1) * keep[x - 1]
  }

  /** The trindexes from `lo`, exclusive, to `hi`. */
  datatype Span = Span(lo: nat, hi: nat) {
    predicate Holds(t: nat) { lo < t <= hi }
  }

  /** One of the ranges in which a single backup is to be left. */
  predicate IsRange(keep: seq<nat>, x: nat, q: nat, sp: Span) {
    && x + 1 < |keep| && 2 <= q <= keep[x + 1]
    && sp == Span(Product(keep, x + 1) * (q - 1), Product(keep, x + 1) * q)
  }

  /** The range that `t` falls in, looked for from the `x`th keep value on. */
  function SpanFrom(keep: seq<nat>, x: nat, t: nat): Option<Span>
    decreases |keep| - x
  {
    if x + 1 >= |keep| then None
    else
      var n := Product(keep, x + 1);
      if n < t <= n * keep[x + 1] then SpanDown(n, keep[x + 1], t) else SpanFrom(keep, x + 1, t)
  }

  function SpanDown(n: nat, q: nat, t: nat): Option<Span> {
    if q < 2 then None
    else if n * (q - 1) < t <= n * q then Some(Span(n * (q - 1), n * q))
    else SpanDown(n, q - 1, t)
  }

  function SpanOf(keep: seq<nat>, t: nat): Option<Span> { SpanFrom(keep, 0, t) }

  lemma MulMono(n: nat, a: nat, b: nat)
    requires a <= b
    ensures n * a <= n * b
  {
    if a < b { MulMono(n, a, b - 1); assert n * b == n * (b - 1) + n; }
  }

  lemma {:induction false} ProductGrows(keep: seq<nat>, x: nat, y: nat)
    requires KeepOk(keep) && x <= y <= |keep|
    ensures 1 <= Product(keep, x) <= Product(keep, y)
  {
    if y > 0 {
      if x < y { ProductGrows(keep, x, y - 1); } else { ProductGrows(keep, x - 1, y - 1); }
      MulMono(Product(keep, y - 1), 1, keep[y - 1]);
    }
  }

  lemma {:induction false} SpanDownExact(n: nat, k: nat, t: nat, q: nat)
    requires 2 <= q <= k && n * (q - 1) < t <= n * q
    ensures SpanDown(n, k, t) == Some(Span(n * (q - 1), n * q))
  {
    if k > q {
      MulMono(n, q, k - 1);
      SpanDownExact(n, k - 1, t, q);
    }
  }

  lemma {:induction false} SpanDownFinds(n: nat, k: nat, t: nat) returns (q: nat)
    requires n < t <= n * k
    ensures 2 <= q <= k && n * (q - 1) < t <= n * q
  {
    if n * (k - 1) < t {
      q := k;
      if k < 2 { MulMono(n, k, 1); }
    } else {
      q := SpanDownFinds(n, k - 1, t);
    }
  }

  lemma {:induction false} SpanFromExact(keep: seq<nat>, x: nat, y: nat, q: nat, sp: Span, t: nat)
    requires KeepOk(keep) && x <= y && IsRange(keep, y, q, sp) && sp.Holds(t)
    ensures SpanFrom(keep, x, t) == Some(sp)
    decreases y - x
  {
    var n := Product(keep, y + 1);
    MulMono(n, 1, q - 1);
    MulMono(n, q, keep[y + 1]);
    if x == y {
      SpanDownExact(n, keep[y + 1], t, q);
    } else {
      ProductGrows(keep, x + 2, y + 1);
      SpanFromExact(keep, x + 1, y, q, sp, t);
    }
  }

  lemma {:induction false} SpanFromFinds(keep: seq<nat>, x: nat, t: nat)
    requires KeepOk(keep) && x < |keep| && Product(keep, x + 1) < t <= Product(keep, |keep|)
    ensures SpanFrom(keep, x, t).Some?
    decreases |keep| - x
  {
    if x + 1 < |keep| {
      var n := Product(keep, x + 1);
      if t <= n * keep[x + 1] {
        var q := SpanDownFinds(n, keep[x + 1], t);
        SpanDownExact(n, keep[x + 1], t, q);
      } else {
        SpanFromFinds(keep, x + 1, t);
      }
    }
  }

  /** The ranges of all keep values together are disjoint and tile what lies above
      the first keep value, up to the product of all: each such trindex is in
      exactly one of them, the one `SpanOf` gives. */
  lemma RangesTile(keep: seq<nat>, t: nat)
    requires KeepOk(keep)
    ensures SpanOf(keep, t).Some? <==> keep[0] < t <= Product(keep, |keep|)
    ensures forall x, q, sp :: IsRange(keep, x, q, sp) && sp.Holds(t) ==> SpanOf(keep, t) == Some(sp)
    ensures SpanOf(keep, t).Some? ==>
              SpanOf(keep, t).value.Holds(t) && exists x, q :: IsRange(keep, x, q, SpanOf(keep, t).value)
  {
    assert Product(keep, 1) == Product(keep, 0) * keep[0] == keep[0];
    if keep[0] < t <= Product(keep, |keep|) { SpanFromFinds(keep, 0, t); }
    if SpanOf(keep, t).Some? {
      var x, q := SpanFromIsRange(keep, 0, t);
      ProductGrows(keep, 1, x + 1);
      MulMono(Product(keep, x + 1), 1, q - 1);
      MulMono(Product(keep, x + 1), q, keep[x + 1]);
      ProductGrows(keep, x + 2, |keep|);
    }
    forall x, q, sp | IsRange(keep, x, q, sp) && sp.Holds(t) ensures SpanOf(keep, t) == Some(sp) {
      SpanFromExact(keep, 0, x, q, sp, t);
    }
  }

  lemma {:induction false} SpanFromIsRange(keep: seq<nat>, x: nat, t: nat) returns (y: nat, q: nat)
    requires SpanFrom(keep, x, t).Some?
    ensures y >= x && IsRange(keep, y, q, SpanFrom(keep, x, t).value) && SpanFrom(keep, x, t).value.Holds(t)
    decreases |keep| - x
  {
    var n := Product(keep, x + 1);
    if n < t <= n * keep[x + 1] {
      y := x;
      q := SpanDownIs(n, keep[x + 1], t);
    } else {
      y, q := SpanFromIsRange(keep, x + 1, t);
    }
  }

  lemma {:induction false} SpanDownIs(n: nat, k: nat, t: nat) returns (q: nat)
    requires SpanDown(n, k, t).Some?
    ensures 2 <= q <= k && SpanDown(n, k, t).value == Span(n * (q - 1), n * q)
    ensures n * (q - 1) < t <= n * q
  {
    if n * (k - 1) < t <= n * k { q := k; } else { q := SpanDownIs(n, k - 1, t); }
  }

  // ----- What one pass deletes -----

  /** How many of the backups from position `b` on are in the range. */
  function Count(a: seq<Bu>, sp: Span, b: nat): nat
    requires b <= |a|
    decreases |a| - b
  {
    if b == |a| then 0 else (if sp.Holds(a[b].trindex) then 1 else 0) + Count(a, sp, b + 1)
  }

  predicate Candidate(a: seq<Bu>, sp: Span, b: nat)
    requires b < |a|
  {
    sp.Holds(a[b].trindex) && a[b].deletable
  }

  /** How many of those may be deleted. */
  function Candidates(a: seq<Bu>, sp: Span, b: nat): nat
    requires b <= |a|
    decreases |a| - b
  {
    if b == |a| then 0 else (if Candidate(a, sp, b) then 1 else 0) + Candidates(a, sp, b + 1)
  }

  /** A deletable backup of the range goes if, going from the newest on, there are
      still two or more in the range when its turn comes. */
  predicate Doomed(a: seq<Bu>, sp: Span, b: nat)
    requires b < |a|
  {
    Candidate(a, sp, b) && Candidates(a, sp, b + 1) + 1 < Count(a, sp, 0)
  }

  predicate PassDeletes(keep: seq<nat>, a: seq<Bu>, b: nat)
    requires b < |a|
  {
    var sp := SpanOf(keep, a[b].trindex);
    (sp.Some? && Doomed(a, sp.value, b)) || (b == 0 && a[b].trindex > Product(keep, |keep|))
  }

  /** `get_current_backups`, from the backups in the order of their index. */
  function Listed(vs: seq<Version>): (a: seq<Bu>)
    ensures |a| == |vs|
  {
    seq(|vs|, j requires 0 <= j < |vs| =>
      Bu(vs[j].index, vs[j].hardlinked, Deletable(vs, j), Transposed(vs, vs[j].index)))
  }

  predicate Deletable(vs: seq<Version>, j: nat) {
    1 < |vs| && j < |vs| && (j == 0 || vs[j - 1].hardlinked)
  }

  function Transposed(vs: seq<Version>, index: nat): nat {
    if |vs| > 1 && 0 < TopIndex(vs) && index <= TopIndex(vs) then TopIndex(vs) - index + 1 else 0
  }

  method GetCurrentBackups(vs: seq<Version>) returns (arr: array<Bu>)
    requires IndexesRise(vs)
    ensures fresh(arr) && arr[..] == Listed(vs)
  {
    arr := new Bu[|vs|](j requires 0 <= j < |vs| => Bu(vs[j].index, vs[j].hardlinked, false, 0));
    MarkDeletable(arr, vs);
    if |vs| > 1 { Transpose(arr, vs, vs[|vs| - 1].index); }
    assert arr[..] == Listed(vs);
  }

  /** The oldest backup is deletable, and those that come after hardlinked ones. */
  method MarkDeletable(arr: array<Bu>, ghost vs: seq<Version>)
    requires arr.Length == |vs|
    requires forall k :: 0 <= k < |vs| ==> arr[k] == Bu(vs[k].index, vs[k].hardlinked, false, 0)
    modifies arr
    ensures forall k :: 0 <= k < |vs| ==> arr[k] == Bu(vs[k].index, vs[k].hardlinked, Deletable(vs, k), 0)
  {
    hide Deletable;
    var i := arr.Length;
    if i > 1 {
      DeletableAt(vs, 0);
      arr[0] := arr[0].(deletable := true);
    }
    var j := 0;
    if i == 1 { DeletableAt(vs, 0); }
    while j < i - 1
      invariant 0 <= j <= i && (i > 0 ==> j <= i - 1)
      invariant forall k :: 0 <= k < i ==> arr[k] == Bu(vs[k].index, vs[k].hardlinked, k <= j && Deletable(vs, k), 0)
    {
      DeletableAt(vs, j + 1);
      if arr[j].hardlinked { arr[j + 1] := arr[j + 1].(deletable := true); }
      j := j + 1;
    }
  }

  lemma DeletableAt(vs: seq<Version>, j: nat)
    requires j < |vs|
    ensures Deletable(vs, j) <==> 1 < |vs| && (j == 0 || vs[j - 1].hardlinked)
  {
  }

  lemma TransposedAt(vs: seq<Version>, j: nat)
    requires IndexesRise(vs) && 1 < |vs| && j < |vs|
    ensures vs[j].index <= TopIndex(vs)
    ensures Transposed(vs, vs[j].index) == if TopIndex(vs) > 0 then TopIndex(vs) - vs[j].index + 1 else 0
  {
  }

  /** Number the backups from the newest, which gets 1. */
  method Transpose(arr: array<Bu>, ghost vs: seq<Version>, tr: nat)
    requires arr.Length == |vs| && |vs| > 1 && IndexesRise(vs) && tr == TopIndex(vs)
    requires forall k :: 0 <= k < |vs| ==> arr[k] == Bu(vs[k].index, vs[k].hardlinked, Deletable(vs, k), 0)
    modifies arr
    ensures forall k :: 0 <= k < |vs| ==>
              arr[k] == Bu(vs[k].index, vs[k].hardlinked, Deletable(vs, k), Transposed(vs, vs[k].index))
  {
    hide Deletable, Transposed, IndexesRise, TopIndex;
    forall k | 0 <= k < |vs| ensures tr == 0 ==> Transposed(vs, vs[k].index) == 0 { TransposedAt(vs, k); }
    if tr > 0 {
      for j := 0 to arr.Length
        invariant forall k :: 0 <= k < |vs| ==>
                    arr[k] == Bu(vs[k].index, vs[k].hardlinked, Deletable(vs, k),
                                 if k < j then Transposed(vs, vs[k].index) else 0)
      {
        TransposedAt(vs, j);
        arr[j] := arr[j].(trindex := tr - arr[j].index + 1);
      }
    }
  }

  /** The count loop. */
  method CountRange(arr: array<Bu>, sp: Span) returns (count: nat)
    ensures count == Count(arr[..], sp, 0)
  {
    count := 0;
    var b := 0;
    while b < arr.Length
      invariant 0 <= b <= arr.Length
      invariant count + Count(arr[..], sp, b) == Count(arr[..], sp, 0)
    {
      if sp.Holds(arr[b].trindex) { count := count + 1; }
      b := b + 1;
    }
  }

  /** The loop over one range: delete from the newest on, leaving one. No backup
      is renamed away that was renamed away before. */
  method ThinRange(arr: array<Bu>, gone: array<bool>, sp: Span) returns (deleted: nat)
    requires gone.Length == arr.Length && gone as object != arr as object
    requires forall b :: 0 <= b < arr.Length && sp.Holds(arr[b].trindex) ==> !gone[b]
    modifies gone
    ensures forall b :: 0 <= b < arr.Length ==> gone[b] == (old(gone[b]) || Doomed(arr[..], sp, b))
    ensures deleted == 0 <==> gone[..] == old(gone[..])
  {
    deleted := 0;
    var count := CountRange(arr, sp);
    if count <= 1 { return; }
    var b := arr.Length - 1;
    while b >= 0
      invariant -1 <= b < arr.Length
      invariant count == Count(arr[..], sp, 0) - Candidates(arr[..], sp, b + 1) && count > 1
      invariant forall k :: 0 <= k <= b ==> gone[k] == old(gone[k])
      invariant forall k :: b < k < arr.Length ==> gone[k] == (old(gone[k]) || Doomed(arr[..], sp, k))
      invariant deleted == 0 <==> gone[..] == old(gone[..])
      invariant forall k :: 0 <= k < arr.Length && old(gone[k]) ==> gone[k]
    {
      if sp.Holds(arr[b].trindex) && arr[b].deletable {
        assert !gone[b] && !old(gone[..])[b];
        gone[b] := true;
        assert gone[..][b];
        deleted := deleted + 1;
        count := count - 1;
        if count <= 1 {
          forall k | 0 <= k < b ensures !Doomed(arr[..], sp, k) {
            CandidatesShrink(arr[..], sp, k + 1, b);
          }
          break;
        }
      }
      b := b - 1;
    }
  }

  lemma {:induction false} CandidatesShrink(a: seq<Bu>, sp: Span, b: nat, c: nat)
    requires b <= c <= |a|
    ensures Candidates(a, sp, c) <= Candidates(a, sp, b)
    decreases c - b
  {
    if b < c { CandidatesShrink(a, sp, b + 1, c); }
  }

  /** The part of the trindexes that the outer loops have dealt with: everything
      above the first keep value up to `n`, and from `r` up to `upto`. */
  predicate Dealt(k0: nat, n: nat, r: nat, upto: nat, t: nat) { k0 < t <= n || r < t <= upto }

  ghost predicate GoneSoFar(keep: seq<nat>, a: seq<Bu>, gone: seq<bool>, n: nat, r: nat, upto: nat)
    requires KeepOk(keep) && |gone| == |a|
  {
    forall b :: 0 <= b < |a| ==>
      (gone[b] <==> Dealt(keep[0], n, r, upto, a[b].trindex) &&
                    SpanOf(keep, a[b].trindex).Some? && Doomed(a, SpanOf(keep, a[b].trindex).value, b))
  }

  lemma DealtSame(keep: seq<nat>, a: seq<Bu>, gone: seq<bool>, n: nat, r: nat, u: nat, n': nat, r': nat, u': nat)
    requires KeepOk(keep) && |gone| == |a| && GoneSoFar(keep, a, gone, n, r, u)
    requires forall t: nat :: Dealt(keep[0], n, r, u, t) == Dealt(keep[0], n', r', u', t)
    ensures GoneSoFar(keep, a, gone, n', r', u')
  {
    forall b | 0 <= b < |a| ensures Dealt(keep[0], n, r, u, a[b].trindex) == Dealt(keep[0], n', r', u', a[b].trindex) {}
  }

  /** Thinning the next range down deals with exactly the trindexes in it. */
  lemma RangeStep(keep: seq<nat>, a: seq<Bu>, gone: seq<bool>, gone': seq<bool>, x: nat, q: nat, sp: Span)
    requires KeepOk(keep) && |gone| == |a| == |gone'| && IsRange(keep, x, q, sp)
    requires GoneSoFar(keep, a, gone, Product(keep, x + 1), sp.hi, Product(keep, x + 2))
    requires forall b :: 0 <= b < |a| ==> gone'[b] == (gone[b] || Doomed(a, sp, b))
    ensures GoneSoFar(keep, a, gone', Product(keep, x + 1), sp.lo, Product(keep, x + 2))
  {
    var n := Product(keep, x + 1);
    ProductGrows(keep, 1, x + 1);
    MulMono(n, 1, q - 1);
    MulMono(n, q, keep[x + 1]);
    assert Product(keep, 1) == Product(keep, 0) * keep[0] == keep[0];
    forall b | 0 <= b < |a| && sp.Holds(a[b].trindex) ensures SpanOf(keep, a[b].trindex) == Some(sp) {
      RangesTile(keep, a[b].trindex);
    }
  }

  /** The ranges of one pair of keep values, from the oldest to the newest. */
  method ThinLevel(arr: array<Bu>, gone: array<bool>, keep: seq<nat>, ghost x: nat, n: nat, upto: nat)
    returns (deleted: nat)
    requires KeepOk(keep) && x + 1 < |keep| && n == Product(keep, x + 1) && upto == n * keep[x + 1]
    requires gone.Length == arr.Length && gone as object != arr as object
    requires GoneSoFar(keep, arr[..], gone[..], n, 0, 0)
    modifies gone
    ensures GoneSoFar(keep, arr[..], gone[..], upto, 0, 0)
    ensures deleted == 0 <==> gone[..] == old(gone[..])
    ensures forall b :: 0 <= b < arr.Length && old(gone[b]) ==> gone[b]
  {
    var r := upto;
    ghost var q := keep[x + 1];
    DealtSame(keep, arr[..], gone[..], n, 0, 0, n, upto, upto);
    deleted := 0;
    while r > n
      invariant 1 <= q <= keep[x + 1] && r == n * q
      invariant GoneSoFar(keep, arr[..], gone[..], n, r, upto)
      invariant deleted == 0 <==> gone[..] == old(gone[..])
      invariant forall b :: 0 <= b < arr.Length && old(gone[..])[b] ==> gone[..][b]
      decreases q
    {
      assert n * 1 == n && q > 1;
      assert n * (q - 1) == r - n;
      MulMono(n, 1, q - 1);
      var sp := Span(r - n, r);
      ghost var before := gone[..];
      var more := ThinRange(arr, gone, sp);
      RangeStep(keep, arr[..], before, gone[..], x, q, sp);
      deleted := deleted + more;
      r, q := r - n, q - 1;
    }
    assert r == n by { MulMono(n, 1, q); }
    ProductGrows(keep, 1, x + 1);
    assert Product(keep, 1) == Product(keep, 0) * keep[0] == keep[0];
    MulMono(n, 1, keep[x + 1]);
    DealtSame(keep, arr[..], gone[..], n, n, upto, upto, 0, 0);
  }

  /** When all levels are done, what is gone is what the pass deletes, but for the
      backup that is past all ranges. */
  lemma LevelsDone(keep: seq<nat>, vs: seq<Version>, gone: seq<bool>)
    requires KeepOk(keep) && |gone| == |vs| && IndexesRise(vs)
    requires GoneSoFar(keep, Listed(vs), gone, Product(keep, |keep|), 0, 0)
    ensures forall b :: 0 <= b < |vs| ==>
              PassDeletes(keep, Listed(vs), b) == (gone[b] || (b == 0 && Listed(vs)[b].trindex > Product(keep, |keep|)))
    ensures forall b :: 0 <= b < |vs| && Listed(vs)[b].trindex > Product(keep, |keep|) ==> !gone[b]
    ensures forall b :: 0 < b < |vs| && Listed(vs)[b].trindex > Product(keep, |keep|) ==>
              Listed(vs)[0].trindex > Product(keep, |keep|)
  {
    forall b | 0 <= b < |vs| {
      RangesTile(keep, Listed(vs)[b].trindex);
    }
  }

  /** The last two loops of a pass: only ever the very oldest backup goes. */
  method RemoveOldest(arr: array<Bu>, gone: array<bool>, m: nat) returns (deleted: nat)
    requires gone.Length == arr.Length && gone as object != arr as object
    requires forall b :: 0 < b < arr.Length && arr[b].trindex > m ==> arr[0].trindex > m
    requires forall b :: 0 <= b < arr.Length && arr[b].trindex > m ==> !gone[b]
    modifies gone
    ensures forall b :: 0 <= b < arr.Length ==> gone[b] == (old(gone[b]) || (b == 0 && arr[b].trindex > m))
    ensures deleted == 0 <==> forall b :: 0 <= b < arr.Length ==> arr[b].trindex <= m
  {
    deleted := 0;
    var b := 0;
    while b < arr.Length
      invariant 0 <= b <= arr.Length
      invariant forall k :: 0 <= k < b ==> arr[k].trindex <= m
    {
      if arr[b].trindex > m { break; }
      b := b + 1;
    }
    assert b == 0 || b == arr.Length;
    while 0 <= b < arr.Length
      invariant b <= 0 || b == arr.Length
      invariant b < 0 ==> deleted == 1 && arr.Length > 0 && arr[0].trindex > m
      invariant b >= 0 ==> deleted == 0 && (b < arr.Length ==> arr[b].trindex > m)
      invariant forall k :: 0 <= k < arr.Length ==> gone[k] == (old(gone[k]) || (k == 0 && b < 0))
      decreases b
    {
      assert !gone[b];
      gone[b] := true;
      deleted := deleted + 1;
      b := b - 1;
    }
  }

  /** `do_remove_old_backups`: thin every range, then take the oldest backup if it
      is past them all. */
  method DoRemoveOldBackups(vs: seq<Version>, keep: seq<nat>) returns (gone: array<bool>, deleted: nat)
    requires KeepOk(keep) && IndexesRise(vs)
    ensures fresh(gone) && gone.Length == |vs|
    ensures forall b :: 0 <= b < |vs| ==> gone[b] == PassDeletes(keep, Listed(vs), b)
    ensures deleted == 0 <==> forall b :: 0 <= b < |vs| ==> !PassDeletes(keep, Listed(vs), b)
  {
    var arr := GetCurrentBackups(vs);
    gone := new bool[arr.Length](_ => false);
    var m;
    deleted, m := ThinAll(arr, gone, keep);
    ghost var thinned := gone[..];
    LevelsDone(keep, vs, thinned);
    assert arr[..] == Listed(vs);
    var more := RemoveOldest(arr, gone, m);
    if deleted != 0 {
      ghost var b :| 0 <= b < |vs| && thinned[b];
    }
    deleted := deleted + more;
  }

  lemma NothingGone(keep: seq<nat>, a: seq<Bu>, gone: seq<bool>)
    requires KeepOk(keep) && |gone| == |a| && forall b :: 0 <= b < |a| ==> !gone[b]
    ensures GoneSoFar(keep, a, gone, Product(keep, 1), 0, 0)
  {
    assert Product(keep, 1) == Product(keep, 0) * keep[0] == keep[0];
  }

  /** The loop over the keep values. */
  method ThinAll(arr: array<Bu>, gone: array<bool>, keep: seq<nat>) returns (deleted: nat, m: nat)
    requires KeepOk(keep)
    requires gone.Length == arr.Length && gone as object != arr as object
    requires forall b :: 0 <= b < gone.Length ==> !gone[b]
    modifies gone
    ensures m == Product(keep, |keep|)
    ensures GoneSoFar(keep, arr[..], gone[..], m, 0, 0)
    ensures deleted == 0 <==> forall b :: 0 <= b < gone.Length ==> !gone[b]
  {
    deleted, m := 0, 1;
    var x := 0;
    NothingGone(keep, arr[..], gone[..]);
    hide GoneSoFar;
    while x < |keep|
      invariant 0 <= x <= |keep| && m == Product(keep, x)
      invariant GoneSoFar(keep, arr[..], gone[..], Product(keep, if x < |keep| then x + 1 else x), 0, 0)
      invariant deleted == 0 <==> forall b :: 0 <= b < gone.Length ==> !gone[b]
    {
      var n := m * keep[x];
      assert n == Product(keep, x + 1);
      if x + 1 < |keep| {
        ghost var before := gone[..];
        var more := ThinLevel(arr, gone, keep, x, n, n * keep[x + 1]);
        if deleted != 0 {
          ghost var b :| 0 <= b < gone.Length && before[b];
          assert gone[b];
        }
        deleted := deleted + more;
      }
      m := n;
      x := x + 1;
    }
  }
}
