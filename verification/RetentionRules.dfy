/** What retention passes may be relied on for. */
module RetentionRules {
  import opened Wrappers
  import opened Librsync
  import opened Store
  import opened Retention

  /** Marks as `do_remove_old_backups` leaves them. */
  ghost predicate IsPass(keep: seq<nat>, vs: seq<Version>, gone: seq<bool>) {
    |gone| == |vs| && forall b :: 0 <= b < |vs| ==> gone[b] == PassDeletes(keep, Listed(vs), b)
  }

  lemma TrindexBounds(vs: seq<Version>, b: nat)
    requires IndexesRise(vs) && |vs| > 1 && b < |vs|
    ensures Listed(vs)[b].trindex == vs[|vs| - 1].index - vs[b].index + 1
    ensures Listed(vs)[b].trindex >= 1
  {
    assert vs[0].index < vs[|vs| - 1].index;
    assert b < |vs| - 1 ==> vs[b].index < vs[|vs| - 1].index;
  }

  /** A pass never deletes what an older survivor leans on, though it works from
      flags that it set before it deleted anything; and never the newest backup. */
  lemma PassIsClosed(keep: seq<nat>, vs: seq<Version>, gone: seq<bool>)
    requires KeepOk(keep) && IndexesRise(vs) && IsPass(keep, vs, gone)
    ensures Closed(vs, gone)
    ensures vs != [] ==> !gone[|vs| - 1]
  {
    forall i | 0 <= i < |vs| - 1 && !gone[i] && gone[i + 1] ensures vs[i].hardlinked {
      assert Listed(vs)[i + 1].deletable;
    }
    if vs != [] {
      RangesTile(keep, Listed(vs)[|vs| - 1].trindex);
      ProductGrows(keep, 0, |keep|);
      if |vs| > 1 { TrindexBounds(vs, |vs| - 1); }
    }
  }

  /** The newest backups, as many as the first keep value, are never deleted. */
  lemma FirstKeepIsSafe(keep: seq<nat>, vs: seq<Version>, gone: seq<bool>, b: nat)
    requires KeepOk(keep) && IsPass(keep, vs, gone) && b < |vs| && Listed(vs)[b].trindex <= keep[0]
    ensures !gone[b]
  {
    RangesTile(keep, Listed(vs)[b].trindex);
    ProductGrows(keep, 1, |keep|);
    assert Product(keep, 1) == Product(keep, 0) * keep[0];
  }

  // ----- Counting in a range -----

  lemma {:induction false} CountBounds(a: seq<Bu>, sp: Span, b: nat)
    requires b <= |a|
    ensures Candidates(a, sp, b) <= Count(a, sp, b)
    ensures Candidates(a, sp, b) == Count(a, sp, b) <==>
              forall c :: b <= c < |a| && sp.Holds(a[c].trindex) ==> a[c].deletable
    ensures Count(a, sp, b) == 0 <==> forall c :: b <= c < |a| ==> !sp.Holds(a[c].trindex)
    ensures Candidates(a, sp, b) == 0 <==> forall c :: b <= c < |a| ==> !Candidate(a, sp, c)
    decreases |a| - b
  {
    if b < |a| { CountBounds(a, sp, b + 1); }
  }

  /** Up to the first backup of the range, everything counts the same. */
  lemma {:induction false} CountFromFirst(a: seq<Bu>, sp: Span, b: nat)
    requires b <= |a| && forall c :: 0 <= c < b ==> !sp.Holds(a[c].trindex)
    ensures Count(a, sp, 0) == Count(a, sp, b)
  {
    if b > 0 { CountFromFirst(a, sp, b - 1); }
  }

  lemma {:induction false} CountDrops(a: seq<Bu>, sp: Span, b: nat, c: nat)
    requires b <= c <= |a|
    ensures Count(a, sp, c) <= Count(a, sp, b)
    ensures Count(a, sp, c) < Count(a, sp, b) ==> exists d :: b <= d < c && sp.Holds(a[d].trindex)
    decreases c - b
  {
    if b < c { CountDrops(a, sp, b + 1, c); }
  }

  /** No range that has a backup is left without one. */
  lemma RangeIsNotEmptied(keep: seq<nat>, vs: seq<Version>, gone: seq<bool>, sp: Span, x: nat, q: nat, b: nat)
    requires KeepOk(keep) && IsPass(keep, vs, gone) && IsRange(keep, x, q, sp)
    requires b < |vs| && sp.Holds(Listed(vs)[b].trindex)
    ensures exists c :: 0 <= c < |vs| && sp.Holds(Listed(vs)[c].trindex) && !gone[c]
  {
    var a := Listed(vs);
    forall c | 0 <= c < |a| && sp.Holds(a[c].trindex) ensures gone[c] == Doomed(a, sp, c) {
      RangesTile(keep, a[c].trindex);
    }
    hide IsPass, IsRange, Listed, KeepOk, Doomed;
    if forall c :: 0 <= c < |a| && sp.Holds(a[c].trindex) ==> a[c].deletable {
      var first := FirstIn(a, sp, b);
      CountFromFirst(a, sp, first);
      CountBounds(a, sp, first + 1);
      assert !Doomed(a, sp, first);
    } else {
      var c :| 0 <= c < |a| && sp.Holds(a[c].trindex) && !a[c].deletable;
      assert !Doomed(a, sp, c);
    }
  }

  /** The oldest backup of the range that `b` is in. */
  lemma {:induction false} FirstIn(a: seq<Bu>, sp: Span, b: nat) returns (first: nat)
    requires b < |a| && sp.Holds(a[b].trindex)
    ensures first <= b && sp.Holds(a[first].trindex)
    ensures forall c :: 0 <= c < first ==> !sp.Holds(a[c].trindex)
  {
    first := b;
    if c :| 0 <= c < b && sp.Holds(a[c].trindex) {
      first := FirstIn(a, sp, c);
    }
  }

  /** Where a pass finds nothing to delete, every range has at most one backup, or
      none that may go, and no backup is past the ranges. */
  ghost predicate FixedPoint(keep: seq<nat>, vs: seq<Version>) {
    && (forall x, q, sp :: IsRange(keep, x, q, sp) ==>
          Count(Listed(vs), sp, 0) <= 1 || Candidates(Listed(vs), sp, 0) == 0)
    && (forall b :: 0 <= b < |vs| ==> Listed(vs)[b].trindex <= Product(keep, |keep|))
  }

  lemma NothingDeletedIsFixedPoint(keep: seq<nat>, vs: seq<Version>)
    requires KeepOk(keep) && IndexesRise(vs)
    ensures FixedPoint(keep, vs) <==> forall b :: 0 <= b < |vs| ==> !PassDeletes(keep, Listed(vs), b)
  {
    var a := Listed(vs);
    if forall b :: 0 <= b < |vs| ==> !PassDeletes(keep, a, b) {
      forall x, q, sp | IsRange(keep, x, q, sp) ensures Count(a, sp, 0) <= 1 || Candidates(a, sp, 0) == 0 {
        if Candidates(a, sp, 0) > 0 {
          var b := LastCandidate(a, sp, 0);
          RangesTile(keep, a[b].trindex);
          assert !PassDeletes(keep, a, b);
        }
      }
      forall b | 0 <= b < |vs| ensures a[b].trindex <= Product(keep, |keep|) {
        assert !PassDeletes(keep, a, 0);
        if |vs| > 1 { TrindexBounds(vs, 0); TrindexBounds(vs, b); }
      }
    } else {
      var b :| 0 <= b < |vs| && PassDeletes(keep, a, b);
      RangesTile(keep, a[b].trindex);
      if SpanOf(keep, a[b].trindex).Some? {
        var x, q :| IsRange(keep, x, q, SpanOf(keep, a[b].trindex).value);
        CountBounds(a, SpanOf(keep, a[b].trindex).value, 0);
      }
    }
  }

  lemma {:induction false} LastCandidate(a: seq<Bu>, sp: Span, b: nat) returns (c: nat)
    requires b <= |a| && Candidates(a, sp, b) > 0
    ensures b <= c < |a| && Candidate(a, sp, c) && Candidates(a, sp, c + 1) == 0
    decreases |a| - b
  {
    if Candidates(a, sp, b + 1) > 0 { c := LastCandidate(a, sp, b + 1); } else { c := b; }
  }

  // ----- Pass after pass -----

  lemma {:induction false} SurvivorsMembers(vs: seq<Version>, gone: seq<bool>)
    requires |vs| == |gone| && IndexesRise(vs)
    ensures |Survivors(vs, gone)| <= |vs|
    ensures (exists b :: 0 <= b < |vs| && gone[b]) ==> |Survivors(vs, gone)| < |vs|
    ensures forall b :: 0 <= b < |vs| ==> (vs[b] in Survivors(vs, gone) <==> !gone[b])
  {
    if vs != [] {
      var s := Survivors(vs[1..], gone[1..]);
      SurvivorsMembers(vs[1..], gone[1..]);
      SurvivorsContents(vs[1..], gone[1..]);
      assert vs[0] !in vs[1..];
      forall b | 0 <= b < |vs| ensures vs[b] in Survivors(vs, gone) <==> !gone[b] {
        if b > 0 { assert vs[b] == vs[1..][b - 1] && gone[b] == gone[1..][b - 1]; }
      }
      if b :| 0 <= b < |vs| && gone[b] {
        assert b > 0 ==> gone[1..][b - 1];
      }
    }
  }

  /** The age of a backup, as `trindex`, among those of `vs`. */
  function AgeIn(vs: seq<Version>, v: Version): nat { Transposed(vs, v.index) }

  /** `v` is within the first keep value, or the oldest backup of its range. */
  ghost predicate Spared(keep: seq<nat>, vs: seq<Version>, v: Version)
    requires KeepOk(keep)
  {
    || AgeIn(vs, v) <= keep[0]
    || (SpanOf(keep, AgeIn(vs, v)).Some? &&
        forall u :: u in vs && SpanOf(keep, AgeIn(vs, v)).value.Holds(AgeIn(vs, u)) ==> v.index <= u.index)
  }

  predicate OlderHardlinked(vs: seq<Version>) {
    forall i :: 0 <= i < |vs| - 1 ==> vs[i].hardlinked
  }

  /** A later state of the same store: some of `vs`, the newest among them. */
  ghost predicate Remains(vs: seq<Version>, cur: seq<Version>) {
    && IndexesRise(cur)
    && (forall v :: v in cur ==> v in vs)
    && (vs != [] ==> cur != [] && cur[|cur| - 1] == vs[|vs| - 1])
  }

  /** Ages do not change from pass to pass, while there are two backups. */
  lemma AgesAreStable(vs: seq<Version>, cur: seq<Version>, v: Version)
    requires IndexesRise(vs) && Remains(vs, cur) && v in cur && |cur| > 1
    ensures AgeIn(cur, v) == AgeIn(vs, v)
    ensures |vs| > 1
  {
    assert cur[0] in vs && cur[1] in vs && cur[0].index < cur[1].index;
  }

  /** With all older backups hardlinked a pass never takes one that is spared. */
  lemma PassSpares(keep: seq<nat>, vs: seq<Version>, cur: seq<Version>, b: nat)
    requires KeepOk(keep) && IndexesRise(vs) && Remains(vs, cur) && OlderHardlinked(cur)
    requires b < |cur| && PassDeletes(keep, Listed(cur), b)
    ensures !Spared(keep, vs, cur[b])
  {
    var a := Listed(cur);
    var t := a[b].trindex;
    RangesTile(keep, t);
    assert Product(keep, 1) == Product(keep, 0) * keep[0];
    ProductGrows(keep, 1, |keep|);
    assert |cur| > 1;
    AgesAreStable(vs, cur, cur[b]);
    if SpanOf(keep, t).Some? {
      var sp := SpanOf(keep, t).value;
      CountBounds(a, sp, b + 1);
      CountDrops(a, sp, 0, b);
      var d :| 0 <= d < b && sp.Holds(a[d].trindex);
      AgesAreStable(vs, cur, cur[d]);
      assert cur[d] in vs && cur[d].index < cur[b].index;
    }
  }

  /** At a fixed point, every backup is spared if all the spared ones are there. */
  lemma FixedPointSpared(keep: seq<nat>, vs: seq<Version>, cur: seq<Version>, b: nat)
    requires KeepOk(keep) && IndexesRise(vs) && Remains(vs, cur) && OlderHardlinked(cur)
    requires FixedPoint(keep, cur) && b < |cur|
    requires forall v :: v in vs && Spared(keep, vs, v) ==> v in cur
    ensures Spared(keep, vs, cur[b])
  {
    if |cur| == 1 {
      assert cur[b] in vs && cur[b] == vs[|vs| - 1];
    } else {
      var t := AgeIn(vs, cur[b]);
      AgesAreStable(vs, cur, cur[b]);
      assert Listed(cur)[b].trindex == t;
      RangesTile(keep, t);
      if t > keep[0] {
        var sp := SpanOf(keep, t).value;
        var x, q :| IsRange(keep, x, q, sp);
        forall w | w in vs && sp.Holds(AgeIn(vs, w)) ensures SpanOf(keep, AgeIn(vs, w)) == Some(sp) {
          RangesTile(keep, AgeIn(vs, w));
        }
        var u := OldestIn(keep, vs, cur[b], sp);
        LoneInRange(keep, vs, cur, sp, x, q, b, u);
      }
    }
  }

  lemma LoneInRange(keep: seq<nat>, vs: seq<Version>, cur: seq<Version>, sp: Span, x: nat, q: nat, b: nat, u: Version)
    requires KeepOk(keep) && IndexesRise(vs) && Remains(vs, cur) && OlderHardlinked(cur) && |cur| > 1
    requires FixedPoint(keep, cur) && IsRange(keep, x, q, sp) && b < |cur| && u in cur
    requires sp.Holds(AgeIn(vs, cur[b])) && sp.Holds(AgeIn(vs, u))
    ensures u == cur[b]
  {
    var c :| 0 <= c < |cur| && cur[c] == u;
    AgesAreStable(vs, cur, u);
    AgesAreStable(vs, cur, cur[b]);
    CountBounds(Listed(cur), sp, 0);
    OnlyOne(Listed(cur), sp, b, c);
  }

  lemma {:induction false} OldestIn(keep: seq<nat>, vs: seq<Version>, v: Version, sp: Span) returns (u: Version)
    requires KeepOk(keep) && v in vs && SpanOf(keep, AgeIn(vs, v)) == Some(sp) && sp.Holds(AgeIn(vs, v))
    requires forall w :: w in vs && sp.Holds(AgeIn(vs, w)) ==> SpanOf(keep, AgeIn(vs, w)) == Some(sp)
    ensures u in vs && sp.Holds(AgeIn(vs, u)) && Spared(keep, vs, u)
    decreases v.index
  {
    u := v;
    if w :| w in vs && sp.Holds(AgeIn(vs, w)) && w.index < v.index {
      u := OldestIn(keep, vs, w, sp);
    }
  }

  lemma OnlyOne(a: seq<Bu>, sp: Span, b: nat, c: nat)
    requires b < |a| && c < |a| && sp.Holds(a[b].trindex) && sp.Holds(a[c].trindex) && Count(a, sp, 0) <= 1
    ensures b == c
  {
    var lo, hi := if b < c then b else c, if b < c then c else b;
    CountBounds(a, sp, hi);
    CountDrops(a, sp, 0, lo);
    if lo < hi { CountDrops(a, sp, lo + 1, hi); }
  }

  /** `remove_old_backups`: passes until one deletes nothing, each a step of the
      store. Whatever survives is untouched and restores as before; nothing more
      could be deleted. With all older backups hardlinked, what survives is exactly
      what is spared. */
  method RemoveOldBackups(ghost lib: Codec, vs: seq<Version>, keep: seq<nat>)
    returns (cur: seq<Version>, ghost evs: seq<Event>, ghost t: seq<seq<Version>>)
    requires KeepOk(keep) && StoreOk(lib, vs)
    ensures StoreOk(lib, cur) && Remains(vs, cur) && FixedPoint(keep, cur)
    ensures Passes(lib, vs, cur, evs, t)
    ensures OlderHardlinked(vs) ==> forall v :: v in vs ==> (v in cur <==> Spared(keep, vs, v))
  {
    hide StoreOk, KeepOk, Remains, Passes, SparedStay, FixedPoint, PassDeletes, Listed, Survivors, IndexesRise;
    hide OlderHardlinked, Spared;
    cur, evs, t := vs, [], [vs];
    GoodIsOrdered(lib, vs);
    AtFirst(lib, keep, vs);
    while true
      invariant StoreOk(lib, cur) && Remains(vs, cur) && Passes(lib, vs, cur, evs, t) && SparedStay(keep, vs, cur)
      decreases |cur|
    {
      assert IndexesRise(cur) by { GoodIsOrdered(lib, cur); }
      var gone, deleted := DoRemoveOldBackups(cur, keep);
      NothingDeletedIsFixedPoint(keep, cur);
      if deleted == 0 { break; }
      AfterPass(lib, keep, vs, cur, gone[..], evs, t);
      evs, t := evs + [Pass(gone[..])], t + [Survivors(cur, gone[..])];
      cur := Survivors(cur, gone[..]);
    }
    SparedAtLast(lib, keep, vs, cur);
  }

  /** With all older backups hardlinked nothing that is spared goes. */
  ghost predicate SparedStay(keep: seq<nat>, vs: seq<Version>, cur: seq<Version>)
    requires KeepOk(keep) && IndexesRise(vs)
  {
    OlderHardlinked(vs) ==> OlderHardlinked(cur) && forall v :: v in vs && Spared(keep, vs, v) ==> v in cur
  }

  lemma GoodIsOrdered(lib: Codec, vs: seq<Version>)
    requires StoreOk(lib, vs)
    ensures IndexesRise(vs)
  {
  }

  lemma AtFirst(lib: Codec, keep: seq<nat>, vs: seq<Version>)
    requires KeepOk(keep) && StoreOk(lib, vs)
    ensures Remains(vs, vs) && Passes(lib, vs, vs, [], [vs]) && SparedStay(keep, vs, vs)
  {
    hide Spared;
  }

  lemma SparedAtLast(lib: Codec, keep: seq<nat>, vs: seq<Version>, cur: seq<Version>)
    requires KeepOk(keep) && StoreOk(lib, vs) && Remains(vs, cur) && FixedPoint(keep, cur) && SparedStay(keep, vs, cur)
    ensures OlderHardlinked(vs) ==> forall v :: v in vs ==> (v in cur <==> Spared(keep, vs, v))
  {
    hide Spared, FixedPoint, Remains, KeepOk;
    if OlderHardlinked(vs) {
      forall v | v in cur ensures Spared(keep, vs, v) {
        var b :| 0 <= b < |cur| && cur[b] == v;
        FixedPointSpared(keep, vs, cur, b);
      }
    }
  }

  /** Retention passes lead from `vs` to `cur`. */
  ghost predicate Passes(lib: Codec, vs: seq<Version>, cur: seq<Version>, evs: seq<Event>, t: seq<seq<Version>>) {
    && Steps(lib, evs, t) && |t| == |evs| + 1 && t[0] == vs && t[|evs|] == cur
    && forall ev :: ev in evs ==> ev.Pass?
  }

  lemma OnePass(lib: Codec, keep: seq<nat>, vs: seq<Version>, cur: seq<Version>, gone: seq<bool>,
                evs: seq<Event>, t: seq<seq<Version>>)
    requires KeepOk(keep) && IndexesRise(cur) && IsPass(keep, cur, gone) && Passes(lib, vs, cur, evs, t)
    ensures Passes(lib, vs, Survivors(cur, gone), evs + [Pass(gone)], t + [Survivors(cur, gone)])
  {
    PassIsClosed(keep, cur, gone);
    StepsGoOn(lib, evs, t, [Pass(gone)], [cur, Survivors(cur, gone)]);
    assert [cur, Survivors(cur, gone)][1..] == [Survivors(cur, gone)];
  }

  lemma AfterPass(lib: Codec, keep: seq<nat>, vs: seq<Version>, cur: seq<Version>, gone: seq<bool>,
                  evs: seq<Event>, t: seq<seq<Version>>)
    requires KeepOk(keep) && StoreOk(lib, cur) && IndexesRise(vs) && Remains(vs, cur)
    requires |gone| == |cur| && forall b :: 0 <= b < |cur| ==> gone[b] == PassDeletes(keep, Listed(cur), b)
    requires exists b :: 0 <= b < |cur| && PassDeletes(keep, Listed(cur), b)
    requires Passes(lib, vs, cur, evs, t) && SparedStay(keep, vs, cur)
    ensures var s := Survivors(cur, gone);
            && StoreOk(lib, s) && Remains(vs, s) && |s| < |cur| && SparedStay(keep, vs, s)
            && Passes(lib, vs, s, evs + [Pass(gone)], t + [s])
  {
    assert IsPass(keep, cur, gone);
    assert exists b :: 0 <= b < |cur| && gone[b];
    hide PassDeletes, Listed, Spared, KeepOk, IsPass;
    if OlderHardlinked(vs) { HardlinkedPass(keep, vs, cur, gone); }
    OnePass(lib, keep, vs, cur, gone, evs, t);
    StillGood(lib, keep, vs, cur, gone);
  }

  lemma StillGood(lib: Codec, keep: seq<nat>, vs: seq<Version>, cur: seq<Version>, gone: seq<bool>)
    requires KeepOk(keep) && StoreOk(lib, cur) && Remains(vs, cur) && IsPass(keep, cur, gone)
    requires exists b :: 0 <= b < |cur| && gone[b]
    ensures StoreOk(lib, Survivors(cur, gone)) && Remains(vs, Survivors(cur, gone))
    ensures |Survivors(cur, gone)| < |cur|
  {
    PassIsClosed(keep, cur, gone);
    PassKeepsVersions(lib, cur, gone);
    SurvivorsOrdered(cur, gone);
    SurvivorsContents(cur, gone);
    SurvivorsMembers(cur, gone);
  }

  lemma OlderStayHardlinked(cur: seq<Version>, s: seq<Version>)
    requires IndexesRise(cur) && IndexesRise(s) && OlderHardlinked(cur) && forall v :: v in s ==> v in cur
    ensures OlderHardlinked(s)
  {
    forall i | 0 <= i < |s| - 1 ensures s[i].hardlinked {
      var last := s[|s| - 1];
      assert s[i] in cur && last in cur && s[i].index < last.index;
      var k :| 0 <= k < |cur| && cur[k] == s[i];
      var n :| 0 <= n < |cur| && cur[n] == last;
      assert k < n;
    }
  }

  lemma HardlinkedPass(keep: seq<nat>, vs: seq<Version>, cur: seq<Version>, gone: seq<bool>)
    requires KeepOk(keep) && IndexesRise(vs) && Remains(vs, cur) && OlderHardlinked(cur) && IsPass(keep, cur, gone)
    ensures OlderHardlinked(Survivors(cur, gone))
    ensures forall v :: v in cur && Spared(keep, vs, v) ==> v in Survivors(cur, gone)
  {
    var s := Survivors(cur, gone);
    PassIsClosed(keep, cur, gone);
    hide Survivors, IsPass, Spared, Remains, KeepOk, Closed;
    SurvivorsOrdered(cur, gone);
    SurvivorsContents(cur, gone);
    SurvivorsMembers(cur, gone);
    OlderStayHardlinked(cur, s);
    forall v | v in cur && Spared(keep, vs, v) ensures v in s {
      var b :| 0 <= b < |cur| && cur[b] == v;
      if gone[b] { PassSpares(keep, vs, cur, b); }
    }
  }

  // ----- How many can be left -----

  /** The first keep value, and one for each range. */
  function Slots(keep: seq<nat>, x: nat): nat
    requires KeepOk(keep) && 1 <= x <= |keep|
  {
    if x == 1 then keep[0] else Slots(keep, x - 1) + (keep[x - 1] - 1)
  }

  lemma {:induction false} CountSplits(a: seq<Bu>, lo: nat, mid: nat, hi: nat, b: nat)
    requires lo <= mid <= hi && b <= |a|
    ensures Count(a, Span(lo, hi), b) == Count(a, Span(lo, mid), b) + Count(a, Span(mid, hi), b)
    decreases |a| - b
  {
    if b < |a| { CountSplits(a, lo, mid, hi, b + 1); }
  }

  lemma {:induction false} CountAll(a: seq<Bu>, hi: nat, b: nat)
    requires b <= |a| && forall c :: b <= c < |a| ==> 0 < a[c].trindex <= hi
    ensures Count(a, Span(0, hi), b) == |a| - b
    decreases |a| - b
  {
    if b < |a| { CountAll(a, hi, b + 1); }
  }

  /** Every age is had by one backup at most. */
  lemma {:induction false} CountOneAge(vs: seq<Version>, t: nat, b: nat)
    requires IndexesRise(vs) && |vs| > 1 && b <= |vs| && t > 0
    ensures Count(Listed(vs), Span(t - 1, t), b) <= 1
    decreases |vs| - b
  {
    if b < |vs| {
      CountOneAge(vs, t, b + 1);
      CountBounds(Listed(vs), Span(t - 1, t), b + 1);
      TrindexBounds(vs, b);
      forall c | b < c < |vs| ensures Listed(vs)[c].trindex < Listed(vs)[b].trindex { TrindexBounds(vs, c); }
    }
  }

  lemma {:induction false} CountFirstKeep(vs: seq<Version>, t: nat)
    requires IndexesRise(vs) && |vs| > 1
    ensures Count(Listed(vs), Span(0, t), 0) <= t
  {
    if t == 0 {
      CountBounds(Listed(vs), Span(0, 0), 0);
    } else {
      CountFirstKeep(vs, t - 1);
      CountOneAge(vs, t, 0);
      CountSplits(Listed(vs), 0, t - 1, t, 0);
    }
  }

  lemma {:induction false} CountLevel(keep: seq<nat>, vs: seq<Version>, x: nat, q: nat)
    requires KeepOk(keep) && x + 1 < |keep| && 1 <= q <= keep[x + 1]
    requires forall y, r, sp :: IsRange(keep, y, r, sp) ==> Count(Listed(vs), sp, 0) <= 1
    ensures Count(Listed(vs), Span(0, Product(keep, x + 1) * q), 0) <=
            Count(Listed(vs), Span(0, Product(keep, x + 1)), 0) + q - 1
  {
    var n := Product(keep, x + 1);
    assert n * 1 == n;
    if q > 1 {
      CountLevel(keep, vs, x, q - 1);
      MulMono(n, q - 1, q);
      assert IsRange(keep, x, q, Span(n * (q - 1), n * q));
      CountSplits(Listed(vs), 0, n * (q - 1), n * q, 0);
    }
  }

  lemma {:induction false} CountLevels(keep: seq<nat>, vs: seq<Version>, x: nat)
    requires KeepOk(keep) && IndexesRise(vs) && |vs| > 1 && 1 <= x <= |keep|
    requires forall y, r, sp :: IsRange(keep, y, r, sp) ==> Count(Listed(vs), sp, 0) <= 1
    ensures Count(Listed(vs), Span(0, Product(keep, x)), 0) <= Slots(keep, x)
  {
    assert Product(keep, 1) == Product(keep, 0) * keep[0] == keep[0];
    if x == 1 {
      CountFirstKeep(vs, keep[0]);
    } else {
      CountLevels(keep, vs, x - 1);
      CountLevel(keep, vs, x - 2, keep[x - 1]);
      assert Product(keep, x) == Product(keep, x - 1) * keep[x - 1];
    }
  }

  /** At a fixed point with all older backups hardlinked there are at most as many
      backups as the first keep value and one less than each other one. */
  lemma FixedPointIsSmall(keep: seq<nat>, vs: seq<Version>)
    requires KeepOk(keep) && IndexesRise(vs) && OlderHardlinked(vs) && FixedPoint(keep, vs)
    ensures |vs| <= Slots(keep, |keep|)
  {
    var a := Listed(vs);
    if |vs| > 1 {
      forall y, r, sp | IsRange(keep, y, r, sp) ensures Count(a, sp, 0) <= 1 {
        CountBounds(a, sp, 0);
      }
      CountLevels(keep, vs, |keep|);
      forall c | 0 <= c < |a| ensures 0 < a[c].trindex { TrindexBounds(vs, c); }
      CountAll(a, Product(keep, |keep|), 0);
    } else {
      SlotsPositive(keep, |keep|);
    }
  }

  lemma {:induction false} SlotsPositive(keep: seq<nat>, x: nat)
    requires KeepOk(keep) && 1 <= x <= |keep|
    ensures Slots(keep, x) >= 1
  {
    if x > 1 { SlotsPositive(keep, x - 1); }
  }
}
