/** The numbers that new data is filed under: `struct dpth` (src/dpth.c). */
module Dpth {
  import opened Wrappers
  import opened Framing

  datatype Number = Number(prim: nat, seco: nat, tert: nat)
  {
    /** It prints in four digits each. */
    predicate Short() { prim <= 0xFFFF && seco <= 0xFFFF && tert <= 0xFFFF }
  }

  predicate Less(a: Number, b: Number) {
    a.prim < b.prim || (a.prim == b.prim && (a.seco < b.seco || (a.seco == b.seco && a.tert < b.tert)))
  }

  // ----- The path of a number -----

  function Digits(n: nat): string { Padded(PrintHex(n)) }

  /** `mk_dpth` */
  function Path(d: Number, gz: bool): string {
    Digits(d.prim) + "/" + Digits(d.seco) + "/" + Digits(d.tert) + if gz then ".gz" else ""
  }

  /** A run of up to four hexadecimal digits and what follows it. */
  function ScanPart(s: string): Option<(nat, string)> {
    if ScanHex(s).None? then None
    else
      var k := HexRun(if |s| < 4 then s else s[..4]);
      Some((ScanHex(s).value, s[k..]))
  }

  /** `sscanf` of the three numbers. */
  function ScanNumber(s: string): Option<Number> {
    var p := ScanPart(s);
    if p.None? || p.value.1 == "" || p.value.1[0] != '/' then None
    else
      var q := ScanPart(p.value.1[1..]);
      if q.None? || q.value.1 == "" || q.value.1[0] != '/' then None
      else
        var r := ScanPart(q.value.1[1..]);
        if r.None? then None else Some(Number(p.value.0, q.value.0, r.value.0))
  }

  lemma PartOfDigits(n: nat, rest: string)
    requires n <= 0xFFFF && (rest != "" ==> !IsHexDigit(rest[0]))
    ensures ScanPart(Digits(n) + rest) == Some((n, rest)) && |Digits(n)| == 4
  {
    ScanPrinted(n, rest);
    HexLength(n);
    var d := Digits(n);
    assert (d + rest)[..4] == d && (d + rest)[4..] == rest;
    assert forall i :: 0 <= i < 4 ==> d[i] in d;
    assert HexRun(d) == 4;
  }

  lemma ScanSteps(s: string, s1: string, s2: string, d: Number, end: string)
    requires ScanPart(s) == Some((d.prim, "/" + s1)) && ScanPart(s1) == Some((d.seco, "/" + s2))
    requires ScanPart(s2) == Some((d.tert, end))
    ensures ScanNumber(s) == Some(d)
  {
    hide ScanPart;
    assert ("/" + s1)[1..] == s1 && ("/" + s2)[1..] == s2;
  }

  /** The path says what the number is. */
  lemma PathScans(d: Number, gz: bool)
    requires d.Short()
    ensures ScanNumber(Path(d, gz)) == Some(d) && Path(d, gz) != "" && IsHexDigit(Path(d, gz)[0])
  {
    hide ScanPart, Digits, ScanNumber, IsHexDigit;
    var end := if gz then ".gz" else "";
    var s2 := Digits(d.tert) + end;
    var s1 := Digits(d.seco) + ("/" + s2);
    assert !IsHexDigit('/') && !IsHexDigit('.') by { NoDigits(); }
    PartOfDigits(d.prim, "/" + s1);
    PartOfDigits(d.seco, "/" + s2);
    PartOfDigits(d.tert, end);
    assert Path(d, gz) == Digits(d.prim) + ("/" + s1);
    ScanSteps(Path(d, gz), s1, s2, d, end);
    FirstIsDigit(d.prim);
    assert Path(d, gz)[0] == Digits(d.prim)[0];
  }

  lemma NoDigits()
    ensures !IsHexDigit('/') && !IsHexDigit('.') && !IsHexDigit('t')
  {
  }

  lemma FirstIsDigit(n: nat)
    ensures Digits(n) != "" && IsHexDigit(Digits(n)[0])
  {
    assert Digits(n)[0] in Digits(n);
  }

  // ----- Counting on -----

  /** After the last number it starts again from zero. */
  predicate Wraps(d: Number, max: nat) { d.tert >= 0xFFFF && d.seco >= max && d.prim >= max }

  function Next(d: Number, max: nat): Number {
    if d.tert < 0xFFFF then d.(tert := d.tert + 1)
    else if d.seco < max then Number(d.prim, d.seco + 1, 0)
    else if d.prim < max then Number(d.prim + 1, 0, 0)
    else Number(0, 0, 0)
  }

  lemma NextIsAfter(d: Number, max: nat)
    ensures Less(d, Next(d, max)) <==> !Wraps(d, max)
  {
  }

  /** The `k`-th number after `d`. */
  function Nth(d: Number, max: nat, k: nat): Number {
    if k == 0 then d else Next(Nth(d, max, k - 1), max)
  }

  /** The first `k` steps do not wrap. */
  ghost predicate Rises(d: Number, max: nat, k: nat) {
    forall i :: 0 <= i < k ==> !Wraps(Nth(d, max, i), max)
  }

  lemma {:induction false} NthRises(d: Number, max: nat, i: nat, k: nat)
    requires i <= k && Rises(d, max, k)
    ensures i < k ==> Less(Nth(d, max, i), Nth(d, max, k))
    ensures i == k ==> Nth(d, max, i) == Nth(d, max, k)
    decreases k
  {
    if i < k {
      NthRises(d, max, i, k - 1);
      NextIsAfter(Nth(d, max, k - 1), max);
    }
  }

  predicate InRange(d: Number, max: nat) { d.prim <= max && d.seco <= max && d.tert <= 0xFFFF }

  lemma {:induction false} NthInRange(d: Number, max: nat, k: nat)
    requires InRange(d, max)
    ensures InRange(Nth(d, max, k), max)
  {
    if k > 0 { NthInRange(d, max, k - 1); }
  }

  // ----- Where it starts -----

  /** What is listed in the directory of data, and in one of its subdirectories. */
  function Prims(used: seq<Number>): seq<nat> { seq(|used|, i requires 0 <= i < |used| => used[i].prim) }

  function Secos(used: seq<Number>, p: nat): (s: seq<nat>)
    ensures forall x :: x in s <==> exists u :: u in used && u.prim == p && u.seco == x
  {
    if used == [] then []
    else
      var n := |used| - 1;
      assert used == used[..n] + [used[n]];
      Secos(used[..n], p) + if used[n].prim == p then [used[n].seco] else []
  }

  function Terts(used: seq<Number>, p: nat, q: nat): (s: seq<nat>)
    ensures forall x :: x in s <==> Number(p, q, x) in used
  {
    if used == [] then []
    else
      var n := |used| - 1;
      assert used == used[..n] + [used[n]];
      Terts(used[..n], p, q) + if used[n].prim == p && used[n].seco == q then [used[n].tert] else []
  }

  /** `get_highest_entry` of a directory that can be opened. */
  method GetHighestEntry(entries: seq<nat>) returns (max: nat)
    ensures forall e :: e in entries ==> e <= max
    ensures entries != [] ==> max in entries
  {
    max := 0;
    for i := 0 to |entries|
      invariant forall k :: 0 <= k < i ==> entries[k] <= max
      invariant if i == 0 then max == 0 else max in entries
    {
      if entries[i] > max { max := entries[i]; }
      assert entries[0] in entries;
      if max == 0 { assert entries[i] == 0; }
    }
  }

  ghost predicate IsHighest(used: seq<Number>, d: Number) {
    d in used && forall u :: u in used ==> u == d || Less(u, d)
  }

  /** Only raised if none of the three numbers is above the other's. */
  function Raised(d: Number, p: Number): Number {
    if d.prim > p.prim || d.seco > p.seco || d.tert > p.tert then d else p
  }

  class Counter {
    var prim: nat
    var seco: nat
    var tert: nat
    var looped: nat
    const max: nat        // max_storage_subdirs

    function Now(): Number
      reads this
    {
      Number(prim, seco, tert)
    }

    constructor (max: nat)
      ensures this.max == max && Now() == Number(0, 0, 0) && looped == 0
    {
      this.max := max;
      prim, seco, tert, looped := 0, 0, 0, 0;
    }

    /** `incr_dpth`: it may start again from zero once. */
    method IncrDpth() returns (ok: bool)
      modifies this
      ensures Now() == Next(old(Now()), max)
      ensures looped == old(looped) + if Wraps(old(Now()), max) then 1 else 0
      ensures ok <==> !(Wraps(old(Now()), max) && looped > 1)
    {
      var t := tert;
      tert := tert + 1;
      if t >= 0xFFFF {
        tert := 0;
        var s := seco;
        seco := seco + 1;
        if s >= max {
          seco := 0;
          var p := prim;
          prim := prim + 1;
          if p >= max {
            prim := 0;
            looped := looped + 1;
            if looped > 1 { return false; }
          }
        }
      }
      return true;
    }

    /** `init_dpth`: the number after the highest one in use by the newest backup. */
    method InitDpth(used: seq<Number>) returns (ok: bool)
      modifies this
      ensures ok
      ensures used == [] ==> Now() == Number(0, 0, 0)
      ensures used != [] ==> exists d :: IsHighest(used, d) && Now() == Next(d, max)
    {
      looped, prim, seco, tert := 0, 0, 0, 0;
      if used == [] { return true; }      // no such directory
      assert Prims(used)[0] in Prims(used);
      prim := GetHighestEntry(Prims(used));
      PrimsAll(used);
      var u :| u in used && u.prim == prim;
      assert u.seco in Secos(used, prim);
      seco := GetHighestEntry(Secos(used, prim));
      var v :| v in used && v.prim == prim && v.seco == seco;
      assert v.tert in Terts(used, prim, seco);
      tert := GetHighestEntry(Terts(used, prim, seco));
      HighestOfAll(used, Now());
      ok := IncrDpth();
    }

    /** `set_dpth_from_string` */
    method SetDpthFromString(path: string) returns (ok: bool)
      modifies this
      ensures looped == old(looped)
      ensures if path == "" || path[0] == 't' then ok && Now() == old(Now())
              else ok == ScanNumber(path).Some? &&
                   Now() == if ok then Raised(old(Now()), ScanNumber(path).value) else old(Now())
    {
      if path == "" || path[0] == 't' { return true; }
      var n := ScanNumber(path);
      if n.None? { return false; }
      if prim > n.value.prim || seco > n.value.seco || tert > n.value.tert { return true; }
      prim, seco, tert := n.value.prim, n.value.seco, n.value.tert;
      return true;
    }
  }

  lemma HighestOfAll(used: seq<Number>, d: Number)
    requires d in used && forall p :: p in Prims(used) ==> p <= d.prim
    requires (forall q :: q in Secos(used, d.prim) ==> q <= d.seco) &&
             forall r :: r in Terts(used, d.prim, d.seco) ==> r <= d.tert
    ensures IsHighest(used, d)
  {
    PrimsAll(used);
    forall u | u in used ensures u == d || Less(u, d) {
      assert u.prim in Prims(used);
      assert u.prim == d.prim ==> u.seco in Secos(used, d.prim);
      assert u.prim == d.prim && u.seco == d.seco ==> u.tert in Terts(used, d.prim, d.seco);
    }
  }

  lemma PrimsAll(used: seq<Number>)
    ensures forall u :: u in used ==> u.prim in Prims(used)
    ensures forall p :: p in Prims(used) ==> exists u :: u in used && u.prim == p
  {
    forall u | u in used ensures u.prim in Prims(used) {
      var i :| 0 <= i < |used| && used[i] == u;
      assert Prims(used)[i] == u.prim;
    }
  }

  /** A backup's new numbers are not in use, and each is given out once, as long as
      the counter does not wrap. */
  lemma NewNumbers(used: seq<Number>, d: Number, max: nat, i: nat, k: nat)
    requires IsHighest(used, d) && !Wraps(d, max) && Rises(Next(d, max), max, k) && i <= k
    ensures Nth(Next(d, max), max, i) !in used
    ensures forall j :: 0 <= j < i ==> Nth(Next(d, max), max, j) != Nth(Next(d, max), max, i)
  {
    NextIsAfter(d, max);
    assert Rises(Next(d, max), max, i);
    NthRises(Next(d, max), max, 0, i);
    forall j | 0 <= j < i ensures Nth(Next(d, max), max, j) != Nth(Next(d, max), max, i) {
      NthRises(Next(d, max), max, j, i);
    }
  }

  // ----- Taken up again after an interruption -----

  function RaisedBy(d: Number, ps: seq<Number>): Number {
    if ps == [] then d else Raised(RaisedBy(d, ps[..|ps| - 1]), ps[|ps| - 1])
  }

  /** The numbers given out by a run that started at `d`. */
  function Given(d: Number, max: nat, k: nat): seq<Number> {
    if k == 0 then [] else Given(d, max, k - 1) + [Nth(d, max, k - 1)]
  }

  /** No number was carried since `d`, or the last one is as high as can be in all
      that were. */
  predicate Caught(d: Number, max: nat, last: Number) {
    || (last.prim == d.prim && last.seco == d.seco)
    || (last.tert == 0xFFFF && (last.prim == d.prim || last.seco == max))
  }

  /** Where the comparison number by number gets to. */
  function Behind(d: Number, max: nat, last: Number): Number
    requires Less(d, last) || d == last
  {
    if Caught(d, max, last) then last
    else if last.prim == d.prim then Number(last.prim, last.seco - 1, 0xFFFF)
    else Number(last.prim - 1, max, 0xFFFF)
  }

  lemma BehindStep(d: Number, max: nat, last: Number)
    requires InRange(d, max) && InRange(last, max) && (Less(d, last) || d == last) && !Wraps(last, max)
    ensures InRange(Next(last, max), max) && Less(d, Next(last, max))
    ensures Raised(Behind(d, max, last), Next(last, max)) == Behind(d, max, Next(last, max))
  {
  }

  lemma {:induction false} RaisedIs(d: Number, max: nat, k: nat)
    requires k > 0 && InRange(d, max) && Rises(d, max, k)
    ensures InRange(Nth(d, max, k - 1), max) && (Less(d, Nth(d, max, k - 1)) || k == 1)
    ensures RaisedBy(d, Given(d, max, k)) == Behind(d, max, Nth(d, max, k - 1))
  {
    hide Behind, Less, Wraps, Next, Raised, InRange;
    var g, last := Given(d, max, k), Nth(d, max, k - 1);
    GivenLength(d, max, k - 1);
    GivenLength(d, max, k);
    assert g[..k - 1] == Given(d, max, k - 1) && g[k - 1] == last;
    if k == 1 {
      assert g == [d] && RaisedBy(d, []) == d;
      StartsAsItself(d, max);
    } else {
      RaisedIs(d, max, k - 1);
      BehindStep(d, max, Nth(d, max, k - 2));
    }
  }

  lemma StartsAsItself(d: Number, max: nat)
    ensures Raised(d, d) == d == Behind(d, max, d)
  {
  }

  lemma {:induction false} GivenLength(d: Number, max: nat, k: nat)
    ensures |Given(d, max, k)| == k && forall i :: 0 <= i < k ==> Given(d, max, k)[i] == Nth(d, max, i)
  {
    if k > 0 { GivenLength(d, max, k - 1); }
  }

  /** Numbers below are never taken over. */
  lemma OlderIsIgnored(m: Number, p: Number)
    requires Less(p, m) || p == m
    ensures Raised(m, p) == m
  {
  }

  /** The numbers from `d` on. */
  function Newer(d: Number, ps: seq<Number>): seq<Number> {
    if ps == [] then []
    else Newer(d, ps[..|ps| - 1]) + if Less(ps[|ps| - 1], d) then [] else [ps[|ps| - 1]]
  }

  /** Old data paths among the new ones, as deltas have, make no difference. */
  lemma {:induction false} OldOnesIgnored(d: Number, ps: seq<Number>)
    ensures RaisedBy(d, ps) == RaisedBy(d, Newer(d, ps))
    ensures RaisedBy(d, ps) == d || Less(d, RaisedBy(d, ps))
  {
    if ps != [] {
      var n := |ps| - 1;
      OldOnesIgnored(d, ps[..n]);
      if Less(ps[n], d) {
        OlderIsIgnored(RaisedBy(d, ps[..n]), ps[n]);
        assert Newer(d, ps) == Newer(d, ps[..n]);
      } else {
        RaisedMore(d, Newer(d, ps[..n]), ps[n]);
        assert Newer(d, ps) == Newer(d, ps[..n]) + [ps[n]];
      }
    }
  }

  lemma RaisedMore(d: Number, ps: seq<Number>, p: Number)
    ensures RaisedBy(d, ps + [p]) == Raised(RaisedBy(d, ps), p)
  {
    assert (ps + [p])[..|ps|] == ps;
  }

  predicate Skipped(path: string) { path == "" || path[0] == 't' }

  function Numbers(paths: seq<string>): seq<Number> {
    if paths == [] then []
    else
      var s := paths[|paths| - 1];
      Numbers(paths[..|paths| - 1]) +
      if Skipped(s) || ScanNumber(s).None? then [] else [ScanNumber(s).value]
  }

  lemma OnePathMore(d: Number, paths: seq<string>, i: nat)
    requires i < |paths|
    ensures var (before, s) := (RaisedBy(d, Numbers(paths[..i])), paths[i]);
            RaisedBy(d, Numbers(paths[..i + 1])) ==
            if Skipped(s) || ScanNumber(s).None? then before else Raised(before, ScanNumber(s).value)
  {
    hide Skipped, ScanNumber, RaisedBy, Raised;
    var ps, s := Numbers(paths[..i]), paths[i];
    assert paths[..i + 1][..i] == paths[..i];
    if Skipped(s) || ScanNumber(s).None? {
      assert Numbers(paths[..i + 1]) == ps;
    } else {
      RaisedMore(d, ps, ScanNumber(s).value);
      assert Numbers(paths[..i + 1]) == ps + [ScanNumber(s).value];
    }
  }

  /** `forward_sbuf` shows the counter every data path that it reads. */
  method Forward(c: Counter, paths: seq<string>) returns (ok: bool)
    modifies c
    ensures ok ==> c.Now() == RaisedBy(old(c.Now()), Numbers(paths)) && c.looped == old(c.looped)
    ensures (forall s :: s in paths ==> Skipped(s) || ScanNumber(s).Some?) ==> ok
  {
    hide ScanNumber, RaisedBy, Raised, Numbers;
    assert RaisedBy(c.Now(), Numbers(paths[..0])) == c.Now() by { NothingRead(c.Now(), paths[..0]); }
    for i := 0 to |paths|
      invariant c.Now() == RaisedBy(old(c.Now()), Numbers(paths[..i])) && c.looped == old(c.looped)
    {
      OnePathMore(old(c.Now()), paths, i);
      assert paths[i] in paths;
      ok := c.SetDpthFromString(paths[i]);
      if !ok { return; }
    }
    assert paths[..|paths|] == paths;
    ok := true;
  }

  lemma NothingRead(d: Number, paths: seq<string>)
    requires paths == []
    ensures RaisedBy(d, Numbers(paths)) == d
  {
  }

  /** Reading the same log again does not raise it any further. */
  lemma ReadAgain(d: Number, max: nat, k: nat, p: Number)
    requires k > 0 && InRange(d, max) && Rises(d, max, k) && p in Given(d, max, k)
    ensures Raised(RaisedBy(d, Given(d, max, k)), p) == RaisedBy(d, Given(d, max, k))
  {
    RaisedIs(d, max, k);
    GivenLength(d, max, k);
    var i :| 0 <= i < k && Given(d, max, k)[i] == p;
    NthRises(d, max, i, k - 1);
  }

  /** What `do_resume` makes of the counter: with the numbers of a run that started
      at `d` in the log it goes on after the last one if and only if that was
      caught; otherwise it gives out one of them again. */
  lemma ResumedCounter(d: Number, max: nat, k: nat, logged: seq<Number>)
    requires k > 0 && InRange(d, max) && Rises(d, max, k) && Newer(d, logged) == Given(d, max, k)
    ensures var (last, next) := (Nth(d, max, k - 1), Next(RaisedBy(d, logged), max));
            && (Caught(d, max, last) ==> next == Nth(d, max, k))
            && (Caught(d, max, last) <==> next !in Given(d, max, k))
    // Reading the same records again makes no difference.
    ensures forall p :: p in Given(d, max, k) ==> Raised(RaisedBy(d, logged), p) == RaisedBy(d, logged)
  {
    forall p | p in Given(d, max, k) ensures Raised(RaisedBy(d, logged), p) == RaisedBy(d, logged) {
      OldOnesIgnored(d, logged);
      ReadAgain(d, max, k, p);
    }
    var last, g := Nth(d, max, k - 1), Given(d, max, k);
    var m := RaisedBy(d, g);
    OldOnesIgnored(d, logged);
    RaisedIs(d, max, k);
    GivenLength(d, max, k);
    if Caught(d, max, last) {
      forall i | 0 <= i < k ensures g[i] != Nth(d, max, k) { NthRises(d, max, i, k); }
    } else {
      RaisedByIn(d, g);
      assert g[0] == d;
      var i :| 0 <= i < k && g[i] == m;
      assert g[i + 1] == Next(m, max);
    }
  }

  lemma {:induction false} RaisedByIn(d: Number, ps: seq<Number>)
    ensures RaisedBy(d, ps) == d || RaisedBy(d, ps) in ps
  {
    if ps != [] { RaisedByIn(d, ps[..|ps| - 1]); }
  }

  /** The failing input: three new files of which the third is the first one of a
      new directory. After an interruption its number is given out once more. */
  lemma NumberGivenTwice()
    ensures var d := Number(0, 0, 0xFFFE);
            && Given(d, 30000, 3) == [d, Number(0, 0, 0xFFFF), Number(0, 1, 0)]
            && Next(RaisedBy(d, Given(d, 30000, 3)), 30000) == Number(0, 1, 0)
  {
    var d := Number(0, 0, 0xFFFE);
    GivenLength(d, 30000, 3);
    assert Nth(d, 30000, 1) == Number(0, 0, 0xFFFF) && Nth(d, 30000, 2) == Number(0, 1, 0);
    var g := Given(d, 30000, 3);
    assert g == [d, Number(0, 0, 0xFFFF), Number(0, 1, 0)];
    assert RaisedBy(d, []) == d;
    assert [d][..0] == [] && RaisedBy(d, [d]) == d;
    assert g[..2][..1] == [d] && RaisedBy(d, g[..2]) == Number(0, 0, 0xFFFF);
  }
}
