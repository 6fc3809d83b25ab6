/** All of a manifest shuffled, however often it is interrupted:
    `atomic_data_jiggle` (src/backup_phase4_server.c). */
module ShuffleRun {
  import opened Wrappers
  import opened Librsync
  import opened Records
  import opened Deletions
  import opened Jiggle

  /** A record whose data cannot be had: its patch fails, or nothing was found. */
  predicate Lost(plan: Plan, e: Sbuf) {
    e.datapth.Some? && plan.Goal(e.datapth.value).None?
  }

  /** The old file of `e` was not written over. */
  predicate Spared(spoilt: Dir, e: Sbuf) { e.datapth.Some? ==> e.datapth.value !in spoilt }

  /** The data path's file is in the old backup, and if there is a delta for it
      opens as a basis, or it was received whole. */
  predicate Reachable(plan: Plan, dp: string) {
    if dp in plan.patches then dp in plan.was && plan.Basis(dp).Some? else dp in plan.received || dp in plan.was
  }

  /** The delta is at hand and does not apply. */
  predicate Fails(plan: Plan, e: Sbuf) { Lost(plan, e) && Reachable(plan, e.datapth.value) }

  ghost predicate Findable(plan: Plan, m: seq<Sbuf>) {
    forall e :: e in m && e.datapth.Some? ==> Reachable(plan, e.datapth.value)
  }

  predicate IsDelta(plan: Plan, e: Sbuf) { e.datapth.Some? && e.datapth.value in plan.patches }

  /** Records say of a delta's data path what the plan says. */
  ghost predicate FlagsOk(plan: Plan, m: seq<Sbuf>) {
    forall e :: e in m && IsDelta(plan, e) ==>
      (DpthIsCompressed(e.statp.compression, e.datapth.value) <==> e.datapth.value in plan.gz)
  }

  ghost predicate DeltasCompressed(plan: Plan, m: seq<Sbuf>) {
    forall e :: e in m && IsDelta(plan, e) ==> e.datapth.value in plan.gz
  }

  /** A delta that fails, and a delta of the other kind of compression. */
  predicate Clash(plan: Plan, d: Sbuf, e: Sbuf) {
    && IsDelta(plan, d) && IsDelta(plan, e) && Lost(plan, d)
    && (d.datapth.value in plan.gz <==> e.datapth.value !in plan.gz)
  }

  /** No delta comes after a failing one of the other kind. */
  ghost predicate Careful(plan: Plan, m: seq<Sbuf>) {
    forall i, j :: 0 <= i < j < |m| ==> !Clash(plan, m[i], m[j])
  }

  /** `m` is the manifest `m0`, less some records whose delta fails or whose old file
      was written over. */
  ghost predicate Trimmed(plan: Plan, spoilt: Dir, m0: seq<Sbuf>, m: seq<Sbuf>) {
    && Sorted(m)
    && (forall e :: e in m ==> e in m0)
    && (forall e :: e in m0 && !Fails(plan, e) && Spared(spoilt, e) ==> e in m)
  }

  /** What the loop leaves behind it: the file is in place, or its record logged. */
  predicate Seen(fin: Dir, log: seq<Sbuf>, e: Sbuf) {
    e.datapth.None? || e.datapth.value in fin || e in log
  }

  ghost predicate SeenUpTo(fin: Dir, m: seq<Sbuf>, log: seq<Sbuf>, n: nat)
    requires n <= |m|
  {
    forall i :: 0 <= i < n ==> Seen(fin, log, m[i])
  }

  /** The deletions file of a shuffle that may have been started many times. */
  ghost predicate LogOk(fin: Dir, m: seq<Sbuf>, log: seq<Sbuf>) {
    && (forall e :: e in log ==> e in m)
    && NewKeysRise(log)
    && (forall e, d :: e in log && d in m && Before(KeyOf(d), KeyOf(e)) ==> Seen(fin, log, d))
  }

  ghost predicate LogTrue(plan: Plan, spoilt: Dir, log: seq<Sbuf>) {
    forall e :: e in log && Spared(spoilt, e) ==> Fails(plan, e)
  }

  lemma LogAppend(fin: Dir, m: seq<Sbuf>, log: seq<Sbuf>, n: nat)
    requires Sorted(m) && n < |m| && LogOk(fin, m, log) && SeenUpTo(fin, m, log, n)
    requires m[n].datapth.Some? && m[n].datapth.value !in fin
    ensures LogOk(fin, m, log + [m[n]])
  {
    LogRises(fin, m, log, n);
    hide Before, NewKeysRise, Sorted, SeenUpTo;
    var log' := log + [m[n]];
    forall e, c | e in log' && c in m && Before(KeyOf(c), KeyOf(e)) ensures Seen(fin, log', c) {
      if e in log {
        assert Seen(fin, log, c);
      } else {
        SeenBefore(fin, m, log, n, c);
      }
    }
  }

  lemma LogRises(fin: Dir, m: seq<Sbuf>, log: seq<Sbuf>, n: nat)
    requires Sorted(m) && n < |m| && LogOk(fin, m, log)
    requires m[n].datapth.Some? && m[n].datapth.value !in fin
    ensures NewKeysRise(log + [m[n]])
  {
    var d := m[n];
    assert d in m;
    if d !in log {
      hide NewKeysRise, Before;
      forall e | e in log ensures Before(KeyOf(e), KeyOf(d)) {
        if KeyOf(e) == KeyOf(d) { SameKeySameRecord(m, e, d); }
        BeforeTotal(KeyOf(e), KeyOf(d));
        assert Before(KeyOf(d), KeyOf(e)) ==> Seen(fin, log, d);
      }
    }
    RiseAppend(log, d);
  }

  lemma SeenBefore(fin: Dir, m: seq<Sbuf>, log: seq<Sbuf>, n: nat, c: Sbuf)
    requires Sorted(m) && n < |m| && SeenUpTo(fin, m, log, n) && c in m && Before(KeyOf(c), KeyOf(m[n]))
    ensures Seen(fin, log, c)
  {
    var i :| 0 <= i < |m| && m[i] == c;
    BeforeTotal(KeyOf(c), KeyOf(m[n]));
    assert i < n;
  }

  lemma RiseAppend(log: seq<Sbuf>, d: Sbuf)
    requires NewKeysRise(log)
    requires d in log || forall e :: e in log ==> Before(KeyOf(e), KeyOf(d))
    ensures NewKeysRise(log + [d])
  {
    var log' := log + [d];
    forall j | 0 <= j < |log'|
      ensures (exists i :: 0 <= i < j && KeyOf(log'[i]) == KeyOf(log'[j])) ||
              (forall i :: 0 <= i < j ==> Before(KeyOf(log'[i]), KeyOf(log'[j])))
    {
      if j < |log| {
        if i :| 0 <= i < j && KeyOf(log[i]) == KeyOf(log[j]) {
          assert KeyOf(log'[i]) == KeyOf(log'[j]);
        }
      } else if d in log {
        var i :| 0 <= i < |log| && log[i] == d;
        assert KeyOf(log'[i]) == KeyOf(log'[j]);
      } else {
        forall i | 0 <= i < j ensures Before(KeyOf(log'[i]), KeyOf(log'[j])) {
          assert log'[i] in log;
        }
      }
    }
  }

  lemma SameKeySameRecord(m: seq<Sbuf>, e: Sbuf, d: Sbuf)
    requires Sorted(m) && e in m && d in m && KeyOf(e) == KeyOf(d)
    ensures e == d
  {
    BeforeTotal(KeyOf(e), KeyOf(d));
  }

  /** Deleting a log like that takes out exactly what is logged; of a finished run
      it leaves exactly what is in place. */
  lemma DeletingTrims(plan: Plan, spoilt: Dir, fin: Dir, m0: seq<Sbuf>, m: seq<Sbuf>, log: seq<Sbuf>)
    requires Trimmed(plan, spoilt, m0, m) && LogOk(fin, m, log) && LogTrue(plan, spoilt, log)
    ensures var m' := Without(m, Peaks(log));
            && Trimmed(plan, spoilt, m0, m') && (forall e :: e in m' <==> e in m && e !in log)
            && (SeenUpTo(fin, m, log, |m|) ==> Covered(m', fin))
  {
    RisingLogIsDeleted(m, log);
    WithoutContents(m, Keys(log));
    forall e | e in m ensures KeyOf(e) in Keys(log) <==> e in log {
      if KeyOf(e) in Keys(log) {
        var i :| 0 <= i < |log| && KeyOf(log[i]) == KeyOf(e);
        assert log[i] in log;
        SameKeySameRecord(m, e, log[i]);
      }
    }
  }

  ghost predicate Covered(m: seq<Sbuf>, data: Dir) {
    forall e :: e in m && e.datapth.Some? ==> e.datapth.value in data
  }

  /** Every data path in `fin` comes from the manifest. */
  ghost predicate FromManifest(fin: Dir, m: seq<Sbuf>) {
    forall dp :: dp in fin ==> exists e :: e in m && e.datapth == Some(dp)
  }

  /** The deltas are left out as they were from the start, or all is in place so
      that it makes no difference. */
  ghost predicate ModeOk(s: Shuffle, m: seq<Sbuf>)
    reads s
  {
    s.hardlinked == s.plan.hardlinked || Covered(m, s.fin)
  }

  /** A link that a crash left: whatever precedes its file in the manifest is in
      place or lost. */
  ghost predicate LinkBehind(plan: Plan, fin: Dir, m0: seq<Sbuf>, inflate: Inflate) {
    inflate.LinkTo? ==>
      exists j :: 0 <= j < |m0| && m0[j].datapth == Some(inflate.dp) && Settled(plan, fin, m0[..j])
  }

  ghost predicate Settled(plan: Plan, fin: Dir, m: seq<Sbuf>) {
    forall e :: e in m && e.datapth.Some? ==> e.datapth.value in fin || Lost(plan, e)
  }

  /** The first `n` records of the manifest have been seen to. */
  ghost predicate Going(s: Shuffle, m0: seq<Sbuf>, m: seq<Sbuf>, n: nat)
    requires n <= |m|
    reads s
  {
    && s.Inv() && ModeOk(s, m) && Sorted(m0) && FlagsOk(s.plan, m0) && FromManifest(s.fin, m0)
    && Trimmed(s.plan, s.spoilt, m0, m) && LogTrue(s.plan, s.spoilt, s.deletions)
    && LogOk(s.fin, m, s.deletions) && SeenUpTo(s.fin, m, s.deletions, n)
    && (Careful(s.plan, m0) ==> s.spoilt == map[] && LinkBehind(s.plan, s.fin, m0, s.inflate))
  }

  /** With no clash a compressed delta never meets a link. */
  lemma NoClashNoOverwriting(s: Shuffle, m0: seq<Sbuf>, m: seq<Sbuf>, n: nat)
    requires n < |m| && Going(s, m0, m, n) && Careful(s.plan, m0) && IsDelta(s.plan, m[n])
    ensures var dp := m[n].datapth.value; !s.WritesOver(dp, dp in s.plan.gz)
  {
    var e, dp := m[n], m[n].datapth.value;
    if s.WritesOver(dp, dp in s.plan.gz) {
      assert m[n] in m;
      var j :| 0 <= j < |m0| && m0[j].datapth == Some(s.inflate.dp) && Settled(s.plan, s.fin, m0[..j]);
      var i :| 0 <= i < |m0| && m0[i] == e;
      ClashesWith(s.plan, s.fin, m0, i, j);
      if j <= i && !Lost(s.plan, m0[j]) { LinkIsAhead(s, m0, m, n, j, i); }
    }
  }

  /** A compressed delta that is not in place and an uncompressed one with all before
      it settled. */
  lemma ClashesWith(plan: Plan, fin: Dir, m0: seq<Sbuf>, i: nat, j: nat)
    requires i < |m0| && j < |m0| && IsDelta(plan, m0[i]) && IsDelta(plan, m0[j])
    requires m0[i].datapth.value in plan.gz && m0[j].datapth.value !in plan.gz
    requires m0[i].datapth.value !in fin && Settled(plan, fin, m0[..j])
    ensures i < j ==> Clash(plan, m0[i], m0[j])
    ensures Lost(plan, m0[j]) ==> Clash(plan, m0[j], m0[i])
  {
    if i < j { assert m0[i] in m0[..j]; }
  }

  /** The loop does not get past a link's file unless it is lost. */
  lemma LinkIsAhead(s: Shuffle, m0: seq<Sbuf>, m: seq<Sbuf>, n: nat, j: nat, i: nat)
    requires n < |m| && Going(s, m0, m, n) && s.spoilt == map[] && s.inflate.LinkTo?
    requires j < |m0| && m0[j].datapth == Some(s.inflate.dp) && !Lost(s.plan, m0[j])
    requires i < |m0| && m0[i] == m[n]
    ensures i <= j
  {
    assert m0[j] in m0;
    var k :| 0 <= k < |m| && m[k] == m0[j];
    assert !Seen(s.fin, s.deletions, m[k]);
    if j < i { EarlierStays(m0, j, i, m, k, n); }
  }

  lemma EarlierStays(m0: seq<Sbuf>, j: nat, i: nat, m: seq<Sbuf>, k: nat, n: nat)
    requires Sorted(m0) && Sorted(m) && j < i < |m0| && k < |m| && n < |m| && m[k] == m0[j] && m[n] == m0[i]
    ensures k < n
  {
    BeforeTotal(KeyOf(m[k]), KeyOf(m[n]));
  }

  /** A new link is behind everything that is not settled. */
  lemma LinkIsBehind(s: Shuffle, m0: seq<Sbuf>, m: seq<Sbuf>, n: nat)
    requires n < |m| && Going(s, m0, m, n) && s.spoilt == map[] && m[n].datapth.Some?
    ensures LinkBehind(s.plan, s.fin, m0, LinkTo(m[n].datapth.value))
  {
    assert m[n] in m;
    var j :| 0 <= j < |m0| && m0[j] == m[n];
    forall e | e in m0[..j] && e.datapth.Some? ensures e.datapth.value in s.fin || Lost(s.plan, e) {
      if !Lost(s.plan, e) {
        var i :| 0 <= i < j && m0[i] == e;
        assert m0[i] in m0;
        var k :| 0 <= k < |m| && m[k] == e;
        EarlierStays(m0, i, j, m, k, n);
        assert Seen(s.fin, s.deletions, m[k]);
      }
    }
  }

  /** What stops the loop, as long as nothing was written over. */
  lemma WhatStops(s: Shuffle, dp: string, compressed: bool)
    requires s.Inv() && s.spoilt == map[] && s.Stops(dp, compressed)
    requires dp in s.plan.patches ==> compressed == (dp in s.plan.gz)
    ensures !Reachable(s.plan, dp) || (dp in s.plan.patches && !compressed && !s.inflate.Absent?)
  {
    assert FileInv(s.plan, s.spoilt, s.Now(), dp);
  }

  /** One more file in place, or logged. */
  lemma LogKept(m: seq<Sbuf>, n: nat, fin: Dir, fin': Dir, log: seq<Sbuf>, log': seq<Sbuf>)
    requires Sorted(m) && n < |m| && LogOk(fin, m, log) && SeenUpTo(fin, m, log, n)
    requires fin.Keys <= fin'.Keys && (log' == log || log' == log + [m[n]])
    requires log' != log ==> m[n].datapth.Some? && m[n].datapth.value !in fin
    ensures LogOk(fin', m, log') && SeenUpTo(fin', m, log', n)
  {
    if log' != log { LogAppend(fin, m, log, n); }
    assert LogOk(fin, m, log');
    forall e, d | e in log' && d in m && Before(KeyOf(d), KeyOf(e)) ensures Seen(fin', log', d) {
      assert Seen(fin, log', d);
    }
    forall i | 0 <= i < n ensures Seen(fin', log', m[i]) {
      assert Seen(fin, log, m[i]);
    }
  }

  lemma LinkKept(plan: Plan, m0: seq<Sbuf>, fin: Dir, fin': Dir, inflate: Inflate)
    requires fin.Keys <= fin'.Keys && (inflate.LinkTo? ==> LinkBehind(plan, fin, m0, inflate))
    ensures LinkBehind(plan, fin', m0, inflate)
  {
  }

  /** The books stay true of what is spared. */
  lemma BooksKept(plan: Plan, spoilt: Dir, spoilt': Dir, m0: seq<Sbuf>, m: seq<Sbuf>, e: Sbuf,
                  fin: Dir, fin': Dir, log: seq<Sbuf>, log': seq<Sbuf>)
    requires Trimmed(plan, spoilt, m0, m) && LogTrue(plan, spoilt, log) && FromManifest(fin, m0)
    requires spoilt.Keys <= spoilt'.Keys && e in m && e.datapth.Some?
    requires log' == log || (log' == log + [e] && (e.datapth.value !in spoilt' ==> Fails(plan, e)))
    requires fin' == fin || fin'.Keys == fin.Keys + {e.datapth.value}
    ensures Trimmed(plan, spoilt', m0, m) && LogTrue(plan, spoilt', log') && FromManifest(fin', m0)
  {
    hide Sorted, Plan.Goal;
    forall dp | dp in fin' ensures exists f :: f in m0 && f.datapth == Some(dp) {
      if dp !in fin { assert e in m0; }
    }
  }

  lemma SeenMore(fin: Dir, m: seq<Sbuf>, log: seq<Sbuf>, n: nat)
    requires n < |m| && SeenUpTo(fin, m, log, n) && Seen(fin, log, m[n])
    ensures SeenUpTo(fin, m, log, n + 1)
  {
  }

  twostate predicate Unmoved(s: Shuffle)
    reads s
  {
    && s.cur == old(s.cur) && s.rev == old(s.rev) && s.fin == old(s.fin) && s.spoilt == old(s.spoilt)
    && s.inflate == old(s.inflate) && s.deletions == old(s.deletions)
  }

  /** What is known of the record that the loop comes to. */
  lemma NextRecord(s: Shuffle, m0: seq<Sbuf>, m: seq<Sbuf>, n: nat, dp: string, compressed: bool)
    requires n < |m| && Going(s, m0, m, n) && m[n].datapth == Some(dp)
    requires compressed == DpthIsCompressed(m[n].statp.compression, dp)
    ensures m[n] in m && (dp in s.plan.patches ==> compressed == (dp in s.plan.gz))
    ensures Careful(s.plan, m0) ==> !s.WritesOver(dp, compressed)
    ensures s.spoilt == map[] ==> LinkBehind(s.plan, s.fin, m0, LinkTo(dp))
    ensures (s.spoilt == map[] && s.Stops(dp, compressed) ==>
               !Findable(s.plan, m) || (!DeltasCompressed(s.plan, m) && !s.inflate.Absent?))
    ensures !s.Stops(dp, compressed) && dp !in s.fin && dp !in s.spoilt ==> Reachable(s.plan, dp)
  {
    assert FileInv(s.plan, s.spoilt, s.Now(), dp);
    assert m[n] in m;
    if dp in s.plan.patches {
      if Careful(s.plan, m0) { NoClashNoOverwriting(s, m0, m, n); }
    }
    if s.spoilt == map[] {
      LinkIsBehind(s, m0, m, n);
      if s.Stops(dp, compressed) { WhatStops(s, dp, compressed); }
    }
  }

  /** One round of the loop. */
  method JiggleRecord(s: Shuffle, ghost m0: seq<Sbuf>, m: seq<Sbuf>, n: nat, mayCrash: bool) returns (r: Outcome)
    requires n < |m| && Going(s, m0, m, n)
    modifies s
    ensures Going(s, m0, m, n)
    ensures r.Done? ==> Going(s, m0, m, n + 1)
    ensures r.Crashed? ==> mayCrash
    ensures (r.Failed? ==>
               !Findable(s.plan, m) || (!DeltasCompressed(s.plan, m) && !old(s.inflate).Absent?) || s.spoilt != map[])
    ensures r.Done? ==> s.inflate == Absent || s.inflate == old(s.inflate)
    ensures !old(s.inflate).LinkTo? && !r.Crashed? ==> !s.inflate.LinkTo?
    ensures old(s.spoilt).Keys <= s.spoilt.Keys && (!old(s.inflate).LinkTo? ==> s.spoilt == old(s.spoilt))
    ensures (s.fin == old(s.fin) ||
             (m[n].datapth.Some? && s.fin.Keys == old(s.fin).Keys + {m[n].datapth.value}))
    ensures s.deletions == old(s.deletions) || s.deletions == old(s.deletions) + [m[n]]
    ensures m[n].datapth.Some? ==> m[n].datapth.value in old(s.fin) ==> r.Done? && Unmoved(s)
    ensures m[n].datapth.None? ==> r.Done? && Unmoved(s)
  {
    var sb := m[n];
    if sb.datapth.None? {
      SeenMore(s.fin, m, s.deletions, n);
      return Done;
    }
    var dp := sb.datapth.value;
    var compressed := DpthIsCompressed(sb.statp.compression, dp);
    NextRecord(s, m0, m, n, dp, compressed);
    hide LogOk, ShuffleInv, Sorted, Careful, Plan.Goal, NewKeysRise, LinkBehind, Trimmed, LogTrue, FromManifest;
    hide SeenUpTo, FlagsOk, Findable, Reachable, DeltasCompressed, InflateOk;
    r := s.JiggleFile(sb, dp, compressed, mayCrash);
    LogKept(m, n, old(s.fin), s.fin, old(s.deletions), s.deletions);
    if Careful(s.plan, m0) { LinkKept(s.plan, m0, old(s.fin), s.fin, s.inflate); }
    BooksKept(s.plan, old(s.spoilt), s.spoilt, m0, m, sb, old(s.fin), s.fin, old(s.deletions), s.deletions);
    if r.Done? { SeenMore(s.fin, m, s.deletions, n); }
  }

  /** The loop of `atomic_data_jiggle`: every file in turn, here the first `k`. */
  method JiggleUpTo(s: Shuffle, ghost m0: seq<Sbuf>, m: seq<Sbuf>, k: nat, mayCrash: bool) returns (r: Outcome)
    requires k <= |m| && Going(s, m0, m, 0)
    modifies s
    ensures Going(s, m0, m, 0)
    ensures r.Done? ==> Going(s, m0, m, k)
    ensures r.Crashed? ==> mayCrash
    ensures (r.Failed? ==>
               !Findable(s.plan, m) || (!DeltasCompressed(s.plan, m) && !old(s.inflate).Absent?) || s.spoilt != map[])
    ensures r.Done? ==> s.inflate == Absent || s.inflate == old(s.inflate)
    ensures old(s.spoilt).Keys <= s.spoilt.Keys && (!old(s.inflate).LinkTo? ==> s.spoilt == old(s.spoilt))
    ensures s.fin.Keys <= old(s.fin).Keys + Datapths(m[..k])
    ensures forall e :: e in s.deletions ==> e in old(s.deletions) || e in m[..k]
    ensures !old(s.inflate).LinkTo? && !r.Crashed? ==> !s.inflate.LinkTo?
    ensures Covered(m[..k], old(s.fin)) ==> !r.Failed? && Unmoved(s)
  {
    hide Going, LogOk;
    r := Done;
    for n := 0 to k
      invariant r.Done? && Going(s, m0, m, n) && Going(s, m0, m, 0)
      invariant s.inflate == Absent || s.inflate == old(s.inflate)
      invariant old(s.spoilt).Keys <= s.spoilt.Keys && (!old(s.inflate).LinkTo? ==> s.spoilt == old(s.spoilt))
      invariant s.fin.Keys <= old(s.fin).Keys + Datapths(m[..n])
      invariant forall e :: e in s.deletions ==> e in old(s.deletions) || e in m[..n]
      invariant Covered(m[..k], old(s.fin)) ==> Unmoved(s)
    {
      if mayCrash { if * { return Crashed; } }
      assert m[n] in m[..k] && m[n] in m[..n + 1];
      assert forall e :: e in m[..n] ==> e in m[..n + 1];
      r := JiggleRecord(s, m0, m, n, mayCrash);
      GoingFromStart(s, m0, m, n);
      if !r.Done? { return; }
    }
  }

  ghost function Datapths(m: seq<Sbuf>): set<string> {
    set e | e in m && e.datapth.Some? :: e.datapth.value
  }

  lemma GoingFromStart(s: Shuffle, m0: seq<Sbuf>, m: seq<Sbuf>, n: nat)
    requires n <= |m| && Going(s, m0, m, n)
    ensures Going(s, m0, m, 0)
  {
  }

  /** `atomic_data_jiggle`: the files, then the deletions. The deletions file is
      gone before the manifest without them is renamed into place. */
  method AtomicDataJiggle(s: Shuffle, p: Platform, ghost m0: seq<Sbuf>, manifest: seq<Sbuf>, mayCrash: bool)
    returns (r: Outcome, m: seq<Sbuf>)
    requires AllSent(p, manifest) && Going(s, m0, manifest, 0)
    modifies s
    ensures AllSent(p, m) && Going(s, m0, m, 0) && forall e :: e in m ==> e in manifest
    ensures r.Crashed? ==> mayCrash
    ensures r.Done? ==> Covered(m, s.fin) && s.deletions == []
    ensures r.Done? ==> ListsWhatIsKept(s.plan, s.spoilt, m0, m)
    ensures (r.Failed? ==> !Findable(s.plan, manifest) || s.spoilt != map[] ||
                           (!DeltasCompressed(s.plan, manifest) && !old(s.inflate).Absent?))
    ensures old(s.spoilt).Keys <= s.spoilt.Keys && (!old(s.inflate).LinkTo? ==> s.spoilt == old(s.spoilt))
    ensures !old(s.inflate).LinkTo? && !r.Crashed? ==> !s.inflate.LinkTo?
    ensures Covered(manifest, old(s.fin)) ==> s.cur == old(s.cur) && s.rev == old(s.rev) && s.fin == old(s.fin)
    ensures Covered(manifest, old(s.fin)) ==> s.spoilt == old(s.spoilt) && s.inflate == old(s.inflate)
  {
    hide Findable, DeltasCompressed, Going;
    m := manifest;
    assert manifest[..|manifest|] == manifest;
    r := JiggleUpTo(s, m0, manifest, |manifest|, mayCrash);
    if r.Crashed? { return; }
    ghost var complete := r.Done?;
    var done;
    done, m := DeleteLogged(s, p, m0, manifest, mayCrash, complete);
    if !done { return Crashed, m; }
  }

  /** The end of `atomic_data_jiggle`. */
  method DeleteLogged(s: Shuffle, p: Platform, ghost m0: seq<Sbuf>, manifest: seq<Sbuf>, mayCrash: bool,
                      ghost complete: bool)
    returns (done: bool, m: seq<Sbuf>)
    requires AllSent(p, manifest) && Going(s, m0, manifest, if complete then |manifest| else 0)
    modifies s`deletions
    ensures AllSent(p, m) && Going(s, m0, m, 0) && forall e :: e in m ==> e in manifest
    ensures (done ==> s.deletions == []) && (done || mayCrash)
    ensures done && complete ==> Covered(m, s.fin)
    ensures done && complete ==> ListsWhatIsKept(s.plan, s.spoilt, m0, m)
  {
    hide Careful, LinkBehind;
    m := manifest;
    var m' := DoDeletions(s.plan, s.spoilt, s.fin, p, m0, manifest, s.deletions);
    if mayCrash { if * { return false, m; } }
    s.deletions := [];                                // unlink(deletionsfile)
    if mayCrash { if * { return false, m; } }
    m := m';                                          // do_rename(manifesttmp, manifest)
    if complete { CoveredIsKept(s, m0, m); }
    done := true;
  }

  /** `m` lists the records that are not lost, and none was lost because its file
      could not be had; that is as far as old files were not written over. */
  ghost predicate ListsWhatIsKept(plan: Plan, spoilt: Dir, m0: seq<Sbuf>, m: seq<Sbuf>) {
    forall e :: e in m0 && Spared(spoilt, e) ==>
      (e in m <==> !Lost(plan, e)) && (e.datapth.Some? ==> Reachable(plan, e.datapth.value))
  }

  /** What is in place is what should be. */
  lemma CoveredIsKept(s: Shuffle, m0: seq<Sbuf>, m: seq<Sbuf>)
    requires s.Inv() && Trimmed(s.plan, s.spoilt, m0, m) && Covered(m, s.fin)
    ensures ListsWhatIsKept(s.plan, s.spoilt, m0, m)
  {
    forall e | e in m && Spared(s.spoilt, e) ensures !Lost(s.plan, e) {
      if e.datapth.Some? { assert FileInv(s.plan, s.spoilt, s.Now(), e.datapth.value); }
    }
  }

  /** The deletions of one run; no deletions file if nothing was logged. */
  method DoDeletions(ghost plan: Plan, ghost spoilt: Dir, ghost fin: Dir, p: Platform, ghost m0: seq<Sbuf>,
                     m: seq<Sbuf>, log: seq<Sbuf>)
    returns (m': seq<Sbuf>)
    requires AllSent(p, m) && Trimmed(plan, spoilt, m0, m) && LogOk(fin, m, log) && LogTrue(plan, spoilt, log)
    ensures AllSent(p, m') && Trimmed(plan, spoilt, m0, m') && forall e :: e in m' <==> e in m && e !in log
    ensures SeenUpTo(fin, m, log, |m|) ==> Covered(m', fin)
  {
    DeletingTrims(plan, spoilt, fin, m0, m, log);
    LogIsSent(p, m, log);
    WithoutContents(m, Peaks(log));
    if log == [] {
      m' := MaybeDeleteFilesFromManifest(p, m, None);
      assert Peaks(log) == {};
      WithoutNothing(m);
    } else {
      m' := MaybeDeleteFilesFromManifest(p, m, Some(log));
    }
    LogIsSent(p, m, m');
  }

  lemma LogIsSent(p: Platform, m: seq<Sbuf>, log: seq<Sbuf>)
    requires AllSent(p, m) && forall e :: e in log ==> e in m
    ensures AllSent(p, log)
  {
    forall i | 0 <= i < |log| ensures Sends(p, log[i]) { assert log[i] in m; }
  }

  lemma {:induction false} WithoutNothing(m: seq<Sbuf>)
    ensures Without(m, {}) == m
  {
    if m != [] { WithoutNothing(m[..|m| - 1]); }
  }

  /** However many attempts were cut short, and wherever, the attempt that is let
      run to its end leaves the backup that was intended: exactly the records
      that are not lost, each with its data; of old files written over through a
      link nothing is said, and there are none unless two deltas clash. It can
      fail only on a file that is not there or does not inflate, or because a
      crash left `inflate` in the way of an uncompressed one. */
  method ShuffleAndRecover(plan: Plan, p: Platform, manifest: seq<Sbuf>, crashes: nat)
    returns (r: Outcome, m: seq<Sbuf>, s: Shuffle)
    requires plan.lib.Valid() && Sorted(manifest) && AllSent(p, manifest) && FlagsOk(plan, manifest)
    ensures fresh(s) && s.plan == plan && s.Inv() && !r.Crashed?
    ensures Careful(plan, manifest) || crashes == 0 ==> s.spoilt == map[]
    ensures r.Done? ==> Sorted(m) && (forall e :: e in m ==> e in manifest) && Covered(m, s.fin)
    ensures r.Done? ==> ListsWhatIsKept(plan, s.spoilt, manifest, m)
    ensures (r.Done? ==> forall e :: e in m && e.datapth.Some? && Spared(s.spoilt, e) ==>
               plan.Goal(e.datapth.value) == Some(s.fin[e.datapth.value]))
    ensures Findable(plan, manifest) && (DeltasCompressed(plan, manifest) || crashes == 0) ==> r.Done?
    ensures FromManifest(s.fin, manifest)
  {
    hide Findable, Careful, LinkBehind, DeltasCompressed, ShuffleInv, LogOk, LogTrue;
    s := new Shuffle(plan);
    m := manifest;
    Starting(s, manifest);
    for attempt := 0 to crashes
      invariant fresh(s) && s.plan == plan && AllSent(p, m)
      invariant Going(s, manifest, m, 0)
      invariant attempt == 0 ==> s.inflate == Absent && s.spoilt == map[]
    {
      r, m := AtomicDataJiggle(s, p, manifest, m, true);
    }
    FewerRecords(plan, manifest, m);
    r, m := AtomicDataJiggle(s, p, manifest, m, false);
    forall e | e in m && e.datapth.Some? && r.Done? && Spared(s.spoilt, e)
      ensures plan.Goal(e.datapth.value) == Some(s.fin[e.datapth.value])
    {
      assert FileInv(plan, s.spoilt, s.Now(), e.datapth.value) by { InvOf(s, e.datapth.value); }
    }
  }

  lemma InvOf(s: Shuffle, dp: string)
    requires s.Inv()
    ensures FileInv(s.plan, s.spoilt, s.Now(), dp)
  {
  }

  lemma Starting(s: Shuffle, m: seq<Sbuf>)
    requires s.Inv() && s.hardlinked == s.plan.hardlinked && s.fin == map[] && s.deletions == [] && s.spoilt == map[]
    requires Sorted(m) && FlagsOk(s.plan, m) && s.inflate == Absent
    ensures Going(s, m, m, 0)
  {
  }

  lemma FewerRecords(plan: Plan, m0: seq<Sbuf>, m: seq<Sbuf>)
    requires forall e :: e in m ==> e in m0
    ensures Findable(plan, m0) ==> Findable(plan, m)
    ensures DeltasCompressed(plan, m0) ==> DeltasCompressed(plan, m)
    ensures DeltasCompressed(plan, m0) ==> Careful(plan, m0)
  {
    if DeltasCompressed(plan, m0) {
      forall i, j | 0 <= i < j < |m0| ensures !Clash(plan, m0[i], m0[j]) {
        assert m0[i] in m0 && m0[j] in m0;
      }
    }
  }

  // ----- When old files are written over -----

  ghost predicate OwnDatapths(m: seq<Sbuf>) {
    forall i, j :: 0 <= i < j < |m| && m[i].datapth.Some? ==> m[i].datapth != m[j].datapth
  }

  /** If there is a clash at all, the first delta that fails clashes. */
  method FirstLostClashes(plan: Plan, m: seq<Sbuf>) returns (i: nat, j: nat)
    requires Findable(plan, m) && !Careful(plan, m)
    ensures i < j < |m| && Clash(plan, m[i], m[j]) && forall k :: 0 <= k < i ==> !Lost(plan, m[k])
  {
    ghost var a, b :| 0 <= a < b < |m| && Clash(plan, m[a], m[b]);
    i := 0;
    while !Lost(plan, m[i])
      invariant i <= a && forall k :: 0 <= k < i ==> !Lost(plan, m[k])
      decreases a - i
    {
      i := i + 1;
    }
    assert m[i] in m && Reachable(plan, m[i].datapth.value);
    ghost var c := if Clash(plan, m[i], m[b]) then b else a;
    j := i + 1;
    while !Clash(plan, m[i], m[j])
      invariant i < j <= c
      decreases c - j
    {
      j := j + 1;
    }
  }

  /** A delta that is not in place yet. */
  ghost predicate Pending(s: Shuffle, e: Sbuf)
    reads s
  {
    && s.Inv() && IsDelta(s.plan, e)
    && e.datapth.value !in s.fin && e.datapth.value in s.fwd && e.datapth.value in s.cur
  }

  lemma StillPending(s: Shuffle, m: seq<Sbuf>, k: nat)
    requires s.Inv() && k < |m| && IsDelta(s.plan, m[k]) && Findable(s.plan, m)
    requires (m[k].datapth.value !in s.fin) || (Lost(s.plan, m[k]) && s.spoilt == map[])
    ensures Pending(s, m[k])
  {
    assert m[k] in m && FileInv(s.plan, s.spoilt, s.Now(), m[k].datapth.value);
  }

  /** What an attempt has passed is in place, or else logged. */
  lemma PassedBy(s: Shuffle, m0: seq<Sbuf>, m: seq<Sbuf>, n: nat, k: nat)
    requires n <= |m| && Going(s, m0, m, n) && k <= n
    requires forall e :: e in m[..k] ==> e !in s.deletions
    ensures Covered(m[..k], s.fin)
  {
    forall e | e in m[..k] && e.datapth.Some? ensures e.datapth.value in s.fin {
      var x :| 0 <= x < k && m[x] == e;
      assert Seen(s.fin, s.deletions, m[x]);
    }
  }

  /** Killed, and started again. */
  method Restarted(s: Shuffle) returns (s': Shuffle)
    requires s.Inv()
    ensures fresh(s') && s'.Inv() && s'.plan == s.plan && s'.hardlinked == s.hardlinked && s'.Now() == s.Now()
    ensures s'.inflate == s.inflate && s'.deletions == s.deletions && s'.spoilt == s.spoilt
  {
    s' := new Shuffle.Resume(s.lib, s.serverGz, s.hardlinked, s.Now(), s.inflate, s.deletions, s.spoilt, s.plan);
  }

  /** A first attempt, killed just before record `j`. */
  method KilledBefore(plan: Plan, m0: seq<Sbuf>, j: nat) returns (s: Shuffle)
    requires plan.lib.Valid() && Sorted(m0) && FlagsOk(plan, m0) && OwnDatapths(m0)
    requires Findable(plan, m0) && j < |m0| && IsDelta(plan, m0[j])
    ensures fresh(s) && s.plan == plan && s.hardlinked == plan.hardlinked && Going(s, m0, m0, j) && Pending(s, m0[j])
    ensures s.spoilt == map[] && s.inflate == Absent && forall e :: e in s.deletions ==> e in m0[..j]
  {
    s := new Shuffle(plan);
    Starting(s, m0);
    var r := JiggleUpTo(s, m0, m0, j, false);
    StillPending(s, m0, j);
    s := Restarted(s);
  }

  /** The failing input: whenever a delta comes after a failing one of the other
      kind, a run that is killed at the wrong moments writes an old file over. */
  method OverwritingRun(plan: Plan, p: Platform, m0: seq<Sbuf>) returns (s: Shuffle)
    requires plan.lib.Valid() && Sorted(m0) && AllSent(p, m0) && FlagsOk(plan, m0) && OwnDatapths(m0)
    requires Findable(plan, m0) && !Careful(plan, m0)
    ensures s.plan == plan && s.Inv() && s.spoilt != map[]
  {
    var i, j := FirstLostClashes(plan, m0);
    if m0[i].datapth.value in plan.gz {
      s := InflatedOverLink(plan, m0, i, j);
    } else {
      s := LinkOutlivesRecord(plan, p, m0, i, j);
    }
  }

  /** The failing delta is compressed: the link made for the later one is still
      there when the failing one is tried again. */
  method InflatedOverLink(plan: Plan, m0: seq<Sbuf>, i: nat, j: nat) returns (s: Shuffle)
    requires plan.lib.Valid() && Sorted(m0) && FlagsOk(plan, m0) && OwnDatapths(m0) && Findable(plan, m0)
    requires i < j < |m0| && Clash(plan, m0[i], m0[j]) && forall k :: 0 <= k < i ==> !Lost(plan, m0[k])
    requires m0[i].datapth.value in plan.gz
    ensures s.plan == plan && s.Inv() && s.spoilt != map[]
  {
    hide ShuffleInv, LogOk, Sorted, Findable, FlagsOk, OwnDatapths, Trimmed, FromManifest;
    s := KilledBefore(plan, m0, j);
    PassedBy(s, m0, m0, j, i);
    var r := s.InflateOrLinkOldFile(m0[j].datapth.value, false, false);
    s := Restarted(s);
    r := JiggleUpTo(s, m0, m0, i, false);
    StillPending(s, m0, i);
    r := s.JiggleFile(m0[i], m0[i].datapth.value, true, false);
  }

  /** The failing delta is uncompressed: a link made for it outlives its record in
      the manifest, and the later delta is inflated over it. */
  method LinkOutlivesRecord(plan: Plan, p: Platform, m0: seq<Sbuf>, i: nat, j: nat) returns (s: Shuffle)
    requires plan.lib.Valid() && Sorted(m0) && AllSent(p, m0) && FlagsOk(plan, m0) && OwnDatapths(m0)
    requires Findable(plan, m0)
    requires i < j < |m0| && Clash(plan, m0[i], m0[j]) && forall k :: 0 <= k < i ==> !Lost(plan, m0[k])
    requires m0[i].datapth.value !in plan.gz
    ensures s.plan == plan && s.Inv() && s.spoilt != map[]
  {
    hide ShuffleInv, LogOk, Sorted, Findable, FlagsOk, OwnDatapths, FromManifest, AllSent, LogTrue;
    var m;
    s, m := StoppedAtLink(plan, p, m0, i, j);
    // The fourth attempt inflates over it.
    var k := PositionOf(m, m0[j]);
    CoveredUpTo(s.fin, m0, j, m, k);
    var r := JiggleUpTo(s, m0, m, k, false);
    StillPending(s, m0, j);
    r := s.JiggleFile(m0[j], m0[j].datapth.value, true, false);
  }

  /** Three attempts of that run. */
  method StoppedAtLink(plan: Plan, p: Platform, m0: seq<Sbuf>, i: nat, j: nat) returns (s: Shuffle, m: seq<Sbuf>)
    requires plan.lib.Valid() && Sorted(m0) && AllSent(p, m0) && FlagsOk(plan, m0) && OwnDatapths(m0)
    requires Findable(plan, m0)
    requires i < j < |m0| && Clash(plan, m0[i], m0[j]) && forall k :: 0 <= k < i ==> !Lost(plan, m0[k])
    requires m0[i].datapth.value !in plan.gz
    ensures fresh(s) && s.plan == plan && Going(s, m0, m, 0) && s.inflate == LinkTo(m0[i].datapth.value)
    ensures m0[j].datapth.value !in s.fin
    ensures m0[j] in m && forall e :: e in m && e in m0[..j] && e.datapth.Some? ==> e.datapth.value in s.fin
  {
    hide ShuffleInv, LogOk, Sorted, Findable, FlagsOk, OwnDatapths, Trimmed, FromManifest, AllSent;
    s := KilledAtOwnLink(plan, m0, i, j);
    // The third attempt stops at that link, and the log is deleted from the manifest.
    var r := JiggleUpTo(s, m0, m0, i, false);
    StillPending(s, m0, i);
    r := s.JiggleFile(m0[i], m0[i].datapth.value, false, false);
    StillPending(s, m0, i);
    m := DoDeletions(plan, s.spoilt, s.fin, p, m0, m0, s.deletions);
    TrimmedPassed(s.fin, m0, j, s.deletions, m);
    s.deletions := [];
    NothingLogged(s, m0, m);
  }

  /** The second attempt is killed when it has linked the failing delta's file. */
  method KilledAtOwnLink(plan: Plan, m0: seq<Sbuf>, i: nat, j: nat) returns (s: Shuffle)
    requires plan.lib.Valid() && Sorted(m0) && FlagsOk(plan, m0) && OwnDatapths(m0) && Findable(plan, m0)
    requires i < j < |m0| && Clash(plan, m0[i], m0[j]) && forall k :: 0 <= k < i ==> !Lost(plan, m0[k])
    requires m0[i].datapth.value !in plan.gz
    ensures fresh(s) && s.plan == plan && s.hardlinked == plan.hardlinked && Going(s, m0, m0, j)
    ensures s.inflate == LinkTo(m0[i].datapth.value) && s.spoilt == map[] && Covered(m0[..i], s.fin)
    ensures m0[j].datapth.value !in s.fin && forall e :: e in s.deletions ==> e in m0[..j]
  {
    hide ShuffleInv, LogOk, Sorted, Findable, FlagsOk, OwnDatapths, Trimmed, FromManifest, LogTrue;
    s := KilledBefore(plan, m0, j);
    assert forall e :: e in m0[..i] ==> e !in s.deletions by { NotLogged(s, m0, i, j); }
    PassedBy(s, m0, m0, j, i);
    StillPending(s, m0, i);
    var r := s.InflateOrLinkOldFile(m0[i].datapth.value, false, false);
    s := Restarted(s);
  }

  lemma NotLogged(s: Shuffle, m0: seq<Sbuf>, i: nat, j: nat)
    requires j <= |m0| && Going(s, m0, m0, j) && s.spoilt == map[] && i <= j
    requires forall k :: 0 <= k < i ==> !Lost(s.plan, m0[k])
    ensures forall e :: e in m0[..i] ==> e !in s.deletions
  {
    hide ShuffleInv, Sorted, Trimmed, Plan.Goal;
    forall e | e in m0[..i] ensures e !in s.deletions {
      var k :| 0 <= k < i && m0[k] == e;
    }
  }

  method PositionOf(m: seq<Sbuf>, e: Sbuf) returns (k: nat)
    requires e in m
    ensures k < |m| && m[k] == e
  {
    k := 0;
    while m[k] != e
      invariant k < |m| && e in m[k..]
      decreases |m| - k
    {
      k := k + 1;
    }
  }

  /** With the logged records gone, all that is left before record `j` is in place. */
  lemma TrimmedPassed(fin: Dir, m0: seq<Sbuf>, j: nat, log: seq<Sbuf>, m: seq<Sbuf>)
    requires Sorted(m0) && j < |m0| && SeenUpTo(fin, m0, log, j)
    requires forall e :: e in log ==> e in m0[..j]
    requires forall e :: e in m <==> e in m0 && e !in log
    ensures m0[j] in m && forall e :: e in m && e in m0[..j] && e.datapth.Some? ==> e.datapth.value in fin
  {
    forall x | 0 <= x < j ensures m0[x] != m0[j] { BeforeTotal(KeyOf(m0[x]), KeyOf(m0[j])); }
    forall e | e in m && e in m0[..j] && e.datapth.Some? ensures e.datapth.value in fin {
      var x :| 0 <= x < j && m0[x] == e;
      assert Seen(fin, log, m0[x]);
    }
  }

  lemma CoveredUpTo(fin: Dir, m0: seq<Sbuf>, j: nat, m: seq<Sbuf>, k: nat)
    requires Sorted(m0) && Sorted(m) && j < |m0| && k < |m| && m[k] == m0[j]
    requires forall e :: e in m ==> e in m0
    requires forall e :: e in m && e in m0[..j] && e.datapth.Some? ==> e.datapth.value in fin
    ensures Covered(m[..k], fin)
  {
    hide Before;
    forall e | e in m[..k] && e.datapth.Some? ensures e.datapth.value in fin {
      var y :| 0 <= y < k && m[y] == e;
      assert e in m;
      var x :| 0 <= x < |m0| && m0[x] == e;
      BeforeTotal(KeyOf(e), KeyOf(e));
      if j < x { EarlierStays(m0, j, x, m, k, y); }
      assert e in m0[..j];
    }
  }

  lemma NothingLogged(s: Shuffle, m0: seq<Sbuf>, m: seq<Sbuf>)
    requires s.Inv() && s.hardlinked == s.plan.hardlinked && s.deletions == [] && FromManifest(s.fin, m0)
    requires Sorted(m0) && FlagsOk(s.plan, m0) && Trimmed(s.plan, s.spoilt, m0, m) && !Careful(s.plan, m0)
    ensures Going(s, m0, m, 0)
  {
  }

  /** For instance: the first file's delta is corrupt, the second one's client has
      stopped compressing it. */
  ghost predicate TwoDeltas(plan: Plan, a: Sbuf, b: Sbuf) {
    && a == Sbuf(CMD_FILE, "/a", None, Some("0.gz"), "", Stat(false, 0, 0, 9), None)
    && b == Sbuf(CMD_FILE, "/b", None, Some("1.gz"), "", Stat(false, 0, 0, 0), None)
    && plan == Plan(SampleCodec(), false, true, map["0.gz" := "zwas", "1.gz" := "zold"], {"0.gz", "1.gz"},
                    map[], map["0.gz" := "zcorrupt", "1.gz" := "zdnew"], {"0.gz"})
  }

  lemma TwoDeltasClash(plan: Plan, a: Sbuf, b: Sbuf)
    requires TwoDeltas(plan, a, b)
    ensures plan.lib.Valid() && Clash(plan, a, b) && plan.Goal("0.gz") == None
    ensures plan.lib.Inflated(true, plan.was["0.gz"]) == Some("was")
  {
    SampleIsValid();
    assert "zwas"[1..] == "was";
  }

  /** The server is killed when it has linked the second file's old data. */
  method KilledAtLink(plan: Plan, a: Sbuf, b: Sbuf) returns (s: Shuffle)
    requires TwoDeltas(plan, a, b)
    ensures fresh(s) && s.plan == plan && s.Inv() && s.inflate == LinkTo("1.gz") && "0.gz" in s.cur
    ensures s.deletions == [a] && "0.gz" !in s.fin && "0.gz" !in s.spoilt
  {
    TwoDeltasClash(plan, a, b);
    hide Plan.Goal, SampleCodec, Codec.Inflated, ShuffleInv;
    s := new Shuffle(plan);
    var r := s.JiggleFile(a, "0.gz", true, false);
    InvOf(s, "0.gz");
    InvOf(s, "1.gz");
    r := s.InflateOrLinkOldFile("1.gz", false, false);
    s := Restarted(s);
  }

  /** Tried again, the first one is inflated over it. */
  method ExampleOfOverwriting(plan: Plan, a: Sbuf, b: Sbuf) returns (s: Shuffle)
    requires TwoDeltas(plan, a, b)
    ensures s.plan == plan && s.Inv() && "1.gz" in s.cur && s.cur["1.gz"] == "was" && "1.gz" in s.spoilt
  {
    TwoDeltasClash(plan, a, b);
    hide Plan.Goal, SampleCodec, Codec.Inflated, ShuffleInv;
    s := KilledAtLink(plan, a, b);
    InvOf(s, "0.gz");
    var r := s.InflateOrLinkOldFile("0.gz", true, false);
    assert s.InflateContent() == "was";
  }
}
