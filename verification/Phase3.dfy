/** Phase 3: merging the unchanged and the changed list into the new manifest
    (src/backup_phase3_server.c). */
module Phase3 {
  import opened Wrappers
  import opened Records

  /** A log file as `sbuf_fill` reads it: whole records, then the end of the file
      or something that does not parse. */
  datatype LogFile = LogFile(entries: seq<Sbuf>, bad: bool)

  /** What belongs in the manifest: every phase 2 record, and every unchanged one
      that phase 2 does not replace. Recovery stops at the last phase 2 record. */
  ghost predicate Wanted(uc: seq<Sbuf>, p2: seq<Sbuf>, recovery: bool, e: Sbuf) {
    || e in p2
    || (e in uc && KeyOf(e) !in Keys(p2) && (recovery ==> Reached(p2, e)))
  }

  ghost predicate Reached(p2: seq<Sbuf>, e: Sbuf) {
    p2 != [] && !Before(KeyOf(p2[|p2| - 1]), KeyOf(e))
  }

  ghost predicate IsMerge(uc: seq<Sbuf>, p2: seq<Sbuf>, recovery: bool, m: seq<Sbuf>) {
    Sorted(m) && forall e :: e in m <==> Wanted(uc, p2, recovery, e)
  }

  method BackupPhase3Server(p: Platform, ucLog: LogFile, phase2: LogFile, recovery: bool)
    returns (ok: bool, m: seq<Sbuf>)
    requires Sorted(ucLog.entries) && AllSent(p, ucLog.entries)
    requires Sorted(phase2.entries) && AllSent(p, phase2.entries)
    ensures ok ==> IsMerge(ucLog.entries, phase2.entries, recovery, m)
    ensures !recovery ==> (ok <==> !ucLog.bad && !phase2.bad)
    ensures recovery ==> (ok ==> !phase2.bad) && (!ucLog.bad && !phase2.bad ==> ok)
  {
    var uc, p2 := ucLog.entries, phase2.entries;
    m := [];
    var ucfp, p2fp := true, true;    // both files are open
    var ucb, p2b := false, false;    // a record of each is held: uc[u], p2[d]
    var u, d := 0, 0;                // records of each that are done with
    while ucfp || p2fp
      invariant ucb ==> ucfp && u < |uc|
      invariant p2b ==> p2fp && d < |p2|
      invariant !ucfp ==> u == |uc| && !ucLog.bad
      invariant !p2fp ==> d == |p2| && !phase2.bad && !recovery
      invariant Merged(uc, p2, recovery, u, d, m)
      decreases |uc| - u + |p2| - d, ucfp, p2fp
    {
      if ucfp && !ucb {
        if u < |uc| { ucb := true; }
        else if ucLog.bad { return false, m; }
        else { ucfp := false; }
      }
      if p2fp && !p2b {
        if d < |p2| { p2b := true; }
        else if phase2.bad { return false, m; }
        else {
          p2fp := false;
          if recovery { FinishedRecovery(uc, p2, u, m); return true, m; }
        }
      }
      if ucb && !p2b {
        UnchangedStep(uc, p2, recovery, u, d, m);
        m := m + [uc[u]];
        ucb, u := false, u + 1;
      } else if !ucb && p2b {
        Phase2Step(uc, p2, recovery, u, d, m);
        m := m + [p2[d]];
        p2b, d := false, d + 1;
      } else if !ucb && !p2b {
        continue;
      } else {
        SbufPathCmpIsKeyOrder(p, uc[u], p2[d]);
        var pcmp := SbufPathCmp(uc[u], p2[d]);
        if pcmp == 0 {
          SameStep(uc, p2, recovery, u, d, m);
          m := m + [p2[d]];
          p2b, d := false, d + 1;
          ucb, u := false, u + 1;
        } else if pcmp < 0 {
          UnchangedStep(uc, p2, recovery, u, d, m);
          m := m + [uc[u]];
          ucb, u := false, u + 1;
        } else {
          Phase2Step(uc, p2, recovery, u, d, m);
          m := m + [p2[d]];
          p2b, d := false, d + 1;
        }
      }
    }
    assert uc[..|uc|] == uc && p2[..|p2|] == p2;
    ok := true;
  }

  /** `u` unchanged and `d` phase 2 records are done with; all of them lie below
      all that are left. */
  ghost predicate Merged(uc: seq<Sbuf>, p2: seq<Sbuf>, recovery: bool, u: nat, d: nat, m: seq<Sbuf>) {
    && u <= |uc| && d <= |p2|
    && Sorted(m)
    && (forall e :: e in m <==> e in p2[..d] || (e in uc[..u] && KeyOf(e) !in Keys(p2)))
    && (forall e, x :: e in m && u <= x < |uc| ==> Before(KeyOf(e), KeyOf(uc[x])))
    && (forall e, x :: e in m && d <= x < |p2| ==> Before(KeyOf(e), KeyOf(p2[x])))
    && (recovery ==> forall i :: 0 <= i < u ==> Reached(p2, uc[i]))
  }

  lemma UnchangedStep(uc: seq<Sbuf>, p2: seq<Sbuf>, recovery: bool, u: nat, d: nat, m: seq<Sbuf>)
    requires Sorted(uc) && Sorted(p2) && u < |uc| && Merged(uc, p2, recovery, u, d, m)
    requires d < |p2| ==> Before(KeyOf(uc[u]), KeyOf(p2[d]))
    requires recovery ==> d < |p2|
    ensures Merged(uc, p2, recovery, u + 1, d, m + [uc[u]])
  {
    var e := uc[u];
    forall i | 0 <= i < |p2| ensures KeyOf(p2[i]) != KeyOf(e) {
      BeforeTotal(KeyOf(e), KeyOf(e));
      if i < d { assert p2[i] in p2[..d]; }
      if i > d { BeforeTransitive(KeyOf(e), KeyOf(p2[d]), KeyOf(p2[i])); }
    }
    forall x | d <= x < |p2| ensures Before(KeyOf(e), KeyOf(p2[x])) {
      if x > d { BeforeTransitive(KeyOf(e), KeyOf(p2[d]), KeyOf(p2[x])); }
    }
    if recovery { BeforeTotal(KeyOf(e), KeyOf(p2[|p2| - 1])); }
    assert uc[..u + 1] == uc[..u] + [e];
  }

  lemma Phase2Step(uc: seq<Sbuf>, p2: seq<Sbuf>, recovery: bool, u: nat, d: nat, m: seq<Sbuf>)
    requires Sorted(uc) && Sorted(p2) && d < |p2| && Merged(uc, p2, recovery, u, d, m)
    requires u < |uc| ==> Before(KeyOf(p2[d]), KeyOf(uc[u]))
    ensures Merged(uc, p2, recovery, u, d + 1, m + [p2[d]])
  {
    var e := p2[d];
    forall x | u <= x < |uc| ensures Before(KeyOf(e), KeyOf(uc[x])) {
      if x > u { BeforeTransitive(KeyOf(e), KeyOf(uc[u]), KeyOf(uc[x])); }
    }
    assert p2[..d + 1] == p2[..d] + [e];
  }

  lemma SameStep(uc: seq<Sbuf>, p2: seq<Sbuf>, recovery: bool, u: nat, d: nat, m: seq<Sbuf>)
    requires Sorted(uc) && Sorted(p2) && u < |uc| && d < |p2| && Merged(uc, p2, recovery, u, d, m)
    requires KeyOf(uc[u]) == KeyOf(p2[d])
    ensures Merged(uc, p2, recovery, u + 1, d + 1, m + [p2[d]])
  {
    assert p2[..d + 1] == p2[..d] + [p2[d]];
    assert uc[..u + 1] == uc[..u] + [uc[u]];
    BeforeTotal(KeyOf(uc[u]), KeyOf(p2[|p2| - 1]));
    assert KeyOf(uc[u]) in Keys(p2);
  }

  lemma FinishedRecovery(uc: seq<Sbuf>, p2: seq<Sbuf>, u: nat, m: seq<Sbuf>)
    requires Sorted(uc) && Merged(uc, p2, true, u, |p2|, m)
    ensures IsMerge(uc, p2, true, m)
  {
    assert p2[..|p2|] == p2;
    forall e | e in uc && e !in uc[..u] ensures !Reached(p2, e) {
      assert uc == uc[..u] + uc[u..];
      var x :| 0 <= x < |uc| - u && uc[u..][x] == e;
      assert uc[u + x] == e;
      if p2 != [] { assert p2[|p2| - 1] in m; }
    }
  }

  /** The manifest's keys are those of the two lists together, each once. */
  lemma MergeKeys(uc: seq<Sbuf>, p2: seq<Sbuf>, m: seq<Sbuf>)
    requires IsMerge(uc, p2, false, m)
    ensures Keys(m) == Keys(uc) + Keys(p2)
  {
    forall k ensures k in Keys(m) <==> k in Keys(uc) + Keys(p2) {
      if k in Keys(m) {
        var i :| 0 <= i < |m| && KeyOf(m[i]) == k;
        assert m[i] in m;
      }
      if i :| 0 <= i < |p2| && KeyOf(p2[i]) == k {
        assert p2[i] in m;
      } else if i :| 0 <= i < |uc| && KeyOf(uc[i]) == k {
        assert uc[i] in m;
      }
    }
  }

  /** There is only one such merge. */
  lemma MergeUnique(uc: seq<Sbuf>, p2: seq<Sbuf>, recovery: bool, m: seq<Sbuf>, n: seq<Sbuf>)
    requires IsMerge(uc, p2, recovery, m) && IsMerge(uc, p2, recovery, n)
    ensures m == n
  {
    SortedUnique(m, n);
  }
}
