/** Phases 2 and 3 from end to end: what the new manifest lists. */
module Pipeline {
  import opened Wrappers
  import opened Records
  import opened Protocol
  import opened Phase2
  import opened Phase3

  /** The phase 2 log of a complete run over a scan list. */
  ghost function P2Of(env: Env, conf: Conf, cman: seq<Sbuf>, p1: seq<Sbuf>): seq<Sbuf> {
    Entries(ExpectedAll(env, RequestsOf(conf, cman, p1)))
  }

  /** What one scanned record adds to the phase 2 log. */
  ghost function P2Item(env: Env, conf: Conf, cman: seq<Sbuf>, p1b: Sbuf): seq<Sbuf> {
    var item := ItemFor(conf, cman, p1b);
    if item.Ask? then Entries(Expected(env, item.request)) else []
  }

  ghost function UnchangedItem(conf: Conf, cman: seq<Sbuf>, p1b: Sbuf): seq<Sbuf> {
    var item := ItemFor(conf, cman, p1b);
    if item.Log? then [item.entry] else []
  }

  /** The client was asked for the file and sent nothing. */
  ghost predicate Silent(env: Env, conf: Conf, cman: seq<Sbuf>, p1b: Sbuf) {
    var item := ItemFor(conf, cman, p1b);
    item.Ask? && !Answers(env, item.request.cmd, item.request.path)
  }

  /** A scanned record adds at most one record, with its own key, to one of the logs. */
  lemma ItemKeys(env: Env, conf: Conf, cman: seq<Sbuf>, p1b: Sbuf)
    ensures |P2Item(env, conf, cman, p1b)| + |UnchangedItem(conf, cman, p1b)| ==
            if Silent(env, conf, cman, p1b) then 0 else 1
    ensures forall e :: e in P2Item(env, conf, cman, p1b) ==> KeyOf(e) == KeyOf(p1b) && e.cmd == p1b.cmd
    ensures forall e :: e in UnchangedItem(conf, cman, p1b) ==> KeyOf(e) == KeyOf(p1b) && (e == p1b || e in cman)
  {
    var l := Lookup(cman, KeyOf(p1b));
    assert l.Some? ==> KeyOf(l.value) == KeyOf(p1b) && l.value in cman;
  }

  lemma P2More(env: Env, conf: Conf, cman: seq<Sbuf>, p1: seq<Sbuf>, e: Sbuf)
    ensures P2Of(env, conf, cman, p1 + [e]) == P2Of(env, conf, cman, p1) + P2Item(env, conf, cman, e)
    ensures UnchangedOf(conf, cman, p1 + [e]) == UnchangedOf(conf, cman, p1) + UnchangedItem(conf, cman, e)
  {
    assert (p1 + [e])[..|p1|] == p1;
    var rs := RequestsOf(conf, cman, p1);
    var item := ItemFor(conf, cman, e);
    if item.Ask? {
      assert (rs + [item.request])[..|rs|] == rs;
      assert RequestsOf(conf, cman, p1 + [e]) == rs + [item.request];
    } else {
      assert RequestsOf(conf, cman, p1 + [e]) == rs + [] == rs;
    }
  }

  lemma LogsOfNothing(env: Env, conf: Conf, cman: seq<Sbuf>)
    ensures P2Of(env, conf, cman, []) == [] && UnchangedOf(conf, cman, []) == []
  {
  }

  /** Both logs of a list are those of its parts, one after the other. */
  lemma {:induction false} LogsAppend(env: Env, conf: Conf, cman: seq<Sbuf>, a: seq<Sbuf>, b: seq<Sbuf>)
    ensures P2Of(env, conf, cman, a + b) == P2Of(env, conf, cman, a) + P2Of(env, conf, cman, b)
    ensures UnchangedOf(conf, cman, a + b) == UnchangedOf(conf, cman, a) + UnchangedOf(conf, cman, b)
    decreases |b|
  {
    hide P2Of, UnchangedOf, P2Item, UnchangedItem;
    if b == [] {
      assert a + b == a;
      LogsOfNothing(env, conf, cman);
      assert P2Of(env, conf, cman, a) + [] == P2Of(env, conf, cman, a);
      assert UnchangedOf(conf, cman, a) + [] == UnchangedOf(conf, cman, a);
    } else {
      var b', e := b[..|b| - 1], b[|b| - 1];
      assert a + b == (a + b') + [e] && b == b' + [e];
      LogsAppend(env, conf, cman, a, b');
      P2More(env, conf, cman, a + b', e);
      P2More(env, conf, cman, b', e);
    }
  }

  // ----- Keys -----

  /** The keys of the scan list that the client sent something for, or that needed
      nothing from it. */
  ghost function KeptKeys(env: Env, conf: Conf, cman: seq<Sbuf>, p1: seq<Sbuf>): set<Key> {
    set i | 0 <= i < |p1| && !Silent(env, conf, cman, p1[i]) :: KeyOf(p1[i])
  }

  lemma {:induction false} LogKeys(env: Env, conf: Conf, cman: seq<Sbuf>, p1: seq<Sbuf>)
    requires Sorted(p1)
    ensures Sorted(P2Of(env, conf, cman, p1)) && Sorted(UnchangedOf(conf, cman, p1))
    ensures Keys(P2Of(env, conf, cman, p1)) + Keys(UnchangedOf(conf, cman, p1)) == KeptKeys(env, conf, cman, p1)
    ensures Keys(P2Of(env, conf, cman, p1)) !! Keys(UnchangedOf(conf, cman, p1))
    decreases |p1|
  {
    hide P2Of, UnchangedOf, P2Item, UnchangedItem, Silent;
    if p1 == [] {
      LogsOfNothing(env, conf, cman);
    } else {
      var n := |p1| - 1;
      var p, e := p1[..n], p1[n];
      assert p1 == p + [e];
      LogKeys(env, conf, cman, p);
      P2More(env, conf, cman, p, e);
      ItemKeys(env, conf, cman, e);
      var a, b := P2Of(env, conf, cman, p), UnchangedOf(conf, cman, p);
      KeptBelow(env, conf, cman, p, KeyOf(e));
      AppendOne(a, P2Item(env, conf, cman, e), e);
      AppendOne(b, UnchangedItem(conf, cman, e), e);
      KeptMore(env, conf, cman, p, e);
      BeforeTotal(KeyOf(e), KeyOf(e));
    }
  }

  lemma KeptMore(env: Env, conf: Conf, cman: seq<Sbuf>, p: seq<Sbuf>, e: Sbuf)
    ensures KeptKeys(env, conf, cman, p + [e]) ==
            KeptKeys(env, conf, cman, p) + if Silent(env, conf, cman, e) then {} else {KeyOf(e)}
  {
    hide Silent;
    var q := p + [e];
    assert forall i :: 0 <= i < |p| ==> q[i] == p[i];
    assert q[|p|] == e;
  }

  lemma KeptBelow(env: Env, conf: Conf, cman: seq<Sbuf>, p: seq<Sbuf>, k: Key)
    requires AllBefore(p, k)
    ensures forall l :: l in KeptKeys(env, conf, cman, p) ==> Before(l, k)
  {
  }

  /** At most one record, with the key of `e`, after records with keys below. */
  lemma AppendOne(s: seq<Sbuf>, more: seq<Sbuf>, e: Sbuf)
    requires Sorted(s) && |more| <= 1 && (forall f :: f in more ==> KeyOf(f) == KeyOf(e))
    requires forall l :: l in Keys(s) ==> Before(l, KeyOf(e))
    ensures Sorted(s + more)
    ensures Keys(s + more) == Keys(s) + if more == [] then {} else {KeyOf(e)}
  {
    if more == [] {
      assert s + more == s;
    } else {
      var f := more[0];
      assert more == [f] && f in more;
      forall i | 0 <= i < |s| ensures Before(KeyOf(s[i]), KeyOf(f)) { assert KeyOf(s[i]) in Keys(s); }
      assert forall i :: 0 <= i < |s| ==> (s + more)[i] == s[i];
      assert (s + more)[|s|] == f;
    }
  }

  /** From the scan list to the new manifest, whatever the interleaving of the two
      programs: sorted, and listing exactly the scanned keys for which the client
      was not asked in vain. */
  method BackupPhases23(env: Env, conf: Conf, p: Platform, p1: seq<Sbuf>, cman: seq<Sbuf>, haveManifest: bool,
                        steps: nat)
    returns (done: bool, manifest: seq<Sbuf>, received: map<string, string>, patches: map<string, string>)
    requires Sorted(p1) && Sorted(cman) && AllSent(p, p1) && AllSent(p, cman) && OldOk(cman)
    requires !haveManifest ==> cman == []
    ensures done ==> Sorted(manifest) && Keys(manifest) == KeptKeys(env, conf, cman, p1)
    ensures done ==> IsMerge(UnchangedOf(conf, cman, p1), P2Of(env, conf, cman, p1), false, manifest)
    ensures done ==> AllSent(p, manifest)
    ensures done ==> var arrivals := ExpectedAll(env, RequestsOf(conf, cman, p1));
                     received == Files(arrivals, false) && patches == Files(arrivals, true)
  {
    var s := new Phase2Server(env, conf, p, p1, cman, haveManifest);
    done := RunPhase2(s, steps);
    manifest, received, patches := [], s.tmp, s.fwd;
    if done {
      LogKeys(env, conf, cman, p1);
      LogsSent(env, conf, cman, p, p1);
      var ok;
      ok, manifest := BackupPhase3Server(p, LogFile(s.uc, false), LogFile(s.p2, false), false);
      MergeKeys(s.uc, s.p2, manifest);
      MergeSent(p, s.uc, s.p2, manifest);
    }
  }

  lemma MergeSent(p: Platform, uc: seq<Sbuf>, p2: seq<Sbuf>, m: seq<Sbuf>)
    requires AllSent(p, uc) && AllSent(p, p2) && IsMerge(uc, p2, false, m)
    ensures AllSent(p, m)
  {
    forall i | 0 <= i < |m| ensures Sends(p, m[i]) {
      assert m[i] in m;
      assert m[i] in uc || m[i] in p2;
    }
  }

  lemma {:induction false} LogsSent(env: Env, conf: Conf, cman: seq<Sbuf>, p: Platform, p1: seq<Sbuf>)
    requires AllSent(p, p1) && AllSent(p, cman)
    ensures AllSent(p, P2Of(env, conf, cman, p1)) && AllSent(p, UnchangedOf(conf, cman, p1))
    decreases |p1|
  {
    hide P2Of, UnchangedOf, P2Item, UnchangedItem;
    if p1 == [] {
      LogsOfNothing(env, conf, cman);
    } else {
      var q, e := p1[..|p1| - 1], p1[|p1| - 1];
      assert p1 == q + [e];
      LogsSent(env, conf, cman, p, q);
      P2More(env, conf, cman, q, e);
      ItemKeys(env, conf, cman, e);
      var a, b := P2Item(env, conf, cman, e), UnchangedItem(conf, cman, e);
      forall i | 0 <= i < |a| ensures Sends(p, a[i]) { assert a[i] in a; }
      forall i | 0 <= i < |b| ensures Sends(p, b[i]) { assert b[i] in b; }
    }
  }
}
