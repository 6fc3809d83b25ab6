/** Taking an interrupted phase 2 up again: `forward_sbuf` and `do_resume`
    (src/backup_phase1_server.c). */
module Resume {
  import opened Wrappers
  import opened Records
  import opened Protocol
  import opened Phase2
  import opened Pipeline
  import PathOrder

  /** A log as a crash leaves it: whole records, and perhaps part of another. */
  datatype OnDisk = OnDisk(entries: seq<Sbuf>, torn: bool)

  /** Where a file stands: before record `next`, or after a torn last record. */
  datatype Position = Position(next: nat, pastTorn: bool)

  /** `sbuf_pathcmp` when the target may be blank: no path is before any path. */
  function TargetCmp(target: Option<Sbuf>, b: Sbuf): int {
    if target.None? then -1 else SbufPathCmp(target.value, b)
  }

  /** The first record that does not lie before the target. */
  function Stop(entries: seq<Sbuf>, target: Option<Sbuf>): (i: nat)
    ensures i <= |entries|
    ensures forall k :: 0 <= k < i ==> TargetCmp(target, entries[k]) > 0
    ensures i < |entries| ==> TargetCmp(target, entries[i]) <= 0
  {
    if entries == [] || TargetCmp(target, entries[0]) <= 0 then 0
    else
      var i := 1 + Stop(entries[1..], target);
      assert forall k :: 0 < k < i ==> entries[k] == entries[1..][k - 1];
      i
  }

  lemma StopIs(entries: seq<Sbuf>, target: Option<Sbuf>, i: nat)
    requires i <= |entries|
    requires forall k :: 0 <= k < i ==> TargetCmp(target, entries[k]) > 0
    requires i < |entries| ==> TargetCmp(target, entries[i]) <= 0
    ensures Stop(entries, target) == i
  {
    assert Stop(entries, target) >= i && i >= Stop(entries, target);
  }

  function Last(entries: seq<Sbuf>): Option<Sbuf> {
    if entries == [] then None else Some(entries[|entries| - 1])
  }

  /** `forward_sbuf` with no target: the last whole record. */
  method ForwardToEnd(log: OnDisk) returns (b: Option<Sbuf>)
    ensures b == Last(log.entries)
  {
    b := None;
    for i := 0 to |log.entries|
      invariant b == Last(log.entries[..i])
    {
      b := Some(log.entries[i]);
    }
    assert log.entries[..|log.entries|] == log.entries;
  }

  /** Past the target, or before it if told to seek back; at the end of the file,
      torn record and all, if it is not reached. */
  function Forwarded(log: OnDisk, target: Option<Sbuf>, seekback: bool): Position {
    var i := Stop(log.entries, target);
    if i == |log.entries| then Position(i, log.torn)
    else Position(if seekback then i else i + 1, false)
  }

  /** `forward_sbuf` with a target. */
  method ForwardSbuf(log: OnDisk, target: Option<Sbuf>, seekback: bool) returns (b: Option<Sbuf>, pos: Position)
    ensures pos == Forwarded(log, target, seekback)
    ensures b == var i := Stop(log.entries, target);
                 Last(if i < |log.entries| then log.entries[..i + 1] else log.entries)
  {
    hide Stop, TargetCmp;
    var latest: Option<Sbuf> := None;
    var next := 0;
    while true
      invariant 0 <= next <= |log.entries|
      invariant forall k :: 0 <= k < next ==> TargetCmp(target, log.entries[k]) > 0
      invariant latest == Last(log.entries[..next])
      decreases |log.entries| - next
    {
      var before := next;
      if next == |log.entries| {
        StopIs(log.entries, target, next);
        assert log.entries[..next] == log.entries;
        return latest, Position(next, log.torn);
      }
      var r := log.entries[next];
      next := next + 1;
      if TargetCmp(target, r) <= 0 {
        StopIs(log.entries, target, before);
        return Some(r), Position(if seekback then before else next, false);
      }
      latest := Some(r);
    }
  }

  /** In a sorted list of one platform's records the target stops the search where
      the key order says. */
  lemma StopByKey(pf: Platform, entries: seq<Sbuf>, target: Sbuf, i: nat)
    requires AllSent(pf, entries) && Sends(pf, target) && i <= |entries|
    requires forall k :: 0 <= k < i ==> Before(KeyOf(entries[k]), KeyOf(target))
    requires i < |entries| ==> !Before(KeyOf(entries[i]), KeyOf(target))
    ensures Stop(entries, Some(target)) == i
  {
    forall k | 0 <= k < |entries| {
      SbufPathCmpIsKeyOrder(pf, target, entries[k]);
    }
    StopIs(entries, Some(target), i);
  }

  lemma LastIsGreatest(entries: seq<Sbuf>)
    requires Sorted(entries) && entries != []
    ensures var e := entries[|entries| - 1];
            && !Before(KeyOf(e), KeyOf(e))
            && forall k :: 0 <= k < |entries| - 1 ==> Before(KeyOf(entries[k]), KeyOf(e))
  {
    var e := entries[|entries| - 1];
    BeforeTotal(KeyOf(e), KeyOf(e));
    hide Before;
  }

  lemma StopAtLast(pf: Platform, entries: seq<Sbuf>)
    requires Sorted(entries) && AllSent(pf, entries) && entries != []
    ensures Stop(entries, Last(entries)) == |entries| - 1
  {
    hide Before, Stop, Sorted, AllSent, Sends, SbufPathCmp, KeyOf;
    var n := |entries| - 1;
    LastIsGreatest(entries);
    SentAt(pf, entries, n);
    StopByKey(pf, entries, entries[n], n);
  }

  /** Forwarded to its own last record a log stands at its end. */
  lemma AtTheLast(pf: Platform, log: OnDisk)
    requires Sorted(log.entries) && AllSent(pf, log.entries)
    ensures Forwarded(log, Last(log.entries), false) == Position(|log.entries|, log.entries == [] && log.torn)
    ensures var i := Stop(log.entries, Last(log.entries));
            Last(if i < |log.entries| then log.entries[..i + 1] else log.entries) == Last(log.entries)
  {
    hide Stop, Sorted, AllSent;
    if log.entries != [] { StopAtLast(pf, log.entries); }
    assert log.entries[..|log.entries|] == log.entries;
  }

  /** `do_resume`: all files are taken up at the last whole phase 2 record, the
      unchanged log before that place and the other two after it. */
  method DoResume(pf: Platform, p1: seq<Sbuf>, p2: OnDisk, uc: OnDisk) returns (at1: nat, at2: Position, atUc: Position)
    requires Sorted(p2.entries) && AllSent(pf, p2.entries)
    ensures at1 == Forwarded(OnDisk(p1, false), Last(p2.entries), false).next
    ensures at2 == Position(|p2.entries|, p2.entries == [] && p2.torn)
    ensures atUc == Forwarded(uc, Last(p2.entries), true)
  {
    hide Stop, Sorted, AllSent, Forwarded, Last;
    AtTheLast(pf, p2);
    var p2btmp := ForwardToEnd(p2);
    var p2b, p1b, ucb, pos;
    p2b, at2 := ForwardSbuf(p2, p2btmp, false);
    p1b, pos := ForwardSbuf(OnDisk(p1, false), p2b, false);
    at1 := pos.next;
    ucb, atUc := ForwardSbuf(uc, p2b, true);
  }

  // ----- What a resumed run makes of it -----

  /** The log when what `more` lists has been written from `pos` on. */
  function Written(log: OnDisk, pos: Position, more: seq<Sbuf>): OnDisk
    requires pos.next <= |log.entries|
  {
    OnDisk(log.entries[..pos.next] + more, pos.pastTorn)
  }

  /** The logs of a phase 2 that was cut short: what a full run writes, up to
      anywhere in either. */
  ghost predicate CutShort(env: Env, conf: Conf, cman: seq<Sbuf>, p1: seq<Sbuf>, p2: OnDisk, uc: OnDisk) {
    p2.entries <= P2Of(env, conf, cman, p1) && uc.entries <= UnchangedOf(conf, cman, p1)
  }

  /** Both logs end up as in a run that was never interrupted, though the old
      manifest is read again from its start. */
  ghost predicate AsIfNeverCut(env: Env, conf: Conf, cman: seq<Sbuf>, p1: seq<Sbuf>, p2: OnDisk, uc: OnDisk) {
    var at1 := Forwarded(OnDisk(p1, false), Last(p2.entries), false).next;
    var at2 := Position(|p2.entries|, p2.entries == [] && p2.torn);
    var atUc := Forwarded(uc, Last(p2.entries), true);
    && Written(p2, at2, P2Of(env, conf, cman, p1[at1..])) == OnDisk(P2Of(env, conf, cman, p1), false)
    && Written(uc, atUc, UnchangedOf(conf, cman, p1[at1..])) == OnDisk(UnchangedOf(conf, cman, p1), false)
  }

  /** The unchanged log holds all that comes before the last phase 2 record, and is
      not torn right there. */
  ghost predicate UnchangedReaches(uc: OnDisk, before: seq<Sbuf>) {
    |uc.entries| >= |before| && !(uc.torn && |uc.entries| == |before|)
  }

  /** The scanned record that a phase 2 record answers. */
  lemma {:induction false} Source(env: Env, conf: Conf, cman: seq<Sbuf>, p1: seq<Sbuf>, e: Sbuf) returns (x: nat)
    requires e in P2Of(env, conf, cman, p1)
    ensures x < |p1| && P2Item(env, conf, cman, p1[x]) == [e]
    decreases |p1|
  {
    hide P2Of, P2Item, UnchangedItem;
    if p1 == [] {
      LogsOfNothing(env, conf, cman);
    }
    var n := |p1| - 1;
    assert p1 == p1[..n] + [p1[n]];
    P2More(env, conf, cman, p1[..n], p1[n]);
    ItemKeys(env, conf, cman, p1[n]);
    if e in P2Of(env, conf, cman, p1[..n]) {
      x := Source(env, conf, cman, p1[..n], e);
    } else {
      x := n;
      assert e in P2Item(env, conf, cman, p1[n]);
    }
  }

  /** The run is cut at scanned record `x`, the last one answered: both full logs
      are split there. */
  lemma SplitLogs(env: Env, conf: Conf, cman: seq<Sbuf>, p1: seq<Sbuf>, x: nat, e: Sbuf)
    requires Sorted(p1) && x < |p1| && P2Item(env, conf, cman, p1[x]) == [e]
    ensures P2Of(env, conf, cman, p1) == P2Of(env, conf, cman, p1[..x]) + [e] + P2Of(env, conf, cman, p1[x + 1..])
    ensures UnchangedOf(conf, cman, p1) == UnchangedOf(conf, cman, p1[..x]) + UnchangedOf(conf, cman, p1[x + 1..])
    ensures AllBefore(UnchangedOf(conf, cman, p1[..x]), KeyOf(e))
    ensures forall u :: u in UnchangedOf(conf, cman, p1[x + 1..]) ==> Before(KeyOf(e), KeyOf(u))
    ensures KeyOf(e) == KeyOf(p1[x])
  {
    hide P2Of, UnchangedOf, P2Item, UnchangedItem, Silent;
    var a, b := p1[..x], p1[x + 1..];
    assert p1 == a + [p1[x]] + b;
    LogsAppend(env, conf, cman, a + [p1[x]], b);
    P2More(env, conf, cman, a, p1[x]);
    ItemKeys(env, conf, cman, p1[x]);
    assert e in P2Item(env, conf, cman, p1[x]);
    assert UnchangedOf(conf, cman, a) + [] == UnchangedOf(conf, cman, a);
    LogKeys(env, conf, cman, a);
    LogKeys(env, conf, cman, b);
    var ua, ub := UnchangedOf(conf, cman, a), UnchangedOf(conf, cman, b);
    forall i | 0 <= i < |ua| ensures Before(KeyOf(ua[i]), KeyOf(e)) {
      assert KeyOf(ua[i]) in Keys(ua);
    }
    forall u | u in ub ensures Before(KeyOf(e), KeyOf(u)) {
      assert KeyOf(u) in Keys(ub);
    }
  }

  /** With an answered record `x` on disk last, the scan list is taken up after it,
      and the unchanged log where the full one stands there, or at its end. */
  lemma ResumePositions(env: Env, conf: Conf, cman: seq<Sbuf>, p1: seq<Sbuf>, pf: Platform, uc: OnDisk, x: nat, e: Sbuf)
    requires Sorted(p1) && AllSent(pf, p1) && AllSent(pf, cman)
    requires x < |p1| && P2Item(env, conf, cman, p1[x]) == [e] && uc.entries <= UnchangedOf(conf, cman, p1)
    ensures Forwarded(OnDisk(p1, false), Some(e), false) == Position(x + 1, false)
    ensures var u := |UnchangedOf(conf, cman, p1[..x])|;
            Stop(uc.entries, Some(e)) == if u <= |uc.entries| then u else |uc.entries|
  {
    hide P2Of, UnchangedOf, P2Item, UnchangedItem, Stop;
    SplitLogs(env, conf, cman, p1, x, e);
    ItemKeys(env, conf, cman, p1[x]);
    assert e in P2Item(env, conf, cman, p1[x]);
    assert Sends(pf, p1[x]) && Sends(pf, e);
    BeforeTotal(KeyOf(e), KeyOf(e));
    StopByKey(pf, p1, e, x);
    LogsSent(env, conf, cman, pf, p1);
    var ua, ub := UnchangedOf(conf, cman, p1[..x]), UnchangedOf(conf, cman, p1[x + 1..]);
    var u := if |ua| <= |uc.entries| then |ua| else |uc.entries|;
    assert forall k :: 0 <= k < |uc.entries| ==> uc.entries[k] == (ua + ub)[k];
    forall k | 0 <= k < u ensures Before(KeyOf(uc.entries[k]), KeyOf(e)) { assert uc.entries[k] == ua[k]; }
    if u < |uc.entries| {
      assert uc.entries[u] == ub[0] && ub[0] in ub;
      BeforeTotal(KeyOf(e), KeyOf(ub[0]));
    }
    StopByKey(pf, uc.entries, e, u);
  }

  /** With at least one whole phase 2 record on disk, a resumed run ends as if it
      had never been cut, if and only if the unchanged log reached that far. */
  lemma ResumeExact(env: Env, conf: Conf, cman: seq<Sbuf>, p1: seq<Sbuf>, pf: Platform, p2: OnDisk, uc: OnDisk)
    returns (x: nat)
    requires Sorted(p1) && AllSent(pf, p1) && AllSent(pf, cman)
    requires CutShort(env, conf, cman, p1, p2, uc) && p2.entries != []
    ensures x < |p1| && P2Item(env, conf, cman, p1[x]) == [p2.entries[|p2.entries| - 1]]
    ensures AsIfNeverCut(env, conf, cman, p1, p2, uc) <==> UnchangedReaches(uc, UnchangedOf(conf, cman, p1[..x]))
  {
    hide P2Of, UnchangedOf, P2Item, UnchangedItem, Stop;
    var j := |p2.entries| - 1;
    var e := p2.entries[j];
    var full := P2Of(env, conf, cman, p1);
    assert e == full[j] && e in full;
    x := Source(env, conf, cman, p1, e);
    SplitLogs(env, conf, cman, p1, x, e);
    ResumePositions(env, conf, cman, p1, pf, uc, x, e);
    LogKeys(env, conf, cman, p1);
    var pa, pb := P2Of(env, conf, cman, p1[..x]), P2Of(env, conf, cman, p1[x + 1..]);
    assert full[|pa|] == e;
    BeforeTotal(KeyOf(e), KeyOf(e));
    assert j == |pa|;
    assert p2.entries == full[..j + 1] == pa + [e];
    assert Written(p2, Position(|p2.entries|, false), pb).entries == full;
    UnchangedRewritten(UnchangedOf(conf, cman, p1[..x]), UnchangedOf(conf, cman, p1[x + 1..]), uc);
  }

  /** Writing the rest over a log that is a prefix of the full one. */
  lemma UnchangedRewritten(ua: seq<Sbuf>, ub: seq<Sbuf>, uc: OnDisk)
    requires uc.entries <= ua + ub
    ensures var u := if |ua| <= |uc.entries| then |ua| else |uc.entries|;
            (uc.entries[..u] + ub == ua + ub && !(u == |uc.entries| && uc.torn)) <==> UnchangedReaches(uc, ua)
  {
    if |ua| <= |uc.entries| {
      assert uc.entries[..|ua|] == ua;
    } else {
      assert |uc.entries[..|uc.entries|] + ub| < |ua + ub|;
    }
  }

  /** The failing input: a record went to the unchanged log, the one after it to the
      phase 2 log, and only that was on disk when the server died. */
  lemma UnflushedRecordIsLost(env: Env, conf: Conf, cman: seq<Sbuf>, p1: seq<Sbuf>, pf: Platform,
                              p2: OnDisk, uc: OnDisk)
    requires Sorted(p1) && AllSent(pf, p1) && AllSent(pf, cman) && |p1| == 2
    requires ItemFor(conf, cman, p1[0]).Log? && P2Item(env, conf, cman, p1[1]) != []
    requires p2 == OnDisk(P2Of(env, conf, cman, p1), false) && uc == OnDisk([], false)
    ensures CutShort(env, conf, cman, p1, p2, uc) && !AsIfNeverCut(env, conf, cman, p1, p2, uc)
  {
    hide Sorted, AllSent, AsIfNeverCut, ItemFor, Lookup, Silent;
    FirstAdds(env, conf, cman, p1);
    FirstAdds(env, conf, cman, p1[1..]);
    assert p2.entries != [];
    var x := ResumeExact(env, conf, cman, p1, pf, p2, uc);
    assert x == 1 && p1[..1] == [p1[0]];
    FirstAdds(env, conf, cman, p1[..1]);
  }

  /** For instance: `/a` is unchanged and `/b` is new. */
  lemma UnflushedExample(env: Env, conf: Conf, cman: seq<Sbuf>, p1: seq<Sbuf>)
    requires var st := Stat(false, 1, 1, 0);
             && env == Env((c, p) => Answer(false, false, "", ""), (c, p) => [], (p, sig) => [], dp => [],
                           (c, p) => "1", stat => st)
             && conf == Conf(true, false) && cman == [Sbuf(CMD_FILE, "/a", None, Some("0"), "", st, Some("0:"))]
             && p1 == [Sbuf(CMD_FILE, "/a", None, None, "", st, None), Sbuf(CMD_FILE, "/b", None, None, "", st, None)]
    ensures var p2, uc := OnDisk(P2Of(env, conf, cman, p1), false), OnDisk([], false);
            CutShort(env, conf, cman, p1, p2, uc) && !AsIfNeverCut(env, conf, cman, p1, p2, uc)
  {
    hide P2Of, UnchangedOf, AsIfNeverCut;
    UnflushedInput(env, conf, cman, p1);
    UnflushedRecordIsLost(env, conf, cman, p1, Unix, OnDisk(P2Of(env, conf, cman, p1), false), OnDisk([], false));
  }

  lemma UnflushedInput(env: Env, conf: Conf, cman: seq<Sbuf>, p1: seq<Sbuf>)
    requires var st := Stat(false, 1, 1, 0);
             && env == Env((c, p) => Answer(false, false, "", ""), (c, p) => [], (p, sig) => [], dp => [],
                           (c, p) => "1", stat => st)
             && conf == Conf(true, false) && cman == [Sbuf(CMD_FILE, "/a", None, Some("0"), "", st, Some("0:"))]
             && p1 == [Sbuf(CMD_FILE, "/a", None, None, "", st, None), Sbuf(CMD_FILE, "/b", None, None, "", st, None)]
    ensures Sorted(p1) && AllSent(Unix, p1) && AllSent(Unix, cman)
    ensures ItemFor(conf, cman, p1[0]).Log? && P2Item(env, conf, cman, p1[1]) != []
  {
    PathOrder.LcpUnique("/a", "/b", 1);
    LookupIs(cman, 0);
  }

  /** What the first scanned record adds to the logs stands first. */
  lemma FirstAdds(env: Env, conf: Conf, cman: seq<Sbuf>, p1: seq<Sbuf>)
    requires p1 != []
    ensures P2Of(env, conf, cman, p1) == P2Item(env, conf, cman, p1[0]) + P2Of(env, conf, cman, p1[1..])
    ensures UnchangedOf(conf, cman, p1) == UnchangedItem(conf, cman, p1[0]) + UnchangedOf(conf, cman, p1[1..])
  {
    hide P2Of, UnchangedOf, P2Item, UnchangedItem;
    assert p1 == [p1[0]] + p1[1..] && [p1[0]] == [] + [p1[0]];
    LogsAppend(env, conf, cman, [p1[0]], p1[1..]);
    LogsOfNothing(env, conf, cman);
    P2More(env, conf, cman, [], p1[0]);
    assert [] + P2Item(env, conf, cman, p1[0]) == P2Item(env, conf, cman, p1[0]);
    assert [] + UnchangedItem(conf, cman, p1[0]) == UnchangedItem(conf, cman, p1[0]);
  }

  /** With no whole phase 2 record on disk the first scanned record is taken for
      done. The run ends as it should only if that record adds nothing anyway, and
      if no torn record was left at the start of either log. */
  lemma ResumeFromNothing(env: Env, conf: Conf, cman: seq<Sbuf>, p1: seq<Sbuf>, pf: Platform, p2: OnDisk, uc: OnDisk)
    requires CutShort(env, conf, cman, p1, p2, uc) && p2.entries == []
    ensures AsIfNeverCut(env, conf, cman, p1, p2, uc) <==>
            !p2.torn && !(uc.entries == [] && uc.torn) && (p1 == [] || Silent(env, conf, cman, p1[0]))
  {
    hide P2Of, UnchangedOf, P2Item, UnchangedItem, Silent;
    assert Stop(p1, None) == 0 && Stop(uc.entries, None) == 0;
    assert uc.entries[..0] == [];
    if p1 == [] {
      LogsOfNothing(env, conf, cman);
    } else {
      FirstAdds(env, conf, cman, p1);
      ItemKeys(env, conf, cman, p1[0]);
      NothingAdded(P2Item(env, conf, cman, p1[0]), P2Of(env, conf, cman, p1[1..]));
      NothingAdded(UnchangedItem(conf, cman, p1[0]), UnchangedOf(conf, cman, p1[1..]));
    }
  }

  lemma NothingAdded(item: seq<Sbuf>, rest: seq<Sbuf>)
    ensures item + rest == rest <==> item == []
    ensures [] + rest == rest
  {
    assert |item + rest| == |item| + |rest|;
  }

  // ----- From one run to the next -----

  /** Whatever a running phase 2 has written, and however much of it a crash leaves
      on disk, is the beginning of what a full run writes. */
  lemma WhatACrashLeaves(s: Phase2Server, p2: OnDisk, uc: OnDisk)
    requires s.Inv() && p2.entries <= s.p2 && uc.entries <= s.uc
    ensures CutShort(s.env, s.conf, s.cman, s.p1, p2, uc)
  {
    hide Phase2Server.Inv;
    PrefixAnswered(s);
    PrefixesOfAll(s.env, s.conf, s.cman, s.p1, s.n, s.p2, s.uc);
  }

  lemma PrefixesOfAll(env: Env, conf: Conf, cman: seq<Sbuf>, p1: seq<Sbuf>, n: nat, p2: seq<Sbuf>, uc: seq<Sbuf>)
    requires n <= |p1| && p2 <= P2Of(env, conf, cman, p1[..n]) && uc <= UnchangedOf(conf, cman, p1[..n])
    ensures p2 <= P2Of(env, conf, cman, p1) && uc <= UnchangedOf(conf, cman, p1)
  {
    hide P2Of, UnchangedOf;
    assert p1 == p1[..n] + p1[n..];
    LogsAppend(env, conf, cman, p1[..n], p1[n..]);
  }

  lemma PrefixAnswered(s: Phase2Server)
    requires s.Inv()
    ensures s.n <= |s.p1| && s.p2 <= P2Of(s.env, s.conf, s.cman, s.p1[..s.n])
    ensures s.uc == UnchangedOf(s.conf, s.cman, s.p1[..s.n])
  {
    hide RxStep, ClientStep, Files, NoneAhead, Cursor, UnchangedOf, ExpectedAll, RequestsOf, Sorted, AllSent, OldOk;
    var look := Ahead(s.env, s.client.state, s.rb, s.toClient + Unsent(s.pending), s.toServer);
    EntriesPrefix(s.arrived, look.arrivals);
  }

  lemma EntriesPrefix(arr: seq<Arrival>, more: seq<Arrival>)
    ensures Entries(arr) <= Entries(arr + more)
  {
  }

  lemma RestSent(pf: Platform, p1: seq<Sbuf>, at1: nat)
    requires Sorted(p1) && AllSent(pf, p1) && at1 <= |p1|
    ensures Sorted(p1[at1..]) && AllSent(pf, p1[at1..])
  {
    hide Before, Sends;
  }

  /** What is to be done: the same in every attempt. */
  datatype Task = Task(env: Env, conf: Conf, pf: Platform, p1: seq<Sbuf>, cman: seq<Sbuf>, haveManifest: bool) {
    ghost predicate Ok() {
      && Sorted(p1) && Sorted(cman) && AllSent(pf, p1) && AllSent(pf, cman) && OldOk(cman)
      && (!haveManifest ==> cman == [])
    }

    ghost function P2(): seq<Sbuf> { P2Of(env, conf, cman, p1) }

    ghost function Unchanged(): seq<Sbuf> { UnchangedOf(conf, cman, p1) }

    /** What an uninterrupted run leaves. */
    ghost predicate Complete(p2: OnDisk, uc: OnDisk) { p2 == OnDisk(P2(), false) && uc == OnDisk(Unchanged(), false) }

    /** The unchanged log reaches as far as scanned record `x`, the last one answered. */
    ghost predicate Reaches(uc: OnDisk, x: nat)
      requires x < |p1|
    {
      UnchangedReaches(uc, UnchangedOf(conf, cman, p1[..x]))
    }
  }

  lemma P2IsSent(t: Task, p2: OnDisk)
    requires t.Ok() && p2.entries <= t.P2()
    ensures Sorted(p2.entries) && AllSent(t.pf, p2.entries)
  {
    hide P2Of, UnchangedOf, Before, Sends;
    LogKeys(t.env, t.conf, t.cman, t.p1);
    LogsSent(t.env, t.conf, t.cman, t.pf, t.p1);
    assert forall i :: 0 <= i < |p2.entries| ==> p2.entries[i] == t.P2()[i];
  }

  /** The unchanged log when `more` has been written from record `next` on, over what
      stood there: the file is not cut off. */
  function WrittenOver(log: seq<Sbuf>, next: nat, more: seq<Sbuf>): seq<Sbuf>
    requires next <= |log|
  {
    var front := log[..next] + more;
    if |front| < |log| then front + log[|front|..] else front
  }

  /** The logs that a resumed run leaves which has written `p2` and `uc` after the
      positions, and of that so many records whole. */
  function CutAt(old2: OnDisk, oldUc: OnDisk, next: nat, p2: seq<Sbuf>, uc: seq<Sbuf>, k: nat, l: nat,
                 torn2: bool, tornUc: bool): (OnDisk, OnDisk)
    requires next <= |oldUc.entries| && k <= |p2| && l <= |uc|
  {
    (OnDisk(old2.entries + p2[..k], torn2), OnDisk(WrittenOver(oldUc.entries, next, uc[..l]), tornUc))
  }

  /** An interrupted phase 2 taken up: the logs positioned, the rest of the scan list
      run against the old manifest from its start. Once it is done the logs are those
      of a run that was never interrupted, if and only if the unchanged log reached
      as far as the phase 2 log. If it is interrupted again before that, they are again
      what an interrupted run leaves. */
  method ResumePhase2(t: Task, p2: OnDisk, uc: OnDisk, steps: nat)
    returns (done: bool, p2': OnDisk, uc': OnDisk, ghost x: nat)
    requires t.Ok() && p2.entries <= t.P2() && p2.entries != []
    ensures x < |t.p1| && P2Item(t.env, t.conf, t.cman, t.p1[x]) == [p2.entries[|p2.entries| - 1]]
    ensures p2.entries <= p2'.entries <= t.P2()
    ensures done && uc.entries <= t.Unchanged() ==> (t.Complete(p2', uc') <==> t.Reaches(uc, x))
    ensures !done && uc.entries <= t.Unchanged() && t.Reaches(uc, x) ==> uc'.entries <= t.Unchanged()
  {
    P2IsSent(t, p2);
    hide P2Of, UnchangedOf, P2Item, UnchangedReaches, Forwarded, Last, Sorted, AllSent, OldOk;
    hide Phase2Server.Inv, ExpectedAll, RequestsOf, Entries, Files, Unmatched, Passed, AsIfNeverCut;
    var at1, at2, atUc := DoResume(t.pf, t.p1, p2, uc);
    x := WhereItResumes(t, p2, uc, at1, at2, atUc);
    RestSent(t.pf, t.p1, at1);
    var s := new Phase2Server(t.env, t.conf, t.pf, t.p1[at1..], t.cman, t.haveManifest);
    done := RunPhase2(s, steps);
    if done {
      p2', uc' := Written(p2, at2, s.p2), Written(uc, atUc, s.uc);
      Rejoined(t, p2, uc, x, at1, at2, atUc, s.p2, s.uc);
    } else {
      var k: nat, l: nat :| k <= |s.p2| && l <= |s.uc|;
      var torn2: bool, tornUc: bool := *, *;
      var cut := CutAt(p2, uc, atUc.next, s.p2, s.uc, k, l, torn2, tornUc);
      p2', uc' := cut.0, cut.1;
      SoFar(s);
      CutAgain(t, p2, uc, x, atUc.next, s.p2, s.uc, k, l);
    }
  }

  /** The scanned record after which all is taken up. */
  lemma WhereItResumes(t: Task, p2: OnDisk, uc: OnDisk, at1: nat, at2: Position, atUc: Position) returns (x: nat)
    requires t.Ok() && p2.entries <= t.P2() && p2.entries != []
    requires at1 == Forwarded(OnDisk(t.p1, false), Last(p2.entries), false).next
    requires at2 == Position(|p2.entries|, p2.entries == [] && p2.torn)
    requires atUc == Forwarded(uc, Last(p2.entries), true)
    ensures x < |t.p1| && P2Item(t.env, t.conf, t.cman, t.p1[x]) == [p2.entries[|p2.entries| - 1]]
    ensures at1 == x + 1 && at2 == Position(|p2.entries|, false) && atUc.next <= |uc.entries|
    ensures p2.entries + P2Of(t.env, t.conf, t.cman, t.p1[at1..]) == t.P2()
    ensures uc.entries <= t.Unchanged() ==>
              var ua := UnchangedOf(t.conf, t.cman, t.p1[..x]);
              && atUc.next == (if |ua| <= |uc.entries| then |ua| else |uc.entries|)
              && ua + UnchangedOf(t.conf, t.cman, t.p1[at1..]) == t.Unchanged()
              && (t.Reaches(uc, x) ==> uc.entries[..atUc.next] == ua)
              && (AsIfNeverCut(t.env, t.conf, t.cman, t.p1, p2, uc) <==> t.Reaches(uc, x))
  {
    hide P2Of, UnchangedOf, P2Item, UnchangedItem, Stop, AsIfNeverCut, UnchangedReaches;
    var none := OnDisk([], false);
    x := ResumeExact(t.env, t.conf, t.cman, t.p1, t.pf, p2, none);
    ItResumesThere(t, p2, x);
    if uc.entries <= t.Unchanged() {
      var y := ResumeExact(t.env, t.conf, t.cman, t.p1, t.pf, p2, uc);
      OneSource(t, x, y, p2.entries[|p2.entries| - 1]);
      ResumePositions(t.env, t.conf, t.cman, t.p1, t.pf, uc, x, p2.entries[|p2.entries| - 1]);
      SplitLogs(t.env, t.conf, t.cman, t.p1, x, p2.entries[|p2.entries| - 1]);
      ReachedPart(UnchangedOf(t.conf, t.cman, t.p1[..x]), UnchangedOf(t.conf, t.cman, t.p1[x + 1..]), uc);
    }
  }

  lemma ReachedPart(ua: seq<Sbuf>, ub: seq<Sbuf>, uc: OnDisk)
    requires uc.entries <= ua + ub
    ensures UnchangedReaches(uc, ua) ==> |ua| <= |uc.entries| && uc.entries[..|ua|] == ua
  {
  }

  /** Only one scanned record has that answer. */
  lemma OneSource(t: Task, x: nat, y: nat, e: Sbuf)
    requires t.Ok() && x < |t.p1| && y < |t.p1|
    requires P2Item(t.env, t.conf, t.cman, t.p1[x]) == [e] && P2Item(t.env, t.conf, t.cman, t.p1[y]) == [e]
    ensures x == y
  {
    hide P2Of, UnchangedOf, P2Item, UnchangedItem;
    SplitLogs(t.env, t.conf, t.cman, t.p1, x, e);
    SplitLogs(t.env, t.conf, t.cman, t.p1, y, e);
    BeforeTotal(KeyOf(e), KeyOf(e));
  }

  lemma ItResumesThere(t: Task, p2: OnDisk, x: nat)
    requires t.Ok() && p2.entries <= t.P2() && p2.entries != [] && x < |t.p1|
    requires P2Item(t.env, t.conf, t.cman, t.p1[x]) == [p2.entries[|p2.entries| - 1]]
    ensures Forwarded(OnDisk(t.p1, false), Last(p2.entries), false) == Position(x + 1, false)
    ensures p2.entries + P2Of(t.env, t.conf, t.cman, t.p1[x + 1..]) == t.P2()
  {
    hide P2Of, UnchangedOf, P2Item, UnchangedItem, Stop;
    var j := |p2.entries| - 1;
    var e, full := p2.entries[j], t.P2();
    ResumePositions(t.env, t.conf, t.cman, t.p1, t.pf, OnDisk([], false), x, e);
    SplitLogs(t.env, t.conf, t.cman, t.p1, x, e);
    LogKeys(t.env, t.conf, t.cman, t.p1);
    var pa := P2Of(t.env, t.conf, t.cman, t.p1[..x]);
    assert full[|pa|] == e == full[j];
    BeforeTotal(KeyOf(e), KeyOf(e));
    assert j == |pa|;
    assert p2.entries == full[..j + 1] == pa + [e];
  }

  /** What a phase 2 that is not done yet has written. */
  lemma SoFar(s: Phase2Server)
    requires s.Inv()
    ensures s.p2 <= P2Of(s.env, s.conf, s.cman, s.p1) && s.uc <= UnchangedOf(s.conf, s.cman, s.p1)
  {
    hide Phase2Server.Inv, P2Of, UnchangedOf;
    WhatACrashLeaves(s, OnDisk(s.p2, false), OnDisk(s.uc, false));
  }

  lemma CutAgain(t: Task, p2: OnDisk, uc: OnDisk, x: nat, next: nat, p2more: seq<Sbuf>, ucMore: seq<Sbuf>,
                 k: nat, l: nat)
    requires k <= |p2more| && l <= |ucMore| && next <= |uc.entries| && x < |t.p1|
    requires p2.entries + P2Of(t.env, t.conf, t.cman, t.p1[x + 1..]) == t.P2()
    requires p2more <= P2Of(t.env, t.conf, t.cman, t.p1[x + 1..])
    requires ucMore <= UnchangedOf(t.conf, t.cman, t.p1[x + 1..])
    ensures p2.entries + p2more[..k] <= t.P2()
    ensures (uc.entries <= t.Unchanged() &&
             uc.entries[..next] + UnchangedOf(t.conf, t.cman, t.p1[x + 1..]) == t.Unchanged() ==>
               WrittenOver(uc.entries, next, ucMore[..l]) <= t.Unchanged())
  {
    hide P2Of, UnchangedOf;
    var rest, all := P2Of(t.env, t.conf, t.cman, t.p1[x + 1..]), t.P2();
    assert p2more[..k] == rest[..k];
    assert p2.entries + rest[..k] == all[..|p2.entries| + k];
    var ub, un := UnchangedOf(t.conf, t.cman, t.p1[x + 1..]), t.Unchanged();
    assert ucMore[..l] == ub[..l];
    if uc.entries <= un && uc.entries[..next] + ub == un {
      assert uc.entries[..next] + ub[..l] == un[..next + l];
      if next + l < |uc.entries| { assert un[..next + l] + uc.entries[next + l..] == uc.entries; }
    }
  }

  lemma Rejoined(t: Task, p2: OnDisk, uc: OnDisk, x: nat, at1: nat, at2: Position, atUc: Position,
                 p2more: seq<Sbuf>, ucMore: seq<Sbuf>)
    requires x < |t.p1| && atUc.next <= |uc.entries| && at2 == Position(|p2.entries|, false) && p2.entries != []
    requires at1 == Forwarded(OnDisk(t.p1, false), Last(p2.entries), false).next == x + 1
    requires atUc == Forwarded(uc, Last(p2.entries), true)
    requires p2.entries + P2Of(t.env, t.conf, t.cman, t.p1[at1..]) == t.P2()
    requires ucMore == UnchangedOf(t.conf, t.cman, t.p1[at1..])
    requires p2more == Entries(ExpectedAll(t.env, RequestsOf(t.conf, t.cman, t.p1[at1..])))
    ensures p2.entries <= Written(p2, at2, p2more).entries <= t.P2()
    ensures t.Complete(Written(p2, at2, p2more), Written(uc, atUc, ucMore)) <==>
            AsIfNeverCut(t.env, t.conf, t.cman, t.p1, p2, uc)
  {
    hide UnchangedOf, RequestsOf, ExpectedAll, Entries, Forwarded, Last;
  }

  /** A phase 2 that is interrupted again and again, until it is done or no attempt is
      left. If the unchanged log reached far enough each time, the logs are those of a
      run that was never interrupted. */
  method ResumeAgain(t: Task, p2: OnDisk, uc: OnDisk, steps: seq<nat>)
    returns (done: bool, p2': OnDisk, uc': OnDisk, ghost reached: bool)
    requires t.Ok() && CutShort(t.env, t.conf, t.cman, t.p1, p2, uc) && p2.entries != []
    ensures p2.entries <= p2'.entries <= t.P2()
    ensures done && reached ==> t.Complete(p2', uc')
    ensures !done && reached ==> CutShort(t.env, t.conf, t.cman, t.p1, p2', uc')
  {
    hide P2Of, UnchangedOf, P2Item, Task.Complete, Task.Ok, Task.Reaches;
    done, p2', uc', reached := false, p2, uc, true;
    for i := 0 to |steps|
      invariant !done && p2.entries <= p2'.entries <= t.P2()
      invariant reached ==> uc'.entries <= t.Unchanged()
    {
      ghost var before := uc';
      ghost var x;
      done, p2', uc', x := ResumePhase2(t, p2', uc', steps[i]);
      reached := reached && t.Reaches(before, x);
      if done { return; }
    }
  }
}
