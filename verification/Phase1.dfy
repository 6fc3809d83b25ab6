/** All of phase 1 on the client: the scans from the start points, one after the other,
    and the list of records they give (src/backup_phase1_client.c). */
module Phase1 {
  import opened Wrappers
  import opened PathOrder
  import opened Records
  import opened IncExc
  import opened StartPoints
  import opened ScanRules
  import opened Scan
  import opened ScanRises
  import opened ScanOrder

  function AllVisited(conf: Config, starts: seq<string>): seq<Visit> {
    if starts == [] then []
    else
      var n := |starts| - 1;
      AllVisited(conf, starts[..n]) + VisitedAtStart(conf, starts[n])
  }

  function VisitedAtStart(conf: Config, start: string): seq<Visit> {
    Visited(conf, conf.lstat(start), start, 0xFFFF_FFFF_FFFF_FFFF, true)
  }

  /** All scans together look at paths in strictly increasing order. */
  lemma AllVisitedRise(conf: Config)
    requires DiskOk(conf) && Accepted(conf.rules) && Orderly(conf.rules)
    ensures PathsRise(AllVisited(conf, Starts(conf.rules)))
  {
    hide DiskOk, Accepted, Orderly;
    var starts := Starts(conf.rules);
    assert starts[..|starts|] == starts;
    FirstRise(conf, |starts|);
  }

  lemma {:induction false} FirstRise(conf: Config, n: nat)
    requires DiskOk(conf) && Accepted(conf.rules) && Orderly(conf.rules) && n <= |Starts(conf.rules)|
    ensures PathsRise(AllVisited(conf, Starts(conf.rules)[..n]))
    ensures forall v :: v in AllVisited(conf, Starts(conf.rules)[..n]) ==>
              exists i :: 0 <= i < n && Through(conf.rules, Starts(conf.rules)[i], v.path)
    decreases n
  {
    hide PathCmp, Through, VisitedAtStart, DiskOk, Accepted, Orderly, Starts;
    var starts := Starts(conf.rules);
    if n > 0 {
      FirstRise(conf, n - 1);
      OneStartRises(conf, starts[n - 1]);
      assert starts[..n][..n - 1] == starts[..n - 1];
      var before, after := AllVisited(conf, starts[..n - 1]), VisitedAtStart(conf, starts[n - 1]);
      forall x, y | 0 <= x < |before| && 0 <= y < |after| ensures PathCmp(before[x].path, after[y].path) < 0 {
        assert before[x] in before && after[y] in after;
        var i :| 0 <= i < n - 1 && Through(conf.rules, starts[i], before[x].path);
        StartsInOrder(conf.rules, i, n - 1, before[x].path, after[y].path);
      }
    }
  }

  lemma OneStartRises(conf: Config, start: string)
    requires DiskOk(conf) && Accepted(conf.rules) && Orderly(conf.rules) && start in Starts(conf.rules)
    ensures PathsRise(VisitedAtStart(conf, start))
    ensures forall v :: v in VisitedAtStart(conf, start) ==> Through(conf.rules, start, v.path)
  {
    hide Through, Visited, DiskOk, Accepted, Orderly, Starts;
    ComesToStart(conf.rules, start);
    ShownIsOk(conf, start);
    VisitedRise(conf, conf.lstat(start), start, 0xFFFF_FFFF_FFFF_FFFF, true);
  }

  lemma StartsInOrder(rules: seq<Rule>, i: nat, j: nat, v: string, w: string)
    requires Accepted(rules) && Orderly(rules) && i < j < |Starts(rules)|
    requires Through(rules, Starts(rules)[i], v) && Through(rules, Starts(rules)[j], w)
    ensures PathCmp(v, w) < 0
  {
    hide PathCmp, Through, Starts, Covers, Overtakes, Within, RulesSorted, RulesOk, Comes;
    StartsCover(rules);
    var k := StartIsRule(rules, Starts(rules)[j]);
    Between(rules, Starts(rules)[i], k, v, w);
  }

  /** `backup_phase1_client`: the list that the server gets is everything the scans come
      to, and strictly sorted if the rules are orderly, unless soft links are sent the
      wrong way round. */
  method BackupPhase1Client(conf: Config, starts: seq<string>) returns (sent: seq<Sbuf>)
    requires Accepted(conf.rules) && DiskOk(conf) && starts == Starts(conf.rules)
    ensures sent == Emitted(conf, AllVisited(conf, starts))
    ensures AllSent(Unix, sent) && forall e :: e in sent ==> e.datapth.None?
    ensures Orderly(conf.rules) && !conf.earlyMeta ==> Sorted(sent)
  {
    hide Emitted, Visited, Accepted, DiskOk, Orderly, Starts, EarlyMeta;
    var ff := new Scanner(conf);
    for sd := 0 to |starts|
      invariant fresh(ff) && ff.Valid() && ff.conf == conf
      invariant ff.visits == AllVisited(conf, starts[..sd])
    {
      assert starts[..sd + 1][..sd] == starts[..sd];
      ff.FindFiles(conf.lstat(starts[sd]), starts[sd], 0xFFFF_FFFF_FFFF_FFFF, true);
    }
    assert starts[..|starts|] == starts;
    sent := ff.sent;
    EmittedSent(conf, AllVisited(conf, starts));
    if Orderly(conf.rules) && !conf.earlyMeta { ListIsSorted(conf); }
  }

  lemma ListIsSorted(conf: Config)
    requires Accepted(conf.rules) && DiskOk(conf) && Orderly(conf.rules) && !conf.earlyMeta
    ensures Sorted(Emitted(conf, AllVisited(conf, Starts(conf.rules))))
  {
    hide Emitted, DiskOk, Orderly, Accepted, Starts;
    AllVisitedRise(conf);
    EmittedSortedExactly(conf, AllVisited(conf, Starts(conf.rules)));
  }
}
