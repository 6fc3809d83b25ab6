/** Rules that are not orderly have a client whose list is not sorted: the scan comes
    to something too late or twice. */
module Overlaps {
  import opened Wrappers
  import opened PathOrder
  import opened Records
  import opened IncExc
  import opened StartPoints
  import opened ScanRules
  import opened Scan
  import opened ScanRises
  import opened ScanOrder
  import opened Phase1
  import opened Disk

  /** Whatever is on the client's disk, and whatever its extensions and expressions
      leave out. */
  ghost predicate AlwaysSorted(rules: seq<Rule>) {
    forall conf: Config, root: Node :: conf.rules == rules && !conf.earlyMeta && OnDisk(conf, root) ==>
      Sorted(Emitted(conf, AllVisited(conf, Starts(rules))))
  }

  // ----- One record after another -----

  ghost predicate Precedes(vs: seq<Visit>, v: Visit, w: Visit) {
    exists x, y :: 0 <= x < y < |vs| && vs[x] == v && vs[y] == w
  }

  lemma PrecedesWithin(a: seq<Visit>, b: seq<Visit>, c: seq<Visit>, v: Visit, w: Visit)
    requires Precedes(b, v, w)
    ensures Precedes(a + b + c, v, w)
  {
    var x, y :| 0 <= x < y < |b| && b[x] == v && b[y] == w;
    var vs := a + b + c;
    assert vs[|a| + x] == v && vs[|a| + y] == w;
  }

  lemma PrecedesAcross(a: seq<Visit>, b: seq<Visit>, v: Visit, w: Visit)
    requires v in a && w in b
    ensures Precedes(a + b, v, w)
  {
    var x :| 0 <= x < |a| && a[x] == v;
    var y :| 0 <= y < |b| && b[y] == w;
    var vs := a + b;
    assert vs[x] == v && vs[|a| + y] == w;
  }

  lemma {:induction false} EntryLift(conf: Config, dir: Node, kids: seq<Entry>, e: Entry, fname: string,
                                     v: Visit, w: Visit)
    requires dir.what.Directory? && (forall e :: e in kids ==> e in dir.what.entries) && e in kids
    requires Precedes(VisitedAt(conf, dir, e, fname), v, w)
    ensures Precedes(VisitedIn(conf, dir, kids, fname), v, w)
  {
    hide VisitedAt, Precedes;
    var n := |kids| - 1;
    var before, last := VisitedIn(conf, dir, kids[..n], fname), VisitedAt(conf, dir, kids[n], fname);
    if e == kids[n] {
      PrecedesWithin(before, last, [], v, w);
      assert before + last + [] == before + last;
    } else {
      var i :| 0 <= i < |kids| && kids[i] == e;
      assert kids[..n][i] == e;
      EntryLift(conf, dir, kids[..n], e, fname, v, w);
      PrecedesWithin([], before, last, v, w);
      assert [] + before + last == before + last;
    }
  }

  // ----- A client with all files -----

  /** Its tree is full, and nothing but the rules and `omits` keeps a file out. */
  ghost predicate FullClient(conf: Config, names: seq<Name>, k: nat) {
    && Distinct(names) && OnDisk(conf, Full(names, k)) && !conf.earlyMeta && !conf.encrypted
    && (forall path :: conf.ext(path))
  }

  predicate Fits(names: seq<Name>, k: nat, path: string) {
    |Parts(path)| < k && forall x :: x in Parts(path) ==> x in names
  }

  /** What is at a path that fits. */
  function At(names: seq<Name>, k: nat, path: string): Node
    requires Fits(names, k, path)
  {
    Full(names, k - |Parts(path)|)
  }

  lemma ShownAt(conf: Config, names: seq<Name>, k: nat, path: string)
    requires FullClient(conf, names, k) && Fits(names, k, path)
    ensures conf.lstat(path) == At(names, k, path)
  {
    hide Parts, Full, Lookup, TreeOk;
    LookupFull(names, k, Parts(path));
  }

  lemma EntryFits(names: seq<Name>, k: nat, dir: string, name: Name)
    requires Fits(names, k, dir) && |Parts(dir)| + 1 < k && name in names && !Dots(name)
    ensures Fits(names, k, EntryPath(dir, name))
    ensures var node := At(names, k, dir);
            Entry(name, At(names, k, EntryPath(dir, name))) in Children(node.what.entries)
  {
    hide Parts, EntryPath, Dots, Children;
    EntryParts(dir, name);
    var m := k - |Parts(dir)|;
    var i :| 0 <= i < |names| && names[i] == name;
    var es := Entries(names, Full(names, m - 1));
    assert es[i] in es;
    assert At(names, k, dir).what.entries == es;
  }

  lemma DirLift(conf: Config, names: seq<Name>, k: nat, dir: string, name: Name, dev: bv64, top: bool,
                v: Visit, w: Visit)
    requires FullClient(conf, names, k) && Fits(names, k, dir) && |Parts(dir)| + 1 < k
    requires name in names && !Dots(name) && (top || dev == 0)
    requires Fits(names, k, EntryPath(dir, name))
    requires var e := Entry(name, At(names, k, EntryPath(dir, name)));
             At(names, k, dir).what.Directory? && e in At(names, k, dir).what.entries &&
             Precedes(VisitedAt(conf, At(names, k, dir), e, dir), v, w)
    ensures Precedes(Visited(conf, At(names, k, dir), dir, dev, top), v, w)
  {
    hide Parts, EntryPath, Dots, Children, Precedes, VisitedAt, VisitedIn, Base, Deeper, Fits;
    var node, e := At(names, k, dir), Entry(name, At(names, k, EntryPath(dir, name)));
    EntryFits(names, k, dir, name);
    var kids := Children(node.what.entries);
    EntryLift(conf, node, kids, e, dir, v, w);
    FullDescends(conf, names, k - |Parts(dir)|, dir, dev, top);
    PrecedesWithin([Visit(dir, node, top)], VisitedIn(conf, node, kids, dir), [], v, w);
    assert [Visit(dir, node, top)] + VisitedIn(conf, node, kids, dir) + [] ==
           [Visit(dir, node, top)] + VisitedIn(conf, node, kids, dir);
  }

  lemma FullDescends(conf: Config, names: seq<Name>, k: nat, dir: string, dev: bv64, top: bool)
    requires top || dev == 0
    ensures Descends(conf, Full(names, k), dir, dev, top) && Full(names, k).dev == 0
  {
  }

  lemma {:induction false} JumpLift(conf: Config, dir: Node, name: Name, js: seq<nat>, fname: string, i: nat,
                                    v: Visit, w: Visit)
    requires forall k :: 0 <= k < |js| ==>
               js[k] < |conf.rules| && Within(EntryPath(fname, name), conf.rules[js[k]].path)
    requires i < |js| && Precedes(VisitedFrom(conf, conf.rules[js[i]].path, dir.dev), v, w)
    ensures Precedes(VisitedByRules(conf, dir, name, js, fname), v, w)
    decreases |js|
  {
    hide Within, EntryPath, Base, Deeper, Visited, Precedes;
    var n := |js| - 1;
    var before, last := VisitedByRules(conf, dir, name, js[..n], fname),
                        VisitedFrom(conf, conf.rules[js[n]].path, dir.dev);
    if i == n {
      PrecedesWithin(before, last, [], v, w);
      assert before + last + [] == before + last;
    } else {
      assert js[..n][i] == js[i];
      JumpLift(conf, dir, name, js[..n], fname, i, v, w);
      PrecedesWithin([], before, last, v, w);
      assert [] + before + last == before + last;
    }
  }

  /** What the first of two rules gives stands before what the second gives. */
  lemma {:induction false} JumpAcross(conf: Config, dir: Node, name: Name, js: seq<nat>, fname: string,
                                      a: nat, b: nat, v: Visit, w: Visit)
    requires forall k :: 0 <= k < |js| ==>
               js[k] < |conf.rules| && Within(EntryPath(fname, name), conf.rules[js[k]].path)
    requires a < b < |js|
    requires v in VisitedFrom(conf, conf.rules[js[a]].path, dir.dev)
    requires w in VisitedFrom(conf, conf.rules[js[b]].path, dir.dev)
    ensures Precedes(VisitedByRules(conf, dir, name, js, fname), v, w)
    decreases |js|
  {
    hide Within, EntryPath, Base, Deeper, Visited, Precedes;
    var n := |js| - 1;
    var before, last := VisitedByRules(conf, dir, name, js[..n], fname),
                        VisitedFrom(conf, conf.rules[js[n]].path, dir.dev);
    assert js[..n][a] == js[a];
    if b < n {
      assert js[..n][b] == js[b];
      JumpAcross(conf, dir, name, js[..n], fname, a, b, v, w);
      PrecedesWithin([], before, last, v, w);
      assert [] + before + last == before + last;
    } else {
      InVisitedByRules(conf, dir, name, js[..n], fname, v);
      PrecedesAcross(before, last, v, w);
    }
  }

  // ----- Along a walk -----

  /** What a walk's client has to leave out: the entries that it goes on from to an
      included path in them. */
  ghost function Links(rules: seq<Rule>, start: string, steps: seq<Step>): (links: set<string>)
    decreases |steps|
  {
    if steps == [] then {}
    else
      var n := |steps| - 1;
      var dir := RuleWalk(rules, start, steps[..n]);
      Links(rules, start, steps[..n]) +
      if steps[n].Reach? && dir.Some? then {EntryPath(dir.value, steps[n].name)} else {}
  }

  lemma {:induction false} LinksAreShort(rules: seq<Rule>, start: string, steps: seq<Step>)
    requires RuleWalk(rules, start, steps).Some?
    ensures forall x :: x in Links(rules, start, steps) ==> |Base(x)| <= |Base(RuleWalk(rules, start, steps).value)|
    decreases |steps|
  {
    hide Included, Nested, Within, Base, EntryPath;
    if steps != [] {
      var n := |steps| - 1;
      LinksAreShort(rules, start, steps[..n]);
      StepIsLonger(rules, start, steps);
    }
  }

  lemma StepIsLonger(rules: seq<Rule>, start: string, steps: seq<Step>)
    requires steps != [] && RuleWalk(rules, start, steps).Some?
    ensures var n := |steps| - 1;
            var dir := RuleWalk(rules, start, steps[..n]).value;
            var link := EntryPath(dir, steps[n].name);
            |Base(dir)| < |Base(link)| <= |Base(RuleWalk(rules, start, steps).value)|
  {
    hide Included, Nested, Within, Base, EntryPath;
    var n := |steps| - 1;
    var dir := RuleWalk(rules, start, steps[..n]).value;
    var link := EntryPath(dir, steps[n].name);
    SamePath(link);
    LongerBase(dir, steps[n].name, link);
    if steps[n].Reach? { WithinBase(link, rules[steps[n].rule].path); }
  }

  /** The client leaves out the walk's links, and else nothing but what is longer. */
  ghost predicate LeavesOut(conf: Config, start: string, steps: seq<Step>)
    requires RuleWalk(conf.rules, start, steps).Some?
  {
    && (forall x :: x in Links(conf.rules, start, steps) ==> conf.omits(x))
    && (forall x :: conf.omits(x) && x !in Links(conf.rules, start, steps) ==>
          |Base(x)| > |Base(RuleWalk(conf.rules, start, steps).value)|)
  }

  lemma LeavesOutBefore(conf: Config, start: string, steps: seq<Step>)
    requires steps != [] && RuleWalk(conf.rules, start, steps).Some? && LeavesOut(conf, start, steps)
    ensures var n := |steps| - 1;
            LeavesOut(conf, start, steps[..n]) &&
            var link := EntryPath(RuleWalk(conf.rules, start, steps[..n]).value, steps[n].name);
            conf.Scans(link) <==> steps[n].Enter?
  {
    hide Included, Nested, Within, Base, EntryPath;
    var n := |steps| - 1;
    StepIsLonger(conf.rules, start, steps);
    LinksAreShort(conf.rules, start, steps[..n]);
  }

  /** All names in the rules' paths. */
  function RuleParts(rules: seq<Rule>): seq<Name> {
    if rules == [] then [] else Parts(rules[0].path) + RuleParts(rules[1..])
  }

  lemma {:induction false} PartsAreThere(rules: seq<Rule>, j: nat)
    requires j < |rules|
    ensures |Parts(rules[j].path)| <= |RuleParts(rules)|
    ensures forall x :: x in Parts(rules[j].path) ==> x in RuleParts(rules)
  {
    hide Parts;
    if j > 0 { PartsAreThere(rules[1..], j - 1); }
  }

  ghost predicate Enough(rules: seq<Rule>, steps: seq<Step>, names: seq<Name>, k: nat) {
    && |RuleParts(rules)| + |steps| < k
    && (forall x :: x in RuleParts(rules) ==> x in names)
    && (forall i :: 0 <= i < |steps| ==> steps[i].name in names)
  }

  lemma RuleFits(rules: seq<Rule>, steps: seq<Step>, names: seq<Name>, k: nat, j: nat)
    requires j < |rules| && Enough(rules, steps, names, k)
    ensures Fits(names, k, rules[j].path) && |Parts(rules[j].path)| + |steps| < k
  {
    hide Parts, RuleParts;
    PartsAreThere(rules, j);
  }

  lemma {:induction false} WalkFits(rules: seq<Rule>, start: string, steps: seq<Step>, names: seq<Name>, k: nat)
    requires RulesSorted(rules) && start in Starts(rules) && RuleWalk(rules, start, steps).Some?
    requires Enough(rules, steps, names, k)
    ensures var dir := RuleWalk(rules, start, steps).value;
            Fits(names, k, dir) && |Parts(dir)| <= |RuleParts(rules)| + |steps|
    decreases |steps|
  {
    hide Included, Nested, Within, Base, EntryPath, Parts, RuleParts, RulesSorted, Starts;
    if steps == [] {
      var i := StartIsRule(rules, start);
      RuleFits(rules, steps, names, k, i);
      PartsAreThere(rules, i);
    } else {
      var n := |steps| - 1;
      assert forall i :: 0 <= i < n ==> steps[..n][i] == steps[i];
      WalkFits(rules, start, steps[..n], names, k);
      var dir := RuleWalk(rules, start, steps[..n]).value;
      if steps[n].Enter? {
        EntryParts(dir, steps[n].name);
      } else {
        PartsAreThere(rules, steps[n].rule);
      }
    }
  }

  /** The scan of a path, from where a walk of so many steps has led. */
  function ScanOf(conf: Config, path: string, steps: nat): seq<Visit> {
    if steps == 0 then VisitedAtStart(conf, path) else VisitedFrom(conf, path, 0)
  }

  lemma ScanLift(conf: Config, names: seq<Name>, k: nat, dir: string, name: Name, steps: nat, v: Visit, w: Visit)
    requires FullClient(conf, names, k) && Fits(names, k, dir) && |Parts(dir)| + 1 < k
    requires name in names && !Dots(name) && Fits(names, k, EntryPath(dir, name))
    requires var e := Entry(name, At(names, k, EntryPath(dir, name)));
             At(names, k, dir).what.Directory? && e in At(names, k, dir).what.entries &&
             Precedes(VisitedAt(conf, At(names, k, dir), e, dir), v, w)
    ensures Precedes(ScanOf(conf, dir, steps), v, w)
  {
    hide Parts, EntryPath, Dots, Precedes, VisitedAt, Visited, Fits, FullClient, At;
    ShownAt(conf, names, k, dir);
    if steps == 0 {
      DirLift(conf, names, k, dir, name, 0xFFFF_FFFF_FFFF_FFFF, true, v, w);
    } else {
      DirLift(conf, names, k, dir, name, 0, false, v, w);
    }
  }

  /** What the entry of a full directory gives. */
  lemma AtEntry(conf: Config, names: seq<Name>, k: nat, dir: string, name: Name)
    requires FullClient(conf, names, k) && Fits(names, k, dir) && |Parts(dir)| + 1 < k
    requires name in names && !Dots(name) && Accepted(conf.rules)
    ensures Fits(names, k, EntryPath(dir, name))
    ensures var link := EntryPath(dir, name);
            var node, e := At(names, k, dir), Entry(name, At(names, k, link));
            node.what.Directory? && e in node.what.entries && node.dev == 0 &&
            (conf.Scans(link) ==> VisitedAt(conf, node, e, dir) == VisitedFrom(conf, link, 0)) &&
            (!conf.Scans(link) ==>
               VisitedAt(conf, node, e, dir) == VisitedByRules(conf, node, name, Jumps(conf.rules, link, 0), dir))
  {
    hide Parts, EntryPath, Dots, Children, VisitedByRules, Visited, FullClient, Fits, Jumps, Full, Base, Deeper;
    EntryFits(names, k, dir, name);
    ShownAt(conf, names, k, EntryPath(dir, name));
    FullDescends(conf, names, k - |Parts(dir)|, dir, 0, true);
  }

  lemma StepLift(conf: Config, names: seq<Name>, k: nat, start: string, steps: seq<Step>, v: Visit, w: Visit)
    requires FullClient(conf, names, k) && Accepted(conf.rules) && start in Starts(conf.rules)
    requires steps != [] && RuleWalk(conf.rules, start, steps).Some? && Enough(conf.rules, steps, names, k)
    requires LeavesOut(conf, start, steps)
    requires Precedes(ScanOf(conf, RuleWalk(conf.rules, start, steps).value, |steps|), v, w)
    ensures Precedes(ScanOf(conf, RuleWalk(conf.rules, start, steps[..|steps| - 1]).value, |steps| - 1), v, w)
  {
    hide Parts, EntryPath, Precedes, VisitedAt, VisitedFrom, FullClient, Fits, At, Starts, Chosen, Within;
    hide Jumps, RuleParts, LeavesOut, RulesSorted, RulesOk, VisitedByRules, VisitedAtStart, Included, Dots;
    hide Config.Scans;
    var rules, n, step := conf.rules, |steps| - 1, steps[|steps| - 1];
    assert forall i :: 0 <= i < n ==> steps[..n][i] == steps[i];
    WalkFits(rules, start, steps[..n], names, k);
    LeavesOutBefore(conf, start, steps);
    var dir := RuleWalk(rules, start, steps[..n]).value;
    var link := EntryPath(dir, step.name);
    AtEntry(conf, names, k, dir, step.name);
    var node := At(names, k, dir);
    if step.Reach? {
      var js := Jumps(rules, link, 0);
      JumpsExactly(rules, link, 0, step.rule);
      var i :| 0 <= i < |js| && js[i] == step.rule;
      JumpLift(conf, node, step.name, js, dir, i, v, w);
    }
    ScanLift(conf, names, k, dir, step.name, n, v, w);
  }

  /** What a walk leads to gives is given by the scan of its start point. */
  lemma {:induction false} WalkLift(conf: Config, names: seq<Name>, k: nat, start: string, steps: seq<Step>,
                                    v: Visit, w: Visit)
    requires FullClient(conf, names, k) && Accepted(conf.rules) && start in Starts(conf.rules)
    requires RuleWalk(conf.rules, start, steps).Some? && Enough(conf.rules, steps, names, k)
    requires LeavesOut(conf, start, steps)
    requires Precedes(ScanOf(conf, RuleWalk(conf.rules, start, steps).value, |steps|), v, w)
    ensures Precedes(VisitedAtStart(conf, start), v, w)
    decreases |steps|
  {
    hide Precedes, FullClient, Accepted, Starts, VisitedFrom, VisitedAtStart, LeavesOut, RuleParts, Included, Chosen;
    if steps != [] {
      var n := |steps| - 1;
      StepLift(conf, names, k, start, steps, v, w);
      LeavesOutBefore(conf, start, steps);
      assert forall i :: 0 <= i < n ==> steps[..n][i] == steps[i];
      WalkLift(conf, names, k, start, steps[..n], v, w);
    }
  }

  lemma {:induction false} StartLift(conf: Config, starts: seq<string>, i: nat, v: Visit, w: Visit)
    requires i < |starts| && Precedes(VisitedAtStart(conf, starts[i]), v, w)
    ensures Precedes(AllVisited(conf, starts), v, w)
    decreases |starts|
  {
    hide Precedes, VisitedAtStart;
    var n := |starts| - 1;
    var before, last := AllVisited(conf, starts[..n]), VisitedAtStart(conf, starts[n]);
    if i == n {
      PrecedesWithin(before, last, [], v, w);
      assert before + last + [] == before + last;
    } else {
      StartLift(conf, starts[..n], i, v, w);
      PrecedesWithin([], before, last, v, w);
      assert [] + before + last == before + last;
    }
  }

  lemma {:induction false} StartAcross(conf: Config, starts: seq<string>, a: nat, b: nat, v: Visit, w: Visit)
    requires a < b < |starts| && v in VisitedAtStart(conf, starts[a]) && w in VisitedAtStart(conf, starts[b])
    ensures Precedes(AllVisited(conf, starts), v, w)
    decreases |starts|
  {
    hide Precedes, VisitedAtStart;
    var n := |starts| - 1;
    var before, last := AllVisited(conf, starts[..n]), VisitedAtStart(conf, starts[n]);
    if b < n {
      StartAcross(conf, starts[..n], a, b, v, w);
      PrecedesWithin([], before, last, v, w);
      assert [] + before + last == before + last;
    } else {
      InStarts(conf, starts[..n], a, v);
      PrecedesAcross(before, last, v, w);
    }
  }

  lemma {:induction false} InStarts(conf: Config, starts: seq<string>, a: nat, v: Visit)
    requires a < |starts| && v in VisitedAtStart(conf, starts[a])
    ensures v in AllVisited(conf, starts)
    decreases |starts|
  {
    hide VisitedAtStart;
    if a < |starts| - 1 { InStarts(conf, starts[..|starts| - 1], a, v); }
  }

  // ----- What overtakes is come to -----

  /** A path at or after `q` that a scan of `p` can come to: the entry itself, or by one
      of the rules if the entry is left out. */
  lemma Overtaker(rules: seq<Rule>, p: string, name: Name, j: nat) returns (v: string, f: Option<nat>)
    requires Accepted(rules) && j < |rules| && rules[j].included
    requires EntryOvertakes(rules, EntryPath(p, name), rules[j].path)
    requires Within(EntryPath(p, name), rules[j].path) ==> Chosen(rules, EntryPath(p, name), 0, j)
    ensures PathCmp(v, rules[j].path) >= 0
    ensures f.None? ==> v == EntryPath(p, name) && Included(rules, v)
    ensures f.Some? ==> Chosen(rules, EntryPath(p, name), 0, f.value) && v == rules[f.value].path
    ensures f.Some? ==> EntryPath(p, name) != v && EntryPath(p, name) != rules[j].path
  {
    hide RulesSorted, RulesOk, EntryPath, Within, Included, PathCmp, Nested;
    var entry, q := EntryPath(p, name), rules[j].path;
    OkIsNoneRepeated(rules);
    OwnRule(rules, j);
    SamePath(q);
    if Included(rules, entry) && PathCmp(entry, q) >= 0 {
      v, f := entry, None;
    } else {
      if Within(entry, q) {
        v, f := q, Some(j);
      } else {
        var c :| 0 <= c < |rules| && rules[c].included && Within(entry, rules[c].path) &&
                 PathCmp(rules[c].path, q) >= 0;
        var m := FirstPast(rules, p, name, j, c);
        OwnRule(rules, m);
        v, f := rules[m].path, Some(m);
      }
    }
  }

  lemma FirstPast(rules: seq<Rule>, p: string, name: Name, j: nat, c: nat) returns (m: nat)
    requires Accepted(rules) && j < |rules| && c < |rules| && rules[c].included
    requires Within(EntryPath(p, name), rules[c].path) && !Within(EntryPath(p, name), rules[j].path)
    requires PathCmp(rules[c].path, rules[j].path) >= 0
    ensures Chosen(rules, EntryPath(p, name), 0, m) && PathCmp(rules[m].path, rules[j].path) >= 0
    ensures rules[m].path != rules[j].path
  {
    hide RulesSorted, RulesOk, EntryPath, Within, PathCmp, Nested;
    var entry, q := EntryPath(p, name), rules[j].path;
    m := ChainStart(rules, entry, c);
    PathCmpAntisymmetric(rules[m].path, q);
    PathCmpAntisymmetric(rules[c].path, q);
    if PathCmp(rules[m].path, q) < 0 { BetweenOne(entry, rules[m].path, q, rules[c].path); }
  }

  lemma OvertakerVisited(conf: Config, names: seq<Name>, k: nat, p: string, name: Name, v: string, f: Option<nat>,
                         steps: nat)
    requires FullClient(conf, names, k) && Accepted(conf.rules) && Fits(names, k, p) && |Parts(p)| + 1 < k
    requires name in names && !Dots(name)
    requires var link := EntryPath(p, name);
             if f.None? then v == link && conf.Scans(link)
             else Chosen(conf.rules, link, 0, f.value) && v == conf.rules[f.value].path && !conf.Scans(link)
    ensures Visit(v, conf.lstat(v), false) in ScanOf(conf, p, steps)
  {
    hide Parts, EntryPath, Chosen, Within, Fits, FullClient, Included, Children, Base, Deeper, VisitedByRules;
    hide RulesSorted, RulesOk, Jumps, VisitedAt, VisitedIn, Config.Scans, Dots, At;
    var rules, link, visit := conf.rules, EntryPath(p, name), Visit(v, conf.lstat(v), false);
    AtEntry(conf, names, k, p, name);
    EntryFits(names, k, p, name);
    ShownAt(conf, names, k, p);
    var node, e := At(names, k, p), Entry(name, At(names, k, link));
    if f.Some? {
      var js := Jumps(rules, link, 0);
      JumpsExactly(rules, link, 0, f.value);
      var i :| 0 <= i < |js| && js[i] == f.value;
      HeadVisited(conf, v);
      InVisitedByRules(conf, node, name, js, p, visit);
    } else {
      HeadVisited(conf, v);
    }
    InVisitedIn(conf, node, Children(node.what.entries), p, visit);
    AtIs(names, k, p);
    FullDescends(conf, names, k - |Parts(p)|, p, if steps == 0 then 0xFFFF_FFFF_FFFF_FFFF else 0, steps == 0);
  }

  lemma AtIs(names: seq<Name>, k: nat, p: string)
    requires Fits(names, k, p)
    ensures At(names, k, p) == Full(names, k - |Parts(p)|)
  {
    hide Full;
  }

  lemma HeadVisited(conf: Config, path: string)
    ensures Visit(path, conf.lstat(path), false) in VisitedFrom(conf, path, 0)
    ensures Visit(path, conf.lstat(path), true) in VisitedAtStart(conf, path)
  {
    hide VisitedIn;
  }

  lemma DirIsSent(conf: Config, names: seq<Name>, k: nat, m: nat, vs: seq<Visit>, path: string, top: bool)
    requires FullClient(conf, names, k) && conf.Scans(path)
    ensures Record(CMD_DIRECTORY, path, None, Full(names, m)) in Emit(conf, vs, Visit(path, Full(names, m), top))
  {
    hide Saved, OnDisk, Distinct, Entries;
    var node := Full(names, m);
    assert FoundAs(conf, vs, Visit(path, node, top)) == Some(DirBegin);
    assert SendFile(conf, path, node, top, DirBegin)[0] == Record(CMD_DIRECTORY, path, None, node);
  }

  lemma NotInOrder(conf: Config, names: seq<Name>, k: nat, vs: seq<Visit>, v: string, w: string, vTop: bool, wTop: bool)
    requires FullClient(conf, names, k) && Fits(names, k, v) && Fits(names, k, w)
    requires conf.Scans(v) && conf.Scans(w) && PathCmp(v, w) >= 0
    requires Precedes(vs, Visit(v, conf.lstat(v), vTop), Visit(w, conf.lstat(w), wTop))
    ensures !Sorted(Emitted(conf, vs))
  {
    hide PathCmp, FullClient, Config.Scans, Emitted, Emit, Sorted, Parts, Full;
    var x, y :| 0 <= x < y < |vs| && vs[x] == Visit(v, conf.lstat(v), vTop) && vs[y] == Visit(w, conf.lstat(w), wTop);
    ShownAt(conf, names, k, v);
    ShownAt(conf, names, k, w);
    DirIsSent(conf, names, k, k - |Parts(v)|, vs[..x], v, vTop);
    DirIsSent(conf, names, k, k - |Parts(w)|, vs[..y], w, wTop);
    WrongOrder(conf, vs, x, y, Record(CMD_DIRECTORY, v, None, conf.lstat(v)),
               Record(CMD_DIRECTORY, w, None, conf.lstat(w)));
  }

  // ----- The client that fails -----

  function Client(rules: seq<Rule>, omitted: set<string>, names: seq<Name>, k: nat): (conf: Config)
    ensures conf.rules == rules && forall path :: conf.omits(path) <==> path in omitted
  {
    Config(rules, path => Lookup(Full(names, k), Parts(path)), path => path in omitted, path => true, 0, 0,
           fs => false, path => true, false, false)
  }

  lemma ClientIsFull(rules: seq<Rule>, omitted: set<string>, names: seq<Name>, k: nat)
    requires Distinct(names)
    ensures FullClient(Client(rules, omitted, names, k), names, k)
  {
    hide Full, Lookup, Parts;
    FullIsOk(names, k);
  }

  lemma NotSortedFor(conf: Config, names: seq<Name>, k: nat)
    requires FullClient(conf, names, k) && !Sorted(Emitted(conf, AllVisited(conf, Starts(conf.rules))))
    ensures !AlwaysSorted(conf.rules)
  {
    hide OnDisk, Emitted, AllVisited, Sorted, Starts;
  }

  /** Names and depth enough for the rules, a walk and two more names. */
  lemma SomeNames(rules: seq<Rule>, steps: seq<Step>, a: Name, b: Name) returns (names: seq<Name>, k: nat)
    ensures Distinct(names) && Enough(rules, steps, names, k) && a in names && b in names
    ensures |RuleParts(rules)| + |steps| + 1 < k
  {
    hide RuleParts;
    var own := seq(|steps|, i requires 0 <= i < |steps| => steps[i].name);
    names, k := Once(RuleParts(rules) + own + [a, b]), |RuleParts(rules)| + |steps| + 2;
    forall i | 0 <= i < |steps| ensures steps[i].name in names { assert own[i] in own; }
    assert a in [a, b] && b in [a, b];
  }

  /** A start point overtakes a later one. */
  lemma StartOvertakes(rules: seq<Rule>, a: nat, b: nat)
    requires Accepted(rules) && a < b < |Starts(rules)| && Overtakes(rules, Starts(rules)[a], Starts(rules)[b])
    ensures !AlwaysSorted(rules)
  {
    hide RulesSorted, RulesOk, Starts, EntryPath, Included, Within, PathCmp, Chosen, Client, FullClient, Fits, Base;
    hide RuleParts, Parts, VisitedFrom, VisitedAtStart, AllVisited, Precedes, Emitted, Sorted, AlwaysSorted;
    hide EntryOvertakes, Dots;
    var starts := Starts(rules);
    var i := StartIsRule(rules, starts[a]);
    var j := StartIsRule(rules, starts[b]);
    var name: Name :| !Dots(name) && EntryOvertakes(rules, EntryPath(starts[a], name), starts[b]);
    var entry := EntryPath(starts[a], name);
    if Within(entry, starts[b]) { StartIsChosen(rules, entry, starts[b], j); }
    var v, f := Overtaker(rules, starts[a], name, j);
    var omitted := if f.Some? then {entry} else {};
    var names, k := SomeNames(rules, [], name, name);
    var conf := Client(rules, omitted, names, k);
    ClientIsFull(rules, omitted, names, k);
    RuleFits(rules, [], names, k, i);
    RuleFits(rules, [], names, k, j);
    PartsAreThere(rules, i);
    OvertakerIsSent(conf, names, k, starts[a], name, v, f);
    OvertakerVisited(conf, names, k, starts[a], name, v, f, 0);
    OwnIsScanned(conf, j);
    HeadVisited(conf, starts[b]);
    StartAcross(conf, starts, a, b, Visit(v, conf.lstat(v), false), Visit(starts[b], conf.lstat(starts[b]), true));
    NotInOrder(conf, names, k, AllVisited(conf, starts), v, starts[b], false, true);
    NotSortedFor(conf, names, k);
  }

  lemma StartIsChosen(rules: seq<Rule>, entry: string, start: string, j: nat)
    requires Accepted(rules) && start in Starts(rules) && j < |rules| && rules[j] == Rule(start, true)
    requires Within(entry, start)
    ensures Chosen(rules, entry, 0, j)
  {
    hide RulesSorted, RulesOk, Starts, Within, Nested;
    OkIsNoneRepeated(rules);
    forall m | 0 <= m < j && rules[m].included && Within(entry, rules[m].path) ensures !Nested(rules, m, j) {
      if Nested(rules, m, j) {
        ChainWithin(rules, m, j);
        var t := StartOf(rules, m);
        WithinTransitive(t, rules[m].path, start);
        StartsSeparate(rules, t, start);
        WithinBoth(start, rules[m].path);
      }
    }
  }

  lemma WithinBoth(p: string, q: string)
    requires Within(p, q) && Within(q, p)
    ensures p == q
  {
  }

  lemma OwnIsScanned(conf: Config, j: nat)
    requires Accepted(conf.rules) && j < |conf.rules| && conf.rules[j].included
    ensures conf.Scans(conf.rules[j].path) <==> !conf.omits(conf.rules[j].path)
  {
    hide RulesSorted, RulesOk, Included;
    OkIsNoneRepeated(conf.rules);
    OwnRule(conf.rules, j);
  }

  /** Nothing that overtakes is left out but the entry in which a rule is gone to. */
  lemma OvertakerIsSent(conf: Config, names: seq<Name>, k: nat, p: string, name: Name, v: string, f: Option<nat>)
    requires Accepted(conf.rules) && !Dots(name) && name in names && Fits(names, k, p) && |Parts(p)| + 1 < k
    requires forall x :: x in RuleParts(conf.rules) ==> x in names
    requires |RuleParts(conf.rules)| < k
    requires f.None? ==> v == EntryPath(p, name) && Included(conf.rules, v)
    requires f.Some? ==> Chosen(conf.rules, EntryPath(p, name), 0, f.value) && v == conf.rules[f.value].path
    requires conf.omits(EntryPath(p, name)) <==> f.Some?
    requires f.Some? ==> !conf.omits(v)
    ensures conf.Scans(v) && Fits(names, k, v)
    ensures conf.Scans(EntryPath(p, name)) <==> f.None?
  {
    hide RulesSorted, RulesOk, Included, EntryPath, Parts, RuleParts, Nested, Within, Dots;
    if f.Some? {
      OwnIsScanned(conf, f.value);
      PartsAreThere(conf.rules, f.value);
    } else {
      EntryParts(p, name);
    }
  }

  /** A rule that is gone to from an entry is gone to from every entry in that, too. */
  lemma StillChosenInside(rules: seq<Rule>, dir: string, name: Name, p: string, next: Name, j: nat)
    requires Chosen(rules, EntryPath(dir, name), 0, j) && Within(EntryPath(dir, name), p)
    ensures Within(EntryPath(p, next), rules[j].path) ==> Chosen(rules, EntryPath(p, next), 0, j)
    ensures Within(EntryPath(dir, name), EntryPath(p, next))
  {
    hide Nested, Within, EntryPath;
    EntryInside(dir, name, p, next);
    forall m | 0 <= m < |rules| && Within(EntryPath(p, next), rules[m].path)
      ensures Within(EntryPath(dir, name), rules[m].path)
    {
      WithinTransitive(EntryPath(dir, name), EntryPath(p, next), rules[m].path);
    }
  }

  lemma EntryInside(dir: string, name: Name, p: string, next: Name)
    requires Within(EntryPath(dir, name), p)
    ensures Within(EntryPath(dir, name), EntryPath(p, next))
  {
    EntryBegins(dir, name, p);
    EntryContains(dir, name, EntryPath(p, next)) by { hide Base; }
  }

  /** What the client leaves out: the links of the walk, the entry, and the entry in
      which a rule is gone to. */
  ghost function Omitted(rules: seq<Rule>, start: string, steps: seq<Step>, link: string, entry: string,
                         f: Option<nat>): set<string>
  {
    Links(rules, start, steps) + {link} + if f.Some? then {entry} else {}
  }

  lemma WhatIsOmitted(rules: seq<Rule>, start: string, steps: seq<Step>, dir: string, name: Name, p: string,
                      next: Name, v: string, f: Option<nat>, q: string)
    requires RuleWalk(rules, start, steps) == Some(dir) && Within(EntryPath(dir, name), p)
    requires Within(EntryPath(dir, name), q) && PathCmp(p, q) < 0
    requires f.Some? ==> Within(EntryPath(p, next), v) && EntryPath(p, next) != v && EntryPath(p, next) != q
    ensures var link, entry := EntryPath(dir, name), EntryPath(p, next);
            var omitted := Omitted(rules, start, steps, link, entry, f);
            link in omitted && (entry in omitted <==> f.Some?) && (f.Some? ==> v !in omitted) && q !in omitted &&
            Links(rules, start, steps) <= omitted &&
            forall x :: x in omitted && x !in Links(rules, start, steps) ==> |Base(x)| > |Base(dir)|
  {
    hide Within, Base, EntryPath, Links, PathCmp, RuleWalk;
    var link, entry := EntryPath(dir, name), EntryPath(p, next);
    LinksAreShort(rules, start, steps);
    SamePath(link);
    SamePath(entry);
    LongerBase(dir, name, link);
    LongerBase(dir, name, q);
    LongerBase(p, next, entry);
    WithinBase(link, p);
    if f.Some? {
      LongerBase(p, next, v);
    }
    NotBefore(link, p, q);
  }

  lemma NotBefore(link: string, p: string, q: string)
    requires Within(link, p) && PathCmp(p, q) < 0
    ensures link != q
  {
    hide Within, PathCmp;
    WithinIsAfter(link, p);
    PathCmpAntisymmetric(link, p);
  }

  /** Of two rules gone to from an entry that a scan comes to the first overtakes the
      second. */
  lemma JumpOvertakes(rules: seq<Rule>, dir: string, name: Name, a: nat, b: nat)
    requires Accepted(rules) && Comes(rules, dir) && !Dots(name)
    requires a < b < |Jumps(rules, EntryPath(dir, name), 0)|
    requires var js := Jumps(rules, EntryPath(dir, name), 0);
             Overtakes(rules, rules[js[a]].path, rules[js[b]].path)
    ensures !AlwaysSorted(rules)
  {
    hide RulesSorted, RulesOk, Starts, EntryPath, Included, Within, PathCmp, Nested, Base, EntryOvertakes, Dots;
    hide RuleParts, Enough, AlwaysSorted, Jumps, Links, Omitted, Client, FullClient, AllVisited, Emitted, Sorted;
    hide VisitedAtStart, Precedes, LeavesOut, Fits, Config.Scans;
    var start, steps :| start in Starts(rules) && RuleWalk(rules, start, steps) == Some(dir);
    hide RuleWalk;
    var link := EntryPath(dir, name);
    var js := Jumps(rules, link, 0);
    var i, j := js[a], js[b];
    var p, q := rules[i].path, rules[j].path;
    JumpsIncluded(rules, link, 0);
    JumpsRise(rules, link, 0);
    PathsDiffer(rules, i, j);
    JumpsExactly(rules, link, 0, j);
    var next: Name :| !Dots(next) && EntryOvertakes(rules, EntryPath(p, next), q);
    var entry := EntryPath(p, next);
    StillChosenInside(rules, dir, name, p, next, j);
    var v, f := Overtaker(rules, p, next, j);
    WhatIsOmitted(rules, start, steps, dir, name, p, next, v, f, q);
    var names, k := SomeNames(rules, steps, name, next);
    var conf := Client(rules, Omitted(rules, start, steps, link, entry, f), names, k);
    ClientIsFull(rules, Omitted(rules, start, steps, link, entry, f), names, k);
    assert LeavesOut(conf, start, steps) by { LeavesJustThat(conf, start, steps, dir); }
    var starts := Starts(rules);
    var x := JumpedTooLate(conf, names, k, start, steps, dir, name, a, b, next, v, f);
    StartLift(conf, starts, x, Visit(v, conf.lstat(v), false), Visit(q, conf.lstat(q), false));
    NotInOrder(conf, names, k, AllVisited(conf, starts), v, q, false, false);
    NotSortedFor(conf, names, k);
  }

  lemma LeavesJustThat(conf: Config, start: string, steps: seq<Step>, dir: string)
    requires RuleWalk(conf.rules, start, steps) == Some(dir)
    requires forall x :: x in Links(conf.rules, start, steps) ==> conf.omits(x)
    requires forall x :: conf.omits(x) && x !in Links(conf.rules, start, steps) ==> |Base(x)| > |Base(dir)|
    ensures LeavesOut(conf, start, steps)
  {
    hide RuleWalk, Links, Base;
  }

  lemma JumpedTooLate(conf: Config, names: seq<Name>, k: nat, start: string, steps: seq<Step>, dir: string,
                      name: Name, a: nat, b: nat, next: Name, v: string, f: Option<nat>) returns (x: nat)
    requires FullClient(conf, names, k) && Accepted(conf.rules) && Enough(conf.rules, steps, names, k)
    requires |RuleParts(conf.rules)| + |steps| + 1 < k && name in names && next in names
    requires start in Starts(conf.rules) && RuleWalk(conf.rules, start, steps) == Some(dir)
    requires LeavesOut(conf, start, steps) && !Dots(name) && !Dots(next) && conf.omits(EntryPath(dir, name))
    requires a < b < |Jumps(conf.rules, EntryPath(dir, name), 0)|
    requires var js := Jumps(conf.rules, EntryPath(dir, name), 0);
             var entry := EntryPath(conf.rules[js[a]].path, next);
             && !conf.omits(conf.rules[js[b]].path) && (conf.omits(entry) <==> f.Some?)
             && (f.None? ==> v == entry && Included(conf.rules, v))
             && (f.Some? ==> Chosen(conf.rules, entry, 0, f.value) && v == conf.rules[f.value].path && !conf.omits(v))
    ensures var js := Jumps(conf.rules, EntryPath(dir, name), 0);
            var q := conf.rules[js[b]].path;
            && Fits(names, k, v) && Fits(names, k, q) && conf.Scans(v) && conf.Scans(q)
            && x < |Starts(conf.rules)|
            && Precedes(VisitedAtStart(conf, Starts(conf.rules)[x]), Visit(v, conf.lstat(v), false),
                        Visit(q, conf.lstat(q), false))
  {
    hide RulesSorted, RulesOk, Starts, EntryPath, Included, Within, Nested, Base, Dots, RuleParts, Jumps, RuleWalk;
    hide FullClient, Visited, VisitedAtStart, VisitedByRules, VisitedAt, Precedes, LeavesOut, Fits, At, Chosen, Parts;
    var rules, link := conf.rules, EntryPath(dir, name);
    var js := Jumps(rules, link, 0);
    var i, j := js[a], js[b];
    var p, q := rules[i].path, rules[j].path;
    JumpsIncluded(rules, link, 0);
    RuleFits(rules, steps, names, k, i);
    RuleFits(rules, steps, names, k, j);
    PartsAreThere(rules, i);
    OvertakerIsSent(conf, names, k, p, next, v, f);
    OvertakerVisited(conf, names, k, p, next, v, f, 1);
    OwnIsScanned(conf, j);
    HeadVisited(conf, q);
    WalkFits(rules, start, steps, names, k);
    AtEntry(conf, names, k, dir, name);
    var y, z := Visit(v, conf.lstat(v), false), Visit(q, conf.lstat(q), false);
    JumpAcross(conf, At(names, k, dir), name, js, dir, a, b, y, z);
    ScanLift(conf, names, k, dir, name, |steps|, y, z);
    WalkLift(conf, names, k, start, steps, y, z);
    x :| 0 <= x < |Starts(rules)| && Starts(rules)[x] == start;
  }

  // ----- The theorem -----

  /** The list of every client with these rules is sorted if and only if they are
      orderly. */
  lemma OrderlyExactly(rules: seq<Rule>)
    requires Accepted(rules)
    ensures Orderly(rules) <==> AlwaysSorted(rules)
  {
    hide Accepted, OnDisk, Emitted, AllVisited, Sorted, Starts, Comes, Overtakes, Jumps, EntryPath, Dots;
    if Orderly(rules) {
      forall conf: Config, root: Node | conf.rules == rules && !conf.earlyMeta && OnDisk(conf, root)
        ensures Sorted(Emitted(conf, AllVisited(conf, Starts(rules))))
      {
        OnDiskIsOk(conf, root);
        ListIsSorted(conf);
      }
    } else if !InTurn(rules, Starts(rules)) {
      var a, b :| 0 <= a < b < |Starts(rules)| && Overtakes(rules, Starts(rules)[a], Starts(rules)[b]);
      StartOvertakes(rules, a, b);
    } else {
      var dir: string, name: Name :| Comes(rules, dir) && !Dots(name) &&
                                     !InTurn(rules, JumpPaths(rules, EntryPath(dir, name)));
      var ps := JumpPaths(rules, EntryPath(dir, name));
      var a, b :| 0 <= a < b < |ps| && Overtakes(rules, ps[a], ps[b]);
      JumpOvertakes(rules, dir, name, a, b);
    }
  }
}
