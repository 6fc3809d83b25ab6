/** A scan looks at files in path order: sorted names and depth first make the flat
    order of the manifest, as long as the `include` and `exclude` lines are orderly. */
module ScanRises {
  import opened Wrappers
  import opened PathOrder
  import opened IncExc
  import opened StartPoints
  import opened ScanRules
  import opened Scan

  ghost predicate PathsRise(vs: seq<Visit>) {
    forall i, j :: 0 <= i < j < |vs| ==> PathCmp(vs[i].path, vs[j].path) < 0
  }

  /** `p` is something in the directory whose path with its slash is `base`. */
  predicate Below(base: string, p: string) {
    base <= p && |p| > |base| && p[|base|] != '/'
  }

  /** `p` is what a scan of `a` can come to. */
  predicate Under(a: string, p: string) { p == a || Base(a) <= p }

  lemma BaseOfChild(base: string, name: Name)
    ensures Base(base + name) == base + name + "/"
  {
    assert (base + name)[|base + name| - 1] == name[|name| - 1];
    assert name[|name| - 1] in name;
  }

  lemma UnderChild(fname: string, name: Name, p: string)
    requires Under(EntryPath(fname, name), p)
    ensures Below(Base(fname), p)
  {
    var base := Base(fname);
    BaseOfChild(base, name);
    hide Base;
    assert (base + name)[|base|] == name[0] && name[0] in name;
    assert base + name <= p;
    assert p[|base|] == (base + name)[|base|];
  }

  lemma NamesApart(base: string, x: Name, y: Name)
    requires PathCmp(x, y) < 0
    ensures PathCmp(base + x, base + y) < 0 && !(Base(base + x) <= base + y)
  {
    var n := Lcp(x, y);
    var a, b := base + x, base + y;
    LcpUnique(a, b, |base| + n);
    BaseOfChild(base, x);
  }

  lemma SiblingsApart(fname: string, x: Name, y: Name, p: string, q: string)
    requires PathCmp(x, y) < 0 && Under(EntryPath(fname, x), p) && Under(EntryPath(fname, y), q)
    ensures PathCmp(p, q) < 0
  {
    hide Base, PathCmp;
    NamesApart(Base(fname), x, y);
    SubtreesApart(EntryPath(fname, x), EntryPath(fname, y), p, q);
  }

  /** The directory comes before what is in it. */
  lemma OwnerFirst(fname: string, p: string)
    requires Below(Base(fname), p)
    ensures PathCmp(fname, p) < 0
  {
    hide Base;
    var b := Base(fname);
    assert forall i :: |b| - 1 <= i < |fname| ==> fname[i] == '/';
    LcpUnique(fname, p, if |fname| <= |b| then |fname| else |b|);
  }

  /** Whatever `include` lines name is a possible file too. */
  ghost predicate DiskOk(conf: Config) { forall path :: TreeOk(conf.lstat(path)) }

  /** What `finalise_config` accepts. */
  ghost predicate Accepted(rules: seq<Rule>) { RulesSorted(rules) && RulesOk(rules) }

  // ----- How a scan came to a path -----

  ghost predicate ThroughRule(rules: seq<Rule>, entry: string, c: nat, p: string) {
    c < |rules| && rules[c].included && Within(entry, rules[c].path) && Under(rules[c].path, p)
  }

  /** The path is in the entry, and that is included or has an included path on the way. */
  ghost predicate ThroughEntry(rules: seq<Rule>, entry: string, p: string) {
    Under(entry, p) && (Included(rules, entry) || exists c: nat :: ThroughRule(rules, entry, c, p))
  }

  ghost predicate Through(rules: seq<Rule>, fname: string, p: string) {
    p == fname || exists name: Name :: !Dots(name) && ThroughEntry(rules, EntryPath(fname, name), p)
  }

  lemma EntryUnderWithin(fname: string, name: Name, p: string)
    requires Under(EntryPath(fname, name), p)
    ensures Within(EntryPath(fname, name), p)
  {
    BaseOfChild(Base(fname), name);
    hide Base;
    EntryContains(fname, name, p);
  }

  lemma NotBehindOvertakes(rules: seq<Rule>, fname: string, name: Name, j: nat, p: string)
    requires j < |rules| && rules[j].included && ThroughEntry(rules, EntryPath(fname, name), p)
    requires PathCmp(p, rules[j].path) >= 0
    ensures EntryOvertakes(rules, EntryPath(fname, name), rules[j].path)
  {
    hide Included, Under, Within, EntryPath, PathCmp;
    var entry, q := EntryPath(fname, name), rules[j].path;
    EntryUnderWithin(fname, name, p);
    PathCmpAntisymmetric(p, q);
    SamePath(q);
    if Included(rules, entry) {
      PathCmpAntisymmetric(entry, q);
      if PathCmp(entry, q) < 0 { DescendantsContiguous(entry, q, p); }
    } else {
      var c: nat :| ThroughRule(rules, entry, c, p);
      PathCmpAntisymmetric(rules[c].path, q);
      if PathCmp(rules[c].path, q) < 0 { BetweenOne(entry, rules[c].path, q, p); }
    }
  }

  /** What is not overtaken comes after all that the scan comes to. */
  lemma ThroughIsBehind(rules: seq<Rule>, fname: string, j: nat, p: string)
    requires j < |rules| && rules[j].included && PathCmp(fname, rules[j].path) < 0
    requires !Overtakes(rules, fname, rules[j].path) && Through(rules, fname, p)
    ensures PathCmp(p, rules[j].path) < 0
  {
    hide PathCmp, EntryPath, ThroughEntry, EntryOvertakes;
    if p != fname {
      var name: Name :| !Dots(name) && ThroughEntry(rules, EntryPath(fname, name), p);
      if PathCmp(p, rules[j].path) >= 0 { NotBehindOvertakes(rules, fname, name, j, p); }
    }
  }

  lemma ThroughIsAfter(rules: seq<Rule>, fname: string, p: string)
    requires Through(rules, fname, p)
    ensures PathCmp(fname, p) <= 0 && Under(fname, p)
  {
    hide PathCmp, EntryPath, Base, Included;
    PathCmpAntisymmetric(fname, fname);
    if p != fname {
      var name: Name :| !Dots(name) && ThroughEntry(rules, EntryPath(fname, name), p);
      UnderChild(fname, name, p);
      OwnerFirst(fname, p);
    }
  }

  // ----- The order of a scan -----

  /** Everything a scan of a path that it can come to looks at lies under it, and in path
      order, if the rules are orderly. */
  lemma {:induction false} VisitedRise(conf: Config, node: Node, fname: string, parentDev: bv64, top: bool)
    requires TreeOk(node) && DiskOk(conf) && Accepted(conf.rules)
    requires Orderly(conf.rules) && Comes(conf.rules, fname)
    ensures forall v :: v in Visited(conf, node, fname, parentDev, top) ==> Through(conf.rules, fname, v.path)
    ensures PathsRise(Visited(conf, node, fname, parentDev, top))
    decreases Deeper(conf.rules, |Base(fname)|), node, 1, 0, 0
  {
    hide Children, PathCmp, Base, Below, Ordered, VisitedIn, DiskOk, Accepted, Orderly, Comes, ThroughEntry, EntryPath;
    if Descends(conf, node, fname, parentDev, top) {
      ChildrenOrdered(node.what.entries);
      VisitedInRise(conf, node, Children(node.what.entries), fname);
      var inside := VisitedIn(conf, node, Children(node.what.entries), fname);
      forall v | v in inside ensures Through(conf.rules, fname, v.path) && PathCmp(fname, v.path) < 0 {
        var i :| 0 <= i < |Children(node.what.entries)| &&
                 ThroughEntry(conf.rules, EntryPath(fname, Children(node.what.entries)[i].name), v.path);
        assert Children(node.what.entries)[i] in Children(node.what.entries);
        ThroughBelow(conf.rules, fname, Children(node.what.entries)[i].name, v.path);
      }
      forall j | 0 <= j < |inside| ensures PathCmp(fname, inside[j].path) < 0 {
        assert inside[j] in inside;
      }
      assert Visited(conf, node, fname, parentDev, top) == [Visit(fname, node, top)] + inside;
    } else {
      assert Visited(conf, node, fname, parentDev, top) == [Visit(fname, node, top)];
    }
  }

  lemma ThroughBelow(rules: seq<Rule>, fname: string, name: Name, p: string)
    requires ThroughEntry(rules, EntryPath(fname, name), p)
    ensures PathCmp(fname, p) < 0
  {
    hide PathCmp, EntryPath, Base, Included;
    UnderChild(fname, name, p);
    OwnerFirst(fname, p);
  }

  lemma LastAfterRest(rules: seq<Rule>, kids: seq<Entry>, fname: string, before: seq<Visit>, after: seq<Visit>)
    requires kids != [] && Ordered(kids)
    requires forall v :: v in before ==>
               exists i :: 0 <= i < |kids| - 1 && ThroughEntry(rules, EntryPath(fname, kids[i].name), v.path)
    requires forall v :: v in after ==> ThroughEntry(rules, EntryPath(fname, kids[|kids| - 1].name), v.path)
    requires PathsRise(before) && PathsRise(after)
    ensures PathsRise(before + after)
  {
    hide Under, PathCmp, EntryPath, Included;
    forall x, y | 0 <= x < |before| && 0 <= y < |after| ensures PathCmp(before[x].path, after[y].path) < 0 {
      assert before[x] in before && after[y] in after;
      var j :| 0 <= j < |kids| - 1 && ThroughEntry(rules, EntryPath(fname, kids[j].name), before[x].path);
      SiblingsApart(fname, kids[j].name, kids[|kids| - 1].name, before[x].path, after[y].path);
    }
  }

  lemma {:induction false} VisitedInRise(conf: Config, dir: Node, kids: seq<Entry>, fname: string)
    requires TreeOk(dir) && dir.what.Directory? && forall e :: e in kids ==> e in dir.what.entries
    requires DiskOk(conf) && Accepted(conf.rules) && Orderly(conf.rules) && Comes(conf.rules, fname)
    requires Ordered(kids) && forall e :: e in kids ==> !Dots(e.name)
    ensures forall v :: v in VisitedIn(conf, dir, kids, fname) ==>
              exists i :: 0 <= i < |kids| && ThroughEntry(conf.rules, EntryPath(fname, kids[i].name), v.path)
    ensures PathsRise(VisitedIn(conf, dir, kids, fname))
    decreases Deeper(conf.rules, |Base(fname)|), dir, 0, |kids| + 1, 0
  {
    hide ThroughEntry, PathCmp, Base, EntryPath, DiskOk, Accepted, Orderly, Comes, VisitedAt;
    if kids != [] {
      var n := |kids| - 1;
      VisitedInRise(conf, dir, kids[..n], fname);
      VisitedAtRise(conf, dir, kids[n], fname);
      var before, after := VisitedIn(conf, dir, kids[..n], fname), VisitedAt(conf, dir, kids[n], fname);
      forall v | v in before
        ensures exists i :: 0 <= i < n && ThroughEntry(conf.rules, EntryPath(fname, kids[i].name), v.path)
      {
        var i :| 0 <= i < n && ThroughEntry(conf.rules, EntryPath(fname, kids[..n][i].name), v.path);
        assert kids[i] == kids[..n][i];
      }
      LastAfterRest(conf.rules, kids, fname, before, after);
    }
  }

  lemma {:induction false} VisitedAtRise(conf: Config, dir: Node, e: Entry, fname: string)
    requires TreeOk(dir) && dir.what.Directory? && e in dir.what.entries && !Dots(e.name)
    requires DiskOk(conf) && Accepted(conf.rules) && Orderly(conf.rules) && Comes(conf.rules, fname)
    ensures forall v :: v in VisitedAt(conf, dir, e, fname) ==>
              ThroughEntry(conf.rules, EntryPath(fname, e.name), v.path)
    ensures PathsRise(VisitedAt(conf, dir, e, fname))
    decreases Deeper(conf.rules, |Base(fname)|), dir, 0, 1, 0
  {
    hide Under, PathCmp, Base, EntryPath, DiskOk, Visited, VisitedByRules, InTurn, Comes, Included, Accepted, Through;
    var link := EntryPath(fname, e.name);
    EntrySmaller(dir, e);
    EntryIsDeeper(conf.rules, fname, e.name);
    var i :| 0 <= i < |dir.what.entries| && dir.what.entries[i] == e;
    if conf.Scans(link) {
      ComesOn(conf.rules, fname, Enter(e.name));
      VisitedRise(conf, e.node, link, dir.dev, false);
      forall v | v in Visited(conf, e.node, link, dir.dev, false) ensures Under(link, v.path) {
        ThroughIsAfter(conf.rules, link, v.path);
      }
    } else {
      assert InTurn(conf.rules, JumpPaths(conf.rules, link));
      JumpsCome(conf.rules, fname, e.name);
      VisitedByRulesRise(conf, dir, e.name, Jumps(conf.rules, link, 0), fname);
    }
  }

  ghost predicate AllCome(rules: seq<Rule>, js: seq<nat>) {
    && (forall k :: 0 <= k < |js| ==> js[k] < |rules| && rules[js[k]].included && Comes(rules, rules[js[k]].path))
    && (forall a, b :: 0 <= a < b < |js| ==> js[a] < js[b])
  }

  lemma JumpsCome(rules: seq<Rule>, fname: string, name: Name)
    requires Accepted(rules) && Comes(rules, fname) && !Dots(name)
    ensures AllCome(rules, Jumps(rules, EntryPath(fname, name), 0))
  {
    hide EntryPath, Comes, Chosen, Jumps, RulesSorted, RulesOk;
    var link := EntryPath(fname, name);
    var js := Jumps(rules, link, 0);
    JumpsRise(rules, link, 0);
    JumpsIncluded(rules, link, 0);
    forall k | 0 <= k < |js| ensures Comes(rules, rules[js[k]].path) {
      JumpsExactly(rules, link, 0, js[k]);
      ComesOn(rules, fname, Reach(name, js[k]));
    }
  }

  lemma {:induction false} VisitedByRulesRise(conf: Config, dir: Node, name: Name, js: seq<nat>, fname: string)
    requires forall k :: 0 <= k < |js| ==>
               js[k] < |conf.rules| && Within(EntryPath(fname, name), conf.rules[js[k]].path)
    requires DiskOk(conf) && Accepted(conf.rules) && Orderly(conf.rules)
    requires AllCome(conf.rules, js) && InTurn(conf.rules, Paths(conf.rules, js))
    ensures forall v :: v in VisitedByRules(conf, dir, name, js, fname) ==>
              Under(EntryPath(fname, name), v.path) &&
              exists k :: 0 <= k < |js| && Through(conf.rules, conf.rules[js[k]].path, v.path)
    ensures forall v :: v in VisitedByRules(conf, dir, name, js, fname) ==>
              exists c: nat :: ThroughRule(conf.rules, EntryPath(fname, name), c, v.path)
    ensures PathsRise(VisitedByRules(conf, dir, name, js, fname))
    decreases Deeper(conf.rules, |Base(fname)|), dir, 0, 0, |js|
  {
    hide Under, PathCmp, Base, EntryPath, Orderly, Visited, Within, Accepted, DiskOk, Through, Comes, Overtakes;
    if js != [] {
      var n := |js| - 1;
      var path := conf.rules[js[n]].path;
      JumpIsDeeper(conf.rules, fname, name, js[n]);
      InTurnBegins(conf.rules, js, n);
      VisitedByRulesRise(conf, dir, name, js[..n], fname);
      assert TreeOk(conf.lstat(path)) by { ShownIsOk(conf, path); }
      VisitedRise(conf, conf.lstat(path), path, dir.dev, false);
      var before, after := VisitedByRules(conf, dir, name, js[..n], fname),
                           Visited(conf, conf.lstat(path), path, dir.dev, false);
      forall v | v in after
        ensures Under(EntryPath(fname, name), v.path) && ThroughRule(conf.rules, EntryPath(fname, name), js[n], v.path)
      {
        ThroughIsAfter(conf.rules, path, v.path);
        UnderRule(fname, name, path, v.path);
      }
      forall v | v in before ensures exists k :: 0 <= k < n && Through(conf.rules, conf.rules[js[k]].path, v.path) {
        var k :| 0 <= k < n && Through(conf.rules, conf.rules[js[..n][k]].path, v.path);
        assert js[k] == js[..n][k];
      }
      RulesInTurn(conf.rules, js, before, after);
    }
  }

  lemma ShownIsOk(conf: Config, path: string)
    requires DiskOk(conf)
    ensures TreeOk(conf.lstat(path))
  {
    hide TreeOk;
  }

  lemma InTurnBegins(rules: seq<Rule>, js: seq<nat>, n: nat)
    requires n <= |js| && AllCome(rules, js) && InTurn(rules, Paths(rules, js))
    ensures AllCome(rules, js[..n]) && InTurn(rules, Paths(rules, js[..n]))
  {
    hide Overtakes, Comes;
    assert forall k :: 0 <= k < n ==> Paths(rules, js[..n])[k] == Paths(rules, js)[k];
  }

  lemma UnderRule(fname: string, name: Name, path: string, p: string)
    requires Within(EntryPath(fname, name), path) && Under(path, p)
    ensures Under(EntryPath(fname, name), p)
  {
    EntryBegins(fname, name, path);
    BaseOfChild(Base(fname), name);
    hide Base;
  }

  lemma RulesInTurn(rules: seq<Rule>, js: seq<nat>, before: seq<Visit>, after: seq<Visit>)
    requires Accepted(rules) && js != [] && AllCome(rules, js) && InTurn(rules, Paths(rules, js))
    requires forall v :: v in before ==> exists k :: 0 <= k < |js| - 1 && Through(rules, rules[js[k]].path, v.path)
    requires forall v :: v in after ==> Through(rules, rules[js[|js| - 1]].path, v.path)
    requires PathsRise(before) && PathsRise(after)
    ensures PathsRise(before + after)
  {
    hide PathCmp, Through, Comes, Overtakes, RulesSorted, RulesOk;
    var ps, n := Paths(rules, js), |js| - 1;
    forall x, y | 0 <= x < |before| && 0 <= y < |after| ensures PathCmp(before[x].path, after[y].path) < 0 {
      assert before[x] in before && after[y] in after;
      var k :| 0 <= k < n && Through(rules, rules[js[k]].path, before[x].path);
      assert !Overtakes(rules, ps[k], ps[n]);
      PathsDiffer(rules, js[k], js[n]);
      Between(rules, rules[js[k]].path, js[n], before[x].path, after[y].path);
    }
  }

  lemma Between(rules: seq<Rule>, p: string, j: nat, v: string, w: string)
    requires j < |rules| && rules[j].included && PathCmp(p, rules[j].path) < 0
    requires !Overtakes(rules, p, rules[j].path) && Through(rules, p, v) && Through(rules, rules[j].path, w)
    ensures PathCmp(v, w) < 0
  {
    hide PathCmp, Through, Overtakes, Under;
    ThroughIsBehind(rules, p, j, v);
    ThroughIsAfter(rules, rules[j].path, w);
    PathCmpAntisymmetric(rules[j].path, w);
    if rules[j].path != w { PathCmpTransitive(v, rules[j].path, w); }
  }
}
