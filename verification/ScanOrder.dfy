/** What a scan comes to: everything that is to be looked at, in the order of the
    manifest, with hard links that point back. */
module ScanOrder {
  import opened Wrappers
  import opened PathOrder
  import opened Records
  import opened IncExc
  import opened ScanRules
  import opened Scan
  import opened ScanRises

  // ----- Nothing is missed -----

  function Pick(es: seq<Entry>, name: string): (e: Option<Entry>)
    ensures e.Some? ==> e.value in es && e.value.name == name
    ensures e.None? ==> forall x :: x in es ==> x.name != name
  {
    if es == [] then None
    else if es[0].name == name then Some(es[0])
    else
      assert es == [es[0]] + es[1..];
      Pick(es[1..], name)
  }

  /** The file that steps lead to, if no directory on the way is closed to the scan. */
  ghost function Walk(conf: Config, node: Node, fname: string, parentDev: bv64, top: bool, steps: seq<Step>):
    Option<Visit>
    decreases |steps|
  {
    if steps == [] then Some(Visit(fname, node, top))
    else if !Descends(conf, node, fname, parentDev, top) || Dots(steps[0].name) then None
    else
      var e := Pick(node.what.entries, steps[0].name);
      if e.None? then None
      else
        var path := EntryPath(fname, e.value.name);
        match steps[0]
        case Enter(_) =>
          if !conf.Scans(path) then None else Walk(conf, e.value.node, path, node.dev, false, steps[1..])
        case Reach(_, j) =>
          if conf.Scans(path) || !Chosen(conf.rules, path, 0, j) then None
          else
            var included := conf.rules[j].path;
            Walk(conf, conf.lstat(included), included, node.dev, false, steps[1..])
  }

  lemma {:induction false} InVisitedIn(conf: Config, dir: Node, kids: seq<Entry>, fname: string, v: Visit)
    requires dir.what.Directory? && forall e :: e in kids ==> e in dir.what.entries
    ensures v in VisitedIn(conf, dir, kids, fname) <==> exists e :: e in kids && v in VisitedAt(conf, dir, e, fname)
  {
    hide VisitedAt;
    if kids != [] {
      var n := |kids| - 1;
      InVisitedIn(conf, dir, kids[..n], fname, v);
      assert kids == kids[..n] + [kids[n]];
      assert v in VisitedIn(conf, dir, kids, fname) <==>
             v in VisitedIn(conf, dir, kids[..n], fname) || v in VisitedAt(conf, dir, kids[n], fname);
      if e :| e in kids[..n] && v in VisitedAt(conf, dir, e, fname) { assert e in kids; }
    }
  }

  lemma {:induction false} InVisitedByRules(conf: Config, dir: Node, name: Name, js: seq<nat>, fname: string, v: Visit)
    requires forall k :: 0 <= k < |js| ==>
               js[k] < |conf.rules| && Within(EntryPath(fname, name), conf.rules[js[k]].path)
    ensures v in VisitedByRules(conf, dir, name, js, fname) <==>
            exists k :: 0 <= k < |js| && v in VisitedFrom(conf, conf.rules[js[k]].path, dir.dev)
    decreases |js|
  {
    hide Within, Visited, EntryPath, Base;
    if js != [] {
      var n := |js| - 1;
      InVisitedByRules(conf, dir, name, js[..n], fname, v);
      assert v in VisitedByRules(conf, dir, name, js, fname) <==>
             v in VisitedByRules(conf, dir, name, js[..n], fname) ||
             v in VisitedFrom(conf, conf.rules[js[n]].path, dir.dev);
      assert forall k :: 0 <= k < n ==> js[..n][k] == js[k];
    }
  }

  function VisitedFrom(conf: Config, path: string, dev: bv64): seq<Visit> {
    Visited(conf, conf.lstat(path), path, dev, false)
  }

  lemma {:induction false} WalkedIsVisited(conf: Config, node: Node, fname: string, parentDev: bv64, top: bool,
                                           steps: seq<Step>)
    requires RulesSorted(conf.rules) && Walk(conf, node, fname, parentDev, top, steps).Some?
    ensures Walk(conf, node, fname, parentDev, top, steps).value in Visited(conf, node, fname, parentDev, top)
    decreases |steps|
  {
    hide RulesSorted, EntryPath, Children, Nested, Within, VisitedIn, Base;
    if steps != [] {
      var e := Pick(node.what.entries, steps[0].name).value;
      var path := EntryPath(fname, e.name);
      var v := Walk(conf, node, fname, parentDev, top, steps).value;
      assert e in Children(node.what.entries);
      InVisitedIn(conf, node, Children(node.what.entries), fname, v);
      match steps[0]
      case Enter(_) => WalkedIsVisited(conf, e.node, path, node.dev, false, steps[1..]);
      case Reach(_, j) =>
        var included := conf.rules[j].path;
        WalkedIsVisited(conf, conf.lstat(included), included, node.dev, false, steps[1..]);
        JumpsExactly(conf.rules, path, 0, j);
        var js := Jumps(conf.rules, path, 0);
        var k :| 0 <= k < |js| && js[k] == j;
        assert v in VisitedFrom(conf, conf.rules[js[k]].path, node.dev);
        InVisitedByRules(conf, node, e.name, js, fname, v);
    }
  }

  lemma {:induction false} VisitedIsWalked(conf: Config, node: Node, fname: string, parentDev: bv64, top: bool,
                                           v: Visit)
    returns (steps: seq<Step>)
    requires RulesSorted(conf.rules) && DiskOk(conf) && TreeOk(node) && v in Visited(conf, node, fname, parentDev, top)
    ensures Walk(conf, node, fname, parentDev, top, steps) == Some(v)
    decreases Deeper(conf.rules, |Base(fname)|), node
  {
    hide RulesSorted, DiskOk, Visited, VisitedIn, Children, Base, EntryPath, Nested, Within, Deeper;
    if v == Visit(fname, node, top) { return []; }
    var e := VisitedStep(conf, node, fname, parentDev, top, v);
    var i :| 0 <= i < |node.what.entries| && node.what.entries[i] == e;
    PickIsEntry(node.what.entries, e);
    var path := EntryPath(fname, e.name);
    if conf.Scans(path) {
      EntrySmaller(node, e);
      EntryIsDeeper(conf.rules, fname, e.name);
      var rest := VisitedIsWalked(conf, e.node, path, node.dev, false, v);
      steps := [Enter(e.name)] + rest;
      assert steps[1..] == rest;
    } else {
      var j := VisitedJump(conf, node, e, fname, v);
      var included := conf.rules[j].path;
      assert TreeOk(conf.lstat(included)) by { ShownIsOk(conf, included); }
      JumpIsDeeper(conf.rules, fname, e.name, j);
      var rest := VisitedIsWalked(conf, conf.lstat(included), included, node.dev, false, v);
      steps := [Reach(e.name, j)] + rest;
      assert steps[1..] == rest;
    }
  }

  lemma VisitedStep(conf: Config, node: Node, fname: string, parentDev: bv64, top: bool, v: Visit) returns (e: Entry)
    requires v in Visited(conf, node, fname, parentDev, top) && v != Visit(fname, node, top)
    ensures Descends(conf, node, fname, parentDev, top)
    ensures e in node.what.entries && !Dots(e.name) && v in VisitedAt(conf, node, e, fname)
  {
    hide VisitedAt;
    InVisitedIn(conf, node, Children(node.what.entries), fname, v);
    e :| e in Children(node.what.entries) && v in VisitedAt(conf, node, e, fname);
  }

  lemma VisitedJump(conf: Config, dir: Node, e: Entry, fname: string, v: Visit) returns (j: nat)
    requires RulesSorted(conf.rules) && dir.what.Directory? && e in dir.what.entries
    requires !conf.Scans(EntryPath(fname, e.name)) && v in VisitedAt(conf, dir, e, fname)
    ensures Chosen(conf.rules, EntryPath(fname, e.name), 0, j)
    ensures v in Visited(conf, conf.lstat(conf.rules[j].path), conf.rules[j].path, dir.dev, false)
  {
    hide RulesSorted, Visited, VisitedByRules, EntryPath, Base, Within;
    var js := Jumps(conf.rules, EntryPath(fname, e.name), 0);
    InVisitedByRules(conf, dir, e.name, js, fname, v);
    var k :| 0 <= k < |js| && v in VisitedFrom(conf, conf.rules[js[k]].path, dir.dev);
    j := js[k];
    JumpsExactly(conf.rules, EntryPath(fname, e.name), 0, j);
  }

  lemma PickIsEntry(es: seq<Entry>, e: Entry)
    requires NamesOk(es) && e in es
    ensures Pick(es, e.name) == Some(e)
  {
  }

  /** A file is looked at exactly if no directory on the way to it is closed, and every
      step is into an included entry, or from an excluded one to an included path in it
      that no chain of rules leads to from another. */
  lemma VisitedExactly(conf: Config, node: Node, fname: string, parentDev: bv64, top: bool, v: Visit)
    requires RulesSorted(conf.rules) && DiskOk(conf) && TreeOk(node)
    ensures v in Visited(conf, node, fname, parentDev, top) <==>
            exists steps :: Walk(conf, node, fname, parentDev, top, steps) == Some(v)
  {
    hide RulesSorted, DiskOk, Visited, Walk;
    if v in Visited(conf, node, fname, parentDev, top) {
      var steps := VisitedIsWalked(conf, node, fname, parentDev, top, v);
    }
    forall steps | Walk(conf, node, fname, parentDev, top, steps) == Some(v)
      ensures v in Visited(conf, node, fname, parentDev, top)
    {
      WalkedIsVisited(conf, node, fname, parentDev, top, steps);
    }
  }

  // ----- The order -----

  /** With `split_vss` a soft link's metadata is sent before it as well. */
  predicate EarlyMeta(conf: Config, vs: seq<Visit>, v: Visit) {
    conf.earlyMeta && v.node.extrameta && conf.Includes(v.path, v.top) &&
    var found := FoundAs(conf, vs, v);
    found.Some? && found.value.Lnk?
  }

  lemma SendFileRecords(conf: Config, path: string, node: Node, top: bool, found: Found)
    ensures forall r :: r in SendFile(conf, path, node, top, found) ==>
              r.path == path && Sends(Unix, r) && r.datapth.None?
  {
    hide Config.Includes;
    ExtrametaRecords(conf, path, node);
    hide Extrameta;
  }

  lemma ExtrametaRecords(conf: Config, path: string, node: Node)
    ensures forall r :: r in Extrameta(conf, path, node) ==> r.path == path && Sends(Unix, r) && r.datapth.None?
  {
  }

  lemma EmitRecords(conf: Config, vs: seq<Visit>, v: Visit)
    ensures forall r :: r in Emit(conf, vs, v) ==> r.path == v.path && Sends(Unix, r) && r.datapth.None?
    ensures Sorted(Emit(conf, vs, v)) <==> !EarlyMeta(conf, vs, v)
  {
    hide SendFile, FoundAs;
    var found := FoundAs(conf, vs, v);
    if found.Some? {
      SendFileRecords(conf, v.path, v.node, v.top, found.value);
      SendFileSorted(conf, v.path, v.node, v.top, found.value);
    }
  }

  lemma SendFileSorted(conf: Config, path: string, node: Node, top: bool, found: Found)
    ensures Sorted(SendFile(conf, path, node, top, found)) <==>
            !(conf.earlyMeta && node.extrameta && conf.Includes(path, top) && found.Lnk?)
  {
    hide Before;
    var rs := SendFile(conf, path, node, top, found);
    var one, two := Key(path, 1), Key(path, 2);
    assert Before(one, two) && !Before(two, one) by { BeforeSlots(path); }
    if conf.Includes(path, top) && !found.Unusable? {
      if found.Lnk? && conf.earlyMeta && node.extrameta {
        assert KeyOf(rs[0]) == two && KeyOf(rs[1]) == one;
      } else {
        assert KeyOf(rs[0]) == one && |rs| <= 2 && (|rs| == 2 ==> KeyOf(rs[1]) == two);
      }
    }
  }

  lemma BeforeSlots(path: string)
    ensures Before(Key(path, 1), Key(path, 2)) && !Before(Key(path, 2), Key(path, 1))
  {
    PathCmpAntisymmetric(path, path);
  }

  /** Each record is sent at some visit. */
  lemma {:induction false} SentAtVisit(conf: Config, vs: seq<Visit>, r: Sbuf) returns (i: nat)
    requires r in Emitted(conf, vs)
    ensures i < |vs| && r in Emit(conf, vs[..i], vs[i]) && r.path == vs[i].path
  {
    var n := |vs| - 1;
    EmitRecords(conf, vs[..n], vs[n]);
    if r in Emit(conf, vs[..n], vs[n]) {
      i := n;
    } else {
      i := SentAtVisit(conf, vs[..n], r);
      assert vs[..n][..i] == vs[..i];
    }
  }

  lemma {:induction false} AtVisitSent(conf: Config, vs: seq<Visit>, i: nat, r: Sbuf)
    requires i < |vs| && r in Emit(conf, vs[..i], vs[i])
    ensures r in Emitted(conf, vs)
  {
    hide Emit;
    var n := |vs| - 1;
    if i < n {
      assert vs[..n][..i] == vs[..i];
      AtVisitSent(conf, vs[..n], i, r);
    }
  }

  lemma SortedConcat(a: seq<Sbuf>, b: seq<Sbuf>)
    requires forall r, s :: r in a && s in b ==> Before(KeyOf(r), KeyOf(s))
    ensures Sorted(a + b) <==> Sorted(a) && Sorted(b)
  {
    var c := a + b;
    assert forall i :: 0 <= i < |a| ==> c[i] == a[i];
    assert forall i :: 0 <= i < |b| ==> c[|a| + i] == b[i];
    if Sorted(a) && Sorted(b) {
      forall i, j | 0 <= i < j < |c| ensures Before(KeyOf(c[i]), KeyOf(c[j])) {
        if i >= |a| { assert c[i] == b[i - |a|] && c[j] == b[j - |a|]; }
      }
    }
  }

  /** The records come in strictly increasing order, unless some soft link's
      metadata was sent early. */
  lemma {:induction false} EmittedSortedExactly(conf: Config, vs: seq<Visit>)
    requires PathsRise(vs)
    ensures Sorted(Emitted(conf, vs)) <==> forall i :: 0 <= i < |vs| ==> !EarlyMeta(conf, vs[..i], vs[i])
  {
    hide EarlyMeta, Emit, Sorted, PathCmp;
    if vs == [] {
      assert Sorted([]) by { EmptySorted(); }
    } else {
      var n := |vs| - 1;
      var a, b := Emitted(conf, vs[..n]), Emit(conf, vs[..n], vs[n]);
      EmittedSortedExactly(conf, vs[..n]);
      EmitRecords(conf, vs[..n], vs[n]);
      forall r, s | r in a && s in b ensures Before(KeyOf(r), KeyOf(s)) {
        var i := SentAtVisit(conf, vs[..n], r);
        assert PathCmp(vs[i].path, vs[n].path) < 0;
      }
      SortedConcat(a, b);
      forall i | 0 <= i < n ensures vs[..n][..i] == vs[..i] {}
    }
  }

  lemma EmptySorted()
    ensures Sorted([])
  {
  }

  lemma {:induction false} EmittedSent(conf: Config, vs: seq<Visit>)
    ensures AllSent(Unix, Emitted(conf, vs)) && forall e :: e in Emitted(conf, vs) ==> e.datapth.None?
  {
    hide Emit;
    if vs != [] {
      var n := |vs| - 1;
      EmittedSent(conf, vs[..n]);
      EmitRecords(conf, vs[..n], vs[n]);
    }
  }

  /** Two records that were sent the wrong way round. */
  lemma WrongOrder(conf: Config, vs: seq<Visit>, x: nat, y: nat, r: Sbuf, s: Sbuf)
    requires x < y < |vs| && r in Emit(conf, vs[..x], vs[x]) && s in Emit(conf, vs[..y], vs[y])
    requires PathCmp(r.path, s.path) >= 0 && (PathCmp(r.path, s.path) == 0 ==> r.cmd == s.cmd)
    ensures !Sorted(Emitted(conf, vs))
  {
    hide Emit, PathCmp, Sorted;
    assert vs[..y][..x] == vs[..x] && vs[..y + 1][..y] == vs[..y];
    AtVisitSent(conf, vs[..y], x, r);
    WrongWayRound(Emitted(conf, vs[..y]), Emit(conf, vs[..y], vs[y]), r, s);
    EmittedExtends(conf, vs[..y + 1], vs[y + 1..]);
    assert vs[..y + 1] + vs[y + 1..] == vs;
    SortedBegins(Emitted(conf, vs[..y + 1]), Emitted(conf, vs));
  }

  lemma WrongWayRound(a: seq<Sbuf>, b: seq<Sbuf>, r: Sbuf, s: Sbuf)
    requires r in a && s in b && PathCmp(r.path, s.path) >= 0
    requires PathCmp(r.path, s.path) == 0 ==> r.cmd == s.cmd
    ensures !Sorted(a + b)
  {
    var i :| 0 <= i < |a| && a[i] == r;
    var j :| 0 <= j < |b| && b[j] == s;
    assert (a + b)[i] == r && (a + b)[|a| + j] == s;
    PathCmpAntisymmetric(r.path, s.path);
    assert !Before(KeyOf(r), KeyOf(s));
  }

  lemma {:induction false} EmittedExtends(conf: Config, vs: seq<Visit>, more: seq<Visit>)
    ensures Emitted(conf, vs) <= Emitted(conf, vs + more)
    decreases |more|
  {
    hide Emit;
    if more == [] {
      assert vs + more == vs;
    } else {
      var n := |more| - 1;
      EmittedExtends(conf, vs, more[..n]);
      assert (vs + more)[..|vs| + n] == vs + more[..n];
    }
  }

  lemma SortedBegins(a: seq<Sbuf>, b: seq<Sbuf>)
    requires a <= b
    ensures Sorted(b) ==> Sorted(a)
  {
    hide Before;
  }

  /** The root included: that decides about everything. */
  lemma UnderTheRoot(path: string)
    requires path != "" && path[0] == '/'
    ensures Included([Rule("/", true)], path)
  {
    var rules := [Rule("/", true)];
    assert rules[..0] == [] && Best([], path) == -1;
    assert Within("/", path);
  }

  /** The failing input: with `split_vss` one soft link with metadata is enough. */
  lemma EarlyMetaOutOfOrder(conf: Config, link: Node)
    requires conf == Config([Rule("/", true)], p => link, p => false, p => true, 0, 0, fs => false, p => true,
                            true, false)
    requires link == Node(1, 1, 1, 0, "", Stat(false, 0, 0, 0), true, SoftLink(Some("/f")))
    ensures !Sorted(Emitted(conf, [Visit("/l", link, true)]))
  {
    var vs := [Visit("/l", link, true)];
    UnderTheRoot("/l");
    assert vs[..0] == [] && EarlyMeta(conf, vs[..0], vs[0]);
    EmittedSortedExactly(conf, vs);
  }

  // ----- Hard links -----

  lemma {:induction false} SavedIsFirst(vs: seq<Visit>, dev: bv64, ino: bv64) returns (j: nat)
    requires Saved(vs, dev, ino).Some?
    ensures j < |vs| && vs[j].path == Saved(vs, dev, ino).value
    ensures Linkable(vs[j].node) && vs[j].node.dev == dev && vs[j].node.ino == ino
    ensures Saved(vs[..j], dev, ino).None?
  {
    var n := |vs| - 1;
    if Saved(vs[..n], dev, ino).Some? {
      j := SavedIsFirst(vs[..n], dev, ino);
      assert vs[..n][..j] == vs[..j];
    } else {
      j := n;
    }
  }

  /** The file itself, as opposed to a link to it or something about it. */
  predicate IsFileItself(r: Sbuf) { !IsLink(r.cmd) && !IsMeta(r.cmd) }

  /** A hard link names a file met earlier that is the same on disk. That file is in
      the list if and only if neither its size nor its extension kept it out. */
  lemma HardLinksPointBack(conf: Config, vs: seq<Visit>, r: Sbuf) returns (i: nat, j: nat)
    requires PathsRise(vs) && r in Emitted(conf, vs) && r.cmd == CMD_HARD_LINK
    ensures j < i < |vs| && r.path == vs[i].path && r.linkto == Some(vs[j].path)
    ensures vs[i].node.dev == vs[j].node.dev && vs[i].node.ino == vs[j].node.ino
    ensures Linkable(vs[j].node) && PathCmp(vs[j].path, r.path) < 0
    ensures (exists f :: f in Emitted(conf, vs) && f.path == vs[j].path && IsFileItself(f)) <==>
            conf.Includes(vs[j].path, vs[j].top) && (vs[j].node.what.Regular? ==> conf.SizeOk(vs[j].node.size))
  {
    hide Emitted;
    i := SentAtVisit(conf, vs, r);
    var v := vs[i];
    EmittedLink(conf, vs[..i], v, r);
    j := SavedIsFirst(vs[..i], v.node.dev, v.node.ino);
    assert vs[..i][..j] == vs[..j];
    FirstIsSent(conf, vs[..j], vs[j]);
    if f :| f in Emit(conf, vs[..j], vs[j]) && IsFileItself(f) {
      EmitRecords(conf, vs[..j], vs[j]);
      AtVisitSent(conf, vs, j, f);
    }
    forall f | f in Emitted(conf, vs) && f.path == vs[j].path && IsFileItself(f)
      ensures f in Emit(conf, vs[..j], vs[j])
    {
      var k := SentAtVisit(conf, vs, f);
      SamePathSameVisit(vs, j, k);
    }
  }

  lemma EmittedLink(conf: Config, vs: seq<Visit>, v: Visit, r: Sbuf)
    requires r in Emit(conf, vs, v) && r.cmd == CMD_HARD_LINK
    ensures Saved(vs, v.node.dev, v.node.ino).Some? && r.linkto == Saved(vs, v.node.dev, v.node.ino)
  {
    hide Saved;
  }

  lemma FirstIsSent(conf: Config, vs: seq<Visit>, v: Visit)
    requires Linkable(v.node) && Saved(vs, v.node.dev, v.node.ino).None?
    ensures (exists f :: f in Emit(conf, vs, v) && IsFileItself(f)) <==>
            conf.Includes(v.path, v.top) && (v.node.what.Regular? ==> conf.SizeOk(v.node.size))
  {
    hide Saved;
    if conf.Includes(v.path, v.top) && (v.node.what.Regular? ==> conf.SizeOk(v.node.size)) {
      assert Emit(conf, vs, v)[0] in Emit(conf, vs, v);
      assert IsFileItself(Emit(conf, vs, v)[0]);
    }
  }

  lemma SamePathSameVisit(vs: seq<Visit>, j: nat, k: nat)
    requires PathsRise(vs) && j < |vs| && k < |vs| && vs[j].path == vs[k].path
    ensures j == k
  {
    PathCmpAntisymmetric(vs[j].path, vs[k].path);
  }

  /** The failing input: of two names of one file only the second has an extension
      that is asked for. The list has it as a link to the first, which is not there. */
  lemma LinkToNothing(conf: Config, f: Node)
    requires conf == Config([Rule("/", true)], p => f, p => false, p => p == "/b.txt", 0, 0, fs => false, p => true,
                            false, false)
    requires f == Node(1, 1, 2, 0, "", Stat(false, 0, 0, 0), false, Regular)
    ensures Emitted(conf, [Visit("/a", f, false), Visit("/b.txt", f, false)]) ==
            [Record(CMD_HARD_LINK, "/b.txt", Some("/a"), f)]
  {
    var a, b := Visit("/a", f, false), Visit("/b.txt", f, false);
    UnderTheRoot("/b.txt");
    var vs := [a, b];
    assert vs[..1] == [a] && [a][..0] == [];
    assert Emit(conf, [], a) == [] && Emitted(conf, [a]) == [];
    assert Saved([a], 1, 1) == Some("/a") by { assert Saved([], 1, 1) == None; }
    assert Emit(conf, [a], b) == [Record(CMD_HARD_LINK, "/b.txt", Some("/a"), f)];
  }
}
