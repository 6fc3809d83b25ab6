/** Configurations whose scan lists a file twice, and some that look like them and do
    not. */
module ScanExamples {
  import opened Wrappers
  import opened PathOrder
  import opened Records
  import opened IncExc
  import opened StartPoints
  import opened ScanRules
  import opened Scan
  import opened ScanRises
  import opened ScanOrder
  import opened Phase1
  import opened Disk
  import opened Overlaps

  // ----- Disks with a few files -----

  function PlainFile(): Node { Node(0, 0, 1, 0, "", Stat(false, 0, 0, 0), false, Regular) }

  function FolderWith(name: Name, inside: Node): Node {
    Node(0, 0, 2, 0, "", Stat(true, 0, 0, 0), false, Directory(false, true, [Entry(name, inside)]))
  }

  /** Nothing is left out but by the rules. */
  ghost predicate Simple(conf: Config) {
    && conf.minSize == 0 && conf.maxSize == 0 && !conf.earlyMeta && !conf.encrypted
    && (forall path :: conf.ext(path)) && (forall path :: !conf.omits(path))
  }

  lemma LookupInside(name: Name, inside: Node, parts: seq<Name>)
    requires parts != [] && parts[0] == name
    ensures Lookup(FolderWith(name, inside), parts) == Lookup(inside, parts[1..])
  {
  }

  lemma FolderGives(conf: Config, name: Name, inside: Node, dir: string, dev: bv64, top: bool)
    requires !Dots(name) && (top || dev == 0)
    ensures var folder := FolderWith(name, inside);
            Visited(conf, folder, dir, dev, top) ==
            [Visit(dir, folder, top)] + VisitedAt(conf, folder, Entry(name, inside), dir)
  {
    hide Base, Deeper, VisitedAt;
    OneEntry(conf, FolderWith(name, inside), Entry(name, inside), dir);
  }

  function PlainRecord(path: string): (r: Sbuf)
    ensures r.path == path
  {
    Sbuf(CMD_FILE, path, None, None, "", Stat(false, 0, 0, 0), None)
  }

  lemma PlainIsSent(conf: Config, vs: seq<Visit>, path: string, top: bool)
    requires Simple(conf) && Included(conf.rules, path)
    ensures PlainRecord(path) in Emit(conf, vs, Visit(path, PlainFile(), top))
  {
    hide Saved, Included;
    assert Emit(conf, vs, Visit(path, PlainFile(), top))[0] == PlainRecord(path);
  }

  /** The list has one record twice. */
  ghost predicate ListedTwice(list: seq<Sbuf>, r: Sbuf) {
    exists i, j :: 0 <= i < j < |list| && list[i] == r && list[j] == r
  }

  lemma VisitedTwice(conf: Config, vs: seq<Visit>, path: string, top: bool)
    requires Simple(conf) && Included(conf.rules, path)
    requires Precedes(vs, Visit(path, PlainFile(), false), Visit(path, PlainFile(), top))
    ensures ListedTwice(Emitted(conf, vs), PlainRecord(path)) && !Sorted(Emitted(conf, vs))
  {
    hide Simple, Included, Emit, Emitted, Sorted, PathCmp, PlainFile, PlainRecord;
    var x, y :| 0 <= x < y < |vs| && vs[x] == Visit(path, PlainFile(), false) && vs[y] == Visit(path, PlainFile(), top);
    PlainIsSent(conf, vs[..x], path, false);
    PlainIsSent(conf, vs[..y], path, top);
    SamePath(path);
    WrongOrder(conf, vs, x, y, PlainRecord(path), PlainRecord(path));
    TwiceInList(conf, vs, x, y, PlainRecord(path));
  }

  lemma TwiceInList(conf: Config, vs: seq<Visit>, x: nat, y: nat, r: Sbuf)
    requires x < y < |vs| && r in Emit(conf, vs[..x], vs[x]) && r in Emit(conf, vs[..y], vs[y])
    ensures ListedTwice(Emitted(conf, vs), r)
  {
    hide Emit;
    assert vs[..y][..x] == vs[..x] && vs[..y + 1][..y] == vs[..y];
    AtVisitSent(conf, vs[..y], x, r);
    var a, b := Emitted(conf, vs[..y]), Emit(conf, vs[..y], vs[y]);
    var i :| 0 <= i < |a| && a[i] == r;
    var j :| 0 <= j < |b| && b[j] == r;
    EmittedExtends(conf, vs[..y + 1], vs[y + 1..]);
    assert vs[..y + 1] + vs[y + 1..] == vs;
    assert Emitted(conf, vs[..y + 1]) == a + b;
    assert Emitted(conf, vs)[i] == (a + b)[i] && Emitted(conf, vs)[|a| + j] == (a + b)[|a| + j];
  }

  // ----- Rules one after the other -----

  lemma Longer(p: string, q: string)
    requires p < q
    ensures PathCmp(p, q) < 0
  {
    LcpUnique(p, q, |p|);
  }

  lemma {:induction false} SortedByNeighbours(rules: seq<Rule>)
    requires forall i :: 0 <= i < |rules| - 1 ==> PathCmp(rules[i].path, rules[i + 1].path) < 0
    ensures RulesSorted(rules)
    ensures forall i, j :: 0 <= i < j < |rules| ==> rules[i].path != rules[j].path
  {
    hide PathCmp;
    forall i, j | 0 <= i < j < |rules|
      ensures PathCmp(rules[i].path, rules[j].path) < 0 && rules[i].path != rules[j].path
    {
      Rises(rules, i, j);
      PathCmpAntisymmetric(rules[i].path, rules[j].path);
    }
  }

  lemma {:induction false} Rises(rules: seq<Rule>, i: nat, j: nat)
    requires forall i :: 0 <= i < |rules| - 1 ==> PathCmp(rules[i].path, rules[i + 1].path) < 0
    requires i < j < |rules|
    ensures PathCmp(rules[i].path, rules[j].path) < 0
    decreases j
  {
    hide PathCmp;
    if i + 1 < j {
      Rises(rules, i, j - 1);
      PathCmpTransitive(rules[i].path, rules[j - 1].path, rules[j].path);
    }
  }

  /** No two rules have one path, so that each path's own rule decides. */
  lemma OwnSays(rules: seq<Rule>, j: nat)
    requires j < |rules| && forall i, k :: 0 <= i < k < |rules| ==> rules[i].path != rules[k].path
    ensures Included(rules, rules[j].path) <==> rules[j].included
  {
    hide Best;
    OwnDecides(rules, j);
  }

  /** All rules lie in the first. */
  lemma {:induction false} OneStart(rules: seq<Rule>)
    requires rules != [] && rules[0].included && forall i :: 0 <= i < |rules| ==> Within(rules[0].path, rules[i].path)
    ensures Starts(rules) == [rules[0].path]
  {
    hide Within;
    var n := |rules| - 1;
    if n == 0 {
      assert rules[..0] == [] && Starts([]) == [];
    } else {
      OneStart(rules[..n]);
    }
  }

  lemma TwoStarts(r: Rule, s: Rule)
    requires r.included && s.included && !Within(r.path, s.path)
    ensures Starts([r, s]) == [r.path, s.path]
  {
    hide Within;
    assert [r, s][..1] == [r] && [r][..0] == [] && Starts([]) == [] && Starts([r]) == [r.path];
  }

  lemma PathOkWithoutDots(path: string)
    requires path != "" && path[0] == '/' && '.' !in path
    ensures PathOk(path)
  {
    forall i | 0 <= i < |path| ensures path[i] != '.' { assert path[i] in path; }
  }

  // ----- Kept in an excluded directory -----

  /** In an excluded directory one is included, two in that are excluded again, and of
      the second of these one file is kept. */
  function KeptInExcluded(): seq<Rule> {
    [Rule("/", true), Rule("/h", false), Rule("/h/a", true), Rule("/h/a/s", false), Rule("/h/a/t", false),
     Rule("/h/a/t/k", true)]
  }

  lemma KeptRules()
    ensures Accepted(KeptInExcluded()) && Starts(KeptInExcluded()) == ["/"]
    ensures forall i, j :: 0 <= i < j < 6 ==> KeptInExcluded()[i].path != KeptInExcluded()[j].path
  {
    hide PathCmp, RulesSorted, PathOk, Starts;
    Longer("/", "/h");
    Longer("/h", "/h/a");
    Longer("/h/a", "/h/a/s");
    assert PathCmp("/h/a/s", "/h/a/t") < 0 by { DecidedAt("/h/a/s", "/h/a/t", 5); }
    Longer("/h/a/t", "/h/a/t/k");
    var rules := KeptInExcluded();
    forall i | 0 <= i < 5 ensures PathCmp(rules[i].path, rules[i + 1].path) < 0 {
      assert i == 0 || i == 1 || i == 2 || i == 3 || i == 4;
    }
    SortedByNeighbours(rules);
    forall i | 0 <= i < 6 ensures PathOk(rules[i].path) && Within("/", rules[i].path) {
      assert i == 0 || i == 1 || i == 2 || i == 3 || i == 4 || i == 5;
      PathOkWithoutDots(rules[i].path);
    }
    OneStart(rules);
  }

  /** Which of the included paths are gone to from the two excluded directories. */
  lemma KeptJumps()
    ensures var rules := KeptInExcluded();
            Chosen(rules, "/h", 0, 2) && Chosen(rules, "/h", 0, 5) && Chosen(rules, "/h/a/t", 0, 5)
  {
    var rules := KeptInExcluded();
    assert Within("/h", "/h/a") && Within("/h", "/h/a/t/k") && Within("/h/a/t", "/h/a/t/k") && !Within("/h", "/");
    assert !Within("/h/a/t", "/h/a") && !Within("/h/a/t", "/");
    hide Within;
    assert !Within(rules[3].path, rules[4].path) by { NotInSibling(); }
  }

  lemma NotInSibling()
    ensures !Within("/h/a/s", "/h/a/t")
  {
    assert "/h/a/s"[5] == 's' && "/h/a/t"[5] == 't';
  }

  function KeptDisk(): Node {
    FolderWith("h", FolderWith("a", FolderWith("t", FolderWith("k", PlainFile()))))
  }

  lemma KeptPaths()
    ensures EntryPath("/", "h") == "/h" && EntryPath("/h", "a") == "/h/a"
    ensures EntryPath("/h/a", "t") == "/h/a/t" && EntryPath("/h/a/t", "k") == "/h/a/t/k"
  {
    assert "/"[..0] == "" && Base("/") == "/" && Base("/h") == "/h/";
    assert Base("/h/a") == "/h/a/" && Base("/h/a/t") == "/h/a/t/";
  }

  lemma RootParts()
    ensures Parts("/") == [] && Base("/") == "/"
  {
    assert "/"[..0] == "";
  }

  lemma PartsOn(dir: string, name: Name, path: string, parts: seq<Name>)
    requires !Dots(name) && EntryPath(dir, name) == path && Parts(dir) == parts
    ensures Parts(path) == parts + [name]
  {
    hide EntryPath, Parts;
    EntryParts(dir, name);
  }

  lemma KeptParts()
    ensures Parts("/") == [] && Parts("/h/a") == ["h", "a"] && Parts("/h/a/t/k") == ["h", "a", "t", "k"]
  {
    hide Parts, EntryPath, Base;
    KeptPaths();
    RootParts();
    PartsOn("/", "h", "/h", []);
    PartsOn("/h", "a", "/h/a", ["h"]);
    PartsOn("/h/a", "t", "/h/a/t", ["h", "a"]);
    PartsOn("/h/a/t", "k", "/h/a/t/k", ["h", "a", "t"]);
  }

  lemma KeptShown(conf: Config)
    requires OnDisk(conf, KeptDisk())
    ensures conf.lstat("/") == KeptDisk()
    ensures conf.lstat("/h/a") == FolderWith("t", FolderWith("k", PlainFile()))
    ensures conf.lstat("/h/a/t/k") == PlainFile()
  {
    hide TreeOk, Parts, Lookup, KeptDisk, FolderWith, PlainFile;
    KeptParts();
    KeptLookup();
  }

  lemma KeptLookup()
    ensures Lookup(KeptDisk(), []) == KeptDisk()
    ensures Lookup(KeptDisk(), ["h", "a"]) == FolderWith("t", FolderWith("k", PlainFile()))
    ensures Lookup(KeptDisk(), ["h", "a", "t", "k"]) == PlainFile()
  {
    hide PlainFile, FolderWith, Lookup;
    var t := FolderWith("t", FolderWith("k", PlainFile()));
    LookupTwo("h", "a", t, []);
    LookupTwo("h", "a", t, ["t", "k"]);
    LookupTwo("t", "k", PlainFile(), []);
    assert ["h", "a"] + [] == ["h", "a"] && ["h", "a"] + ["t", "k"] == ["h", "a", "t", "k"];
    assert ["t", "k"] + [] == ["t", "k"];
    NoParts(KeptDisk());
    NoParts(t);
    NoParts(PlainFile());
  }

  lemma NoParts(node: Node)
    ensures Lookup(node, []) == node
  {
  }

  lemma LookupTwo(a: Name, b: Name, inside: Node, more: seq<Name>)
    ensures Lookup(FolderWith(a, FolderWith(b, inside)), [a, b] + more) == Lookup(inside, more)
  {
    hide FolderWith;
    var parts := [a, b] + more;
    LookupInside(a, FolderWith(b, inside), parts);
    LookupInside(b, inside, parts[1..]);
    assert parts[1..][1..] == more;
  }

  lemma KeptScans()
    ensures var rules := KeptInExcluded();
            !Included(rules, "/h") && !Included(rules, "/h/a/t") && Included(rules, "/h/a/t/k")
  {
    hide Included, Starts, RulesSorted, RulesOk;
    KeptRules();
    var rules := KeptInExcluded();
    OwnSays(rules, 1);
    OwnSays(rules, 4);
    OwnSays(rules, 5);
  }

  /** The file that is kept is come to from the directory that is included. */
  lemma KeptFromIncluded(conf: Config)
    requires conf.rules == KeptInExcluded() && Simple(conf) && OnDisk(conf, KeptDisk())
    ensures Visit("/h/a/t/k", PlainFile(), false) in VisitedFrom(conf, "/h/a", 0)
    ensures Visit("/h/a/t/k", PlainFile(), false) in VisitedFrom(conf, "/h/a/t/k", 0)
  {
    hide EntryPath, Base, Deeper, Jumps, VisitedByRules, Chosen, Within, PlainFile, Included, RulesSorted, RulesOk;
    hide OnDisk, Starts, KeptInExcluded;
    var v, rules := Visit("/h/a/t/k", PlainFile(), false), conf.rules;
    KeptShown(conf);
    HeadVisited(conf, "/h/a/t/k");
    KeptScans();
    KeptPaths();
    KeptJumps();
    KeptRules();
    var folder, js := FolderWith("t", FolderWith("k", PlainFile())), Jumps(rules, "/h/a/t", 0);
    JumpsExactly(rules, "/h/a/t", 0, 5);
    var i :| 0 <= i < |js| && js[i] == 5;
    assert rules[js[i]].path == "/h/a/t/k" by { FifthRule(); }
    InVisitedByRules(conf, folder, "t", js, "/h/a", v);
    FolderGives(conf, "t", FolderWith("k", PlainFile()), "/h/a", 0, false);
  }

  lemma FifthRule()
    ensures KeptInExcluded()[5].path == "/h/a/t/k" && KeptInExcluded()[2].path == "/h/a"
  {
  }

  /** The failing input: the file is listed twice. */
  lemma KeptIsListedTwice(conf: Config)
    requires conf.rules == KeptInExcluded() && Simple(conf) && OnDisk(conf, KeptDisk())
    ensures var list := Emitted(conf, AllVisited(conf, Starts(conf.rules)));
            ListedTwice(list, PlainRecord("/h/a/t/k")) && !Sorted(list)
  {
    hide EntryPath, Base, Deeper, Jumps, VisitedByRules, Chosen, Within, PlainFile, Included, RulesSorted, RulesOk;
    hide OnDisk, Starts, KeptInExcluded, Emitted, Sorted, Precedes, VisitedFrom, PlainRecord, ListedTwice;
    var v, rules := Visit("/h/a/t/k", PlainFile(), false), conf.rules;
    KeptScans();
    KeptPaths();
    KeptJumps();
    KeptRules();
    FifthRule();
    KeptShown(conf);
    KeptFromIncluded(conf);
    var inside := FolderWith("a", FolderWith("t", FolderWith("k", PlainFile())));
    var folder, js := FolderWith("h", inside), Jumps(rules, "/h", 0);
    JumpsExactly(rules, "/h", 0, 2);
    JumpsExactly(rules, "/h", 0, 5);
    JumpsRise(rules, "/h", 0);
    var a :| 0 <= a < |js| && js[a] == 2;
    var b :| 0 <= b < |js| && js[b] == 5;
    JumpAcross(conf, folder, "h", js, "/", a, b, v, v);
    FolderGives(conf, "h", inside, "/", 0xFFFF_FFFF_FFFF_FFFF, true);
    var head, inFolder := [Visit("/", folder, true)], VisitedByRules(conf, folder, "h", js, "/");
    PrecedesWithin(head, inFolder, [], v, v);
    assert VisitedAt(conf, folder, Entry("h", inside), "/") == inFolder;
    assert conf.lstat("/") == folder;
    assert VisitedAtStart(conf, "/") == head + inFolder == head + inFolder + [];
    StartLift(conf, ["/"], 0, v, v);
    VisitedTwice(conf, AllVisited(conf, ["/"]), "/h/a/t/k", false);
  }

  // ----- Doubled slashes -----

  /** Two start points: `is_subdir` does not see that the second lies in the first. */
  function TwoSlashes(): seq<Rule> { [Rule("/x//", true), Rule("/x/b", true)] }

  function TwoSlashesDisk(): Node { FolderWith("x", FolderWith("b", PlainFile())) }

  lemma TwoSlashesRules()
    ensures RulesSorted(TwoSlashes()) && Starts(TwoSlashes()) == ["/x//", "/x/b"]
    ensures Included(TwoSlashes(), "/x/b")
  {
    hide PathCmp, RulesSorted, Included, Starts;
    var rules := TwoSlashes();
    assert PathCmp("/x//", "/x/b") < 0 by { DecidedAt("/x//", "/x/b", 3); }
    SortedByNeighbours(rules);
    assert !Within("/x//", "/x/b") by { assert "/x//"[3] == '/' && "/x/b"[3] == 'b'; }
    TwoStarts(rules[0], rules[1]);
    OwnSays(rules, 1);
  }

  lemma TwoSlashesShown(conf: Config)
    requires OnDisk(conf, TwoSlashesDisk())
    ensures conf.lstat("/x//") == FolderWith("b", PlainFile()) && conf.lstat("/x/b") == PlainFile()
    ensures EntryPath("/x//", "b") == "/x/b"
  {
    TwoSlashesParts();
    hide TreeOk, Parts, PlainFile, EntryPath, Lookup;
    hide FolderWith;
    LookupInside("x", FolderWith("b", PlainFile()), ["x"]);
    LookupTwo("x", "b", PlainFile(), []);
    assert ["x"][1..] == [] && ["x", "b"] + [] == ["x", "b"];
    NoParts(FolderWith("b", PlainFile()));
    NoParts(PlainFile());
  }

  lemma TwoSlashesBases()
    ensures EntryPath("/", "x") == "/x" && EntryPath("/x//", "b") == "/x/b" && Parts("/x//") == Parts("/x")
  {
    assert "/x//"[..3] == "/x/" && "/x/"[..2] == "/x" && "/x" + "/" == "/x/";
    assert Base("/x") == "/x/" && Base("/x/") == "/x/" && Base("/x//") == "/x/" && Base("/") == "/";
    assert "/x/" + "b" == "/x/b" && "/" + "x" == "/x";
    assert Parts("/x//") == Parts("/x/") == Parts("/x");
  }

  lemma TwoSlashesParts()
    ensures Parts("/x//") == ["x"] && Parts("/x/b") == ["x", "b"] && EntryPath("/x//", "b") == "/x/b"
  {
    hide Parts, EntryPath, Base;
    RootParts();
    TwoSlashesBases();
    PartsOn("/", "x", "/x", []);
    PartsOn("/x//", "b", "/x/b", ["x"]);
  }

  /** The failing input: the file is listed from both. */
  lemma DoubledSlash(conf: Config)
    requires conf.rules == TwoSlashes() && Simple(conf) && OnDisk(conf, TwoSlashesDisk())
    ensures var list := Emitted(conf, AllVisited(conf, Starts(conf.rules)));
            ListedTwice(list, PlainRecord("/x/b")) && !Sorted(list)
  {
    hide EntryPath, Base, Deeper, PlainFile, Included, RulesSorted, OnDisk, Starts, TwoSlashes, Emitted, Sorted;
    hide Precedes, PlainRecord, ListedTwice, TwoSlashesDisk, AllVisited, VisitedAt;
    TwoSlashesRules();
    TwoSlashesShown(conf);
    var folder, starts := FolderWith("b", PlainFile()), ["/x//", "/x/b"];
    var v, w := Visit("/x/b", PlainFile(), false), Visit("/x/b", PlainFile(), true);
    HeadVisited(conf, "/x/b");
    assert VisitedAt(conf, folder, Entry("b", PlainFile()), "/x//") == VisitedFrom(conf, "/x/b", 0) by {
      EnteredAt(conf, folder, "b", "/x//");
    }
    FolderGives(conf, "b", PlainFile(), "/x//", 0xFFFF_FFFF_FFFF_FFFF, true);
    StartAcross(conf, starts, 0, 1, v, w);
    VisitedTwice(conf, AllVisited(conf, starts), "/x/b", true);
  }

  lemma EnteredAt(conf: Config, folder: Node, name: Name, dir: string)
    requires folder == FolderWith(name, conf.lstat(EntryPath(dir, name))) && conf.Scans(EntryPath(dir, name))
    ensures VisitedAt(conf, folder, Entry(name, conf.lstat(EntryPath(dir, name))), dir) ==
            VisitedFrom(conf, EntryPath(dir, name), 0)
  {
    hide EntryPath, Base, Deeper, Visited, Config.Scans;
  }

  /** These two look like them, but no entry's name begins with a slash: the first start
      point gives nothing but itself. */
  function MoreSlashes(): seq<Rule> { [Rule("/x///", true), Rule("/x//b", true)] }

  lemma MoreSlashesAreOrderly()
    ensures Accepted(MoreSlashes()) && Orderly(MoreSlashes()) && AlwaysSorted(MoreSlashes())
  {
    hide AlwaysSorted, RulesOk, PathCmp, Starts, Overtakes, Jumps, Paths, Comes, EntryPath;
    var rules := MoreSlashes();
    MoreSlashesRules();
    assert InTurn(rules, Starts(rules)) by { MoreSlashesApart(); }
    forall dir: string, name: Name | Comes(rules, dir) && !Dots(name)
      ensures InTurn(rules, JumpPaths(rules, EntryPath(dir, name)))
    {
      MoreSlashesAlone(dir, name);
    }
    OrderlyExactly(rules);
  }

  lemma MoreSlashesRules()
    ensures Accepted(MoreSlashes()) && Starts(MoreSlashes()) == ["/x///", "/x//b"]
  {
    hide PathCmp, RulesSorted, PathOk, Starts;
    var rules := MoreSlashes();
    assert PathCmp("/x///", "/x//b") < 0 by { DecidedAt("/x///", "/x//b", 4); }
    SortedByNeighbours(rules);
    PathOkWithoutDots("/x///");
    PathOkWithoutDots("/x//b");
    assert !Within("/x///", "/x//b") by { assert "/x///"[4] == '/' && "/x//b"[4] == 'b'; }
    TwoStarts(rules[0], rules[1]);
  }

  lemma MoreSlashesApart()
    ensures !Overtakes(MoreSlashes(), "/x///", "/x//b")
  {
    hide EntryPath, EntryOvertakes, Dots, MoreSlashes;
    forall name: Name ensures !EntryOvertakes(MoreSlashes(), EntryPath("/x///", name), "/x//b") {
      MoreSlashesEntry(name);
    }
  }

  lemma MoreSlashesEntry(name: Name)
    ensures !EntryOvertakes(MoreSlashes(), EntryPath("/x///", name), "/x//b")
  {
    var rules, entry := MoreSlashes(), EntryPath("/x///", name);
    assert "/x///"[..4] == "/x//" && "/x//"[..3] == "/x/" && "/x/"[..2] == "/x" && Base("/x///") == "/x/";
    hide Base, PathCmp, Included;
    assert entry[3] == name[0] && name[0] in name;
    assert "/x///"[3] == '/' && "/x//b"[3] == '/';
    assert !Within(entry, "/x///") && !Within("/x///", entry) && !Within(entry, "/x//b") && !Within("/x//b", entry);
    hide Within;
    NoneDecides(rules, entry);
  }

  lemma NoneDecides(rules: seq<Rule>, fname: string)
    requires forall i :: 0 <= i < |rules| ==> !Within(rules[i].path, fname)
    ensures !Included(rules, fname)
  {
    hide Best, Depth, Within;
    BestDecides(rules, fname);
  }

  lemma MoreSlashesAlone(dir: string, name: Name)
    requires Comes(MoreSlashes(), dir)
    ensures |Jumps(MoreSlashes(), EntryPath(dir, name), 0)| <= 1
  {
    hide Base, RuleWalk, Starts, EntryPath, Within;
    var rules, link := MoreSlashes(), EntryPath(dir, name);
    MoreSlashesRules();
    var start, steps :| start in Starts(rules) && RuleWalk(rules, start, steps) == Some(dir);
    WalkIsUnder(rules, start, steps);
    UnderIsLonger(start, dir);
    assert |Base(start)| >= 3 by { SlashesBase(); }
    JumpsRise(rules, link, 0);
    var js := Jumps(rules, link, 0);
    if |js| > 1 {
      assert js[0] == 0 && js[1] == 1;
      NoEntryHasBoth(dir, name);
    }
  }

  lemma SlashesBase()
    ensures |Base("/x///")| == 3 && |Base("/x//b")| == 6
  {
    assert "/x///"[..4] == "/x//" && "/x//"[..3] == "/x/" && "/x/"[..2] == "/x";
  }

  lemma NoEntryHasBoth(dir: string, name: Name)
    requires |Base(dir)| >= 3
    ensures !(Within(EntryPath(dir, name), "/x///") && Within(EntryPath(dir, name), "/x//b"))
  {
    hide Base;
    var link := EntryPath(dir, name);
    assert link[|link| - 1] == name[|name| - 1] && name[|name| - 1] in name;
    assert "/x///"[3] == '/' && "/x///"[4] == '/' && "/x//b"[4] == 'b';
  }

  // ----- A start point's own exclusions -----

  /** The start point is no entry of a scan, so that nothing is gone to from it. */
  function KeptInStart(): seq<Rule> {
    [Rule("/home", true), Rule("/home/a", false), Rule("/home/b", false), Rule("/home/b/k", true)]
  }

  lemma KeptInStartIsOrderly()
    ensures Accepted(KeptInStart()) && Orderly(KeptInStart()) && AlwaysSorted(KeptInStart())
  {
    hide AlwaysSorted, RulesOk, RulesSorted, Starts, PlainRules, Orderly, Nested, Within;
    var rules := KeptInStart();
    KeptInStartRules();
    forall i: nat, j: nat ensures !Twice(rules, i, j) {
      if i < j < 4 && rules[i].included { assert i == 0 && rules[i].path in ["/home"]; }
    }
    PlainExactly(rules);
    OrderlyExactly(rules);
  }

  lemma KeptInStartRules()
    ensures Accepted(KeptInStart()) && PlainRules(KeptInStart()) && Starts(KeptInStart()) == ["/home"]
  {
    var rules := KeptInStart();
    hide PathCmp, RulesSorted, PathOk, Plain, Starts;
    Longer("/home", "/home/a");
    assert PathCmp("/home/a", "/home/b") < 0 by { DecidedAt("/home/a", "/home/b", 6); }
    Longer("/home/b", "/home/b/k");
    forall i | 0 <= i < 3 ensures PathCmp(rules[i].path, rules[i + 1].path) < 0 {
      assert i == 0 || i == 1 || i == 2;
    }
    SortedByNeighbours(rules);
    KeptInStartPlain();
    forall i | 0 <= i < 4 ensures PathOk(rules[i].path) && Within("/home", rules[i].path) && Plain(rules[i].path) {
      assert i == 0 || i == 1 || i == 2 || i == 3;
      PathOkWithoutDots(rules[i].path);
    }
    OneStart(rules);
  }

  lemma PlainEntry(dir: string, name: Name)
    requires Plain(dir) && '.' !in dir && '.' !in name
    ensures Plain(if dir == "/" then dir + name else dir + "/" + name)
  {
    var front := if dir == "/" then dir else dir + "/";
    var path := front + name;
    assert path[|path| - 1] == name[|name| - 1] && name[|name| - 1] in name && name[0] in name;
    forall i | 0 <= i < |path| ensures path[i] != '.' {
      if i < |dir| { assert path[i] in dir; } else if i >= |front| { assert path[i] in name; }
    }
    forall i | |front| <= i < |path| ensures path[i] != '/' { assert path[i] in name; }
  }

  lemma KeptInStartPlain()
    ensures Plain("/home") && Plain("/home/a") && Plain("/home/b") && Plain("/home/b/k")
  {
    assert Plain("/") && "/" + "home" == "/home" && "/home" + "/" + "a" == "/home/a";
    assert "/home" + "/" + "b" == "/home/b" && "/home/b" + "/" + "k" == "/home/b/k";
    hide Plain;
    PlainEntry("/", "home");
    PlainEntry("/home", "a");
    PlainEntry("/home", "b");
    PlainEntry("/home/b", "k");
  }
}
