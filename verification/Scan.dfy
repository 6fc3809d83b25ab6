/** The client's scan: `find_files` down a tree of directories (src/find.c), and
    the records `send_file` makes of what it finds (src/backup_phase1_client.c).
    The Unix build is modelled. */
module Scan {
  import opened Wrappers
  import opened PathOrder
  import opened Records
  import opened IncExc

  /** What `lstat` shows of a file, and what lies behind it. */
  datatype Node = Node(dev: bv64, ino: bv64, nlink: nat, size: nat, statbuf: string, st: Stat, extrameta: bool,
                       what: What)
  datatype What =
    | NoStat
    | Regular
    | SoftLink(target: Option<string>)
    | Special(readIt: bool)   // device, fifo or socket; `readIt`: configured to be read like a file
    | Directory(nobackup: bool, opens: bool, entries: seq<Entry>)
  datatype Entry = Entry(name: Name, node: Node)

  /** The client's configuration, as far as the scan asks it, and its disk: `omits` is
      `in_exclude_ext` or `in_exclude_regex`, `ext` is `in_include_ext`, `lstat` shows
      what is at the path of an `include` line. */
  datatype Config = Config(
    rules: seq<Rule>,
    lstat: string -> Node,
    omits: string -> bool,
    ext: string -> bool,
    minSize: nat,
    maxSize: nat,
    fstypeExcluded: string -> bool,
    crossingAllowed: string -> bool,
    earlyMeta: bool,           // split_vss && !strip_vss
    encrypted: bool)
  {
    function FileSymbol(): char { if encrypted then CMD_ENC_FILE else CMD_FILE }
    function MetaSymbol(): char { if encrypted then CMD_ENC_METADATA else CMD_METADATA }

    /** `file_is_included_no_incext` */
    predicate Scans(path: string) { !omits(path) && Included(rules, path) }

    /** `file_is_included` */
    predicate Includes(path: string, top: bool) { (top || ext(path)) && Scans(path) }

    predicate SizeOk(size: nat) { (minSize == 0 || size >= minSize) && (maxSize == 0 || size <= maxSize) }
  }

  // ----- Names and paths -----

  /** A directory has each name once. */
  ghost predicate NamesOk(es: seq<Entry>) {
    forall i, j :: 0 <= i < j < |es| ==> es[i].name != es[j].name
  }

  ghost predicate TreeOk(node: Node)
    decreases node
  {
    node.what.Directory? ==>
      NamesOk(node.what.entries) && forall i :: 0 <= i < |node.what.entries| ==> TreeOk(node.what.entries[i].node)
  }

  // ----- The order of a directory's entries -----

  function Insert(e: Entry, es: seq<Entry>): (r: seq<Entry>)
    ensures forall x :: x in r <==> x == e || x in es
    ensures |r| == |es| + 1
  {
    if es == [] || PathCmp(e.name, es[0].name) < 0 then [e] + es
    else
      assert es == [es[0]] + es[1..];
      [es[0]] + Insert(e, es[1..])
  }

  /** What `readdir` lists, without the two dots, in path order. The sort is the C
      library's; any sort gives the same, as no name comes twice. */
  function Children(es: seq<Entry>): (r: seq<Entry>)
    ensures forall x :: x in r <==> x in es && !Dots(x.name)
  {
    if es == [] then []
    else
      assert es == [es[0]] + es[1..];
      var rest := Children(es[1..]);
      if Dots(es[0].name) then rest else Insert(es[0], rest)
  }

  ghost predicate Ordered(es: seq<Entry>) {
    forall i, j :: 0 <= i < j < |es| ==> PathCmp(es[i].name, es[j].name) < 0
  }

  lemma {:induction false} InsertOrdered(e: Entry, es: seq<Entry>)
    requires Ordered(es) && forall x :: x in es ==> x.name != e.name
    ensures Ordered(Insert(e, es))
  {
    hide PathCmp;
    if es == [] {
    } else if PathCmp(e.name, es[0].name) < 0 {
      forall j | 0 < j < |es| ensures PathCmp(e.name, es[j].name) < 0 {
        PathCmpTransitive(e.name, es[0].name, es[j].name);
      }
    } else {
      PathCmpAntisymmetric(e.name, es[0].name);
      assert es[0] in es;
      InsertOrdered(e, es[1..]);
      HeadFirst(es[0], e, es[1..]);
    }
  }

  lemma HeadFirst(head: Entry, e: Entry, es: seq<Entry>)
    requires Ordered([head] + es) && PathCmp(head.name, e.name) < 0 && Ordered(Insert(e, es))
    ensures Ordered([head] + Insert(e, es))
  {
    hide PathCmp, Insert;
    var r := Insert(e, es);
    forall j | 0 <= j < |r| ensures PathCmp(head.name, r[j].name) < 0 {
      assert r[j] in r;
      if r[j] != e {
        var k :| 0 <= k < |es| && es[k] == r[j];
        assert ([head] + es)[k + 1] == r[j] && ([head] + es)[0] == head;
      }
    }
  }

  lemma {:induction false} ChildrenOrdered(es: seq<Entry>)
    requires NamesOk(es)
    ensures Ordered(Children(es))
  {
    if es != [] {
      ChildrenOrdered(es[1..]);
      var rest := Children(es[1..]);
      if !Dots(es[0].name) {
        forall x | x in rest ensures x.name != es[0].name {
          var i :| 0 <= i < |es[1..]| && es[1..][i] == x;
        }
        InsertOrdered(es[0], rest);
      }
    }
  }

  // ----- What is looked at, in which order -----

  datatype Visit = Visit(path: string, node: Node, top: bool)

  predicate Descends(conf: Config, node: Node, fname: string, parentDev: bv64, top: bool) {
    && node.what.Directory? && !node.what.nobackup && node.what.opens
    && (top || parentDev == node.dev || (!conf.fstypeExcluded(fname) && conf.crossingAllowed(fname)))
  }

  lemma EntrySmaller(node: Node, e: Entry)
    requires node.what.Directory? && e in node.what.entries
    ensures e.node < node
  {
  }

  /** How many rules have a path deeper than `n` characters. */
  function Deeper(rules: seq<Rule>, n: nat): nat {
    if rules == [] then 0
    else Deeper(rules[1..], n) + if |Base(rules[0].path)| > n then 1 else 0
  }

  lemma {:induction false} DeeperLess(rules: seq<Rule>, m: nat, n: nat)
    requires m <= n
    ensures Deeper(rules, n) <= Deeper(rules, m)
    ensures (exists j :: 0 <= j < |rules| && m < |Base(rules[j].path)| <= n) ==> Deeper(rules, n) < Deeper(rules, m)
  {
    hide Base;
    if rules != [] { DeeperLess(rules[1..], m, n); }
  }

  /** A directory's entries are longer paths. */
  lemma EntryIsDeeper(rules: seq<Rule>, fname: string, name: Name)
    ensures Deeper(rules, |Base(EntryPath(fname, name))|) <= Deeper(rules, |Base(fname)|)
  {
    hide Base;
    LongerBase(fname, name, EntryPath(fname, name));
    DeeperLess(rules, |Base(fname)|, |Base(EntryPath(fname, name))|);
  }

  lemma JumpIsDeeper(rules: seq<Rule>, fname: string, name: Name, j: nat)
    requires j < |rules| && Within(EntryPath(fname, name), rules[j].path)
    ensures Deeper(rules, |Base(rules[j].path)|) < Deeper(rules, |Base(fname)|)
  {
    hide Base;
    LongerBase(fname, name, rules[j].path);
    DeeperLess(rules, |Base(fname)|, |Base(rules[j].path)|);
  }

  function Visited(conf: Config, node: Node, fname: string, parentDev: bv64, top: bool): seq<Visit>
    decreases Deeper(conf.rules, |Base(fname)|), node, 1, 0, 0
  {
    [Visit(fname, node, top)] +
    if Descends(conf, node, fname, parentDev, top)
    then VisitedIn(conf, node, Children(node.what.entries), fname) else []
  }

  function VisitedIn(conf: Config, dir: Node, kids: seq<Entry>, fname: string): seq<Visit>
    requires dir.what.Directory? && forall e :: e in kids ==> e in dir.what.entries
    decreases Deeper(conf.rules, |Base(fname)|), dir, 0, |kids| + 1, 0
  {
    if kids == [] then []
    else
      var n := |kids| - 1;
      VisitedIn(conf, dir, kids[..n], fname) + VisitedAt(conf, dir, kids[n], fname)
  }

  /** An entry if it is included, and else the included paths in it. */
  function VisitedAt(conf: Config, dir: Node, e: Entry, fname: string): seq<Visit>
    requires dir.what.Directory? && e in dir.what.entries
    decreases Deeper(conf.rules, |Base(fname)|), dir, 0, 1, 0
  {
    var link := EntryPath(fname, e.name);
    EntrySmaller(dir, e);
    EntryIsDeeper(conf.rules, fname, e.name);
    if conf.Scans(link) then Visited(conf, e.node, link, dir.dev, false)
    else VisitedByRules(conf, dir, e.name, Jumps(conf.rules, link, 0), fname)
  }

  function VisitedByRules(conf: Config, dir: Node, name: Name, js: seq<nat>, fname: string): seq<Visit>
    requires forall k :: 0 <= k < |js| ==>
               js[k] < |conf.rules| && Within(EntryPath(fname, name), conf.rules[js[k]].path)
    decreases Deeper(conf.rules, |Base(fname)|), dir, 0, 0, |js|
  {
    if js == [] then []
    else
      var n := |js| - 1;
      var path := conf.rules[js[n]].path;
      JumpIsDeeper(conf.rules, fname, name, js[n]);
      VisitedByRules(conf, dir, name, js[..n], fname) + Visited(conf, conf.lstat(path), path, dir.dev, false)
  }

  // ----- What is sent of it -----

  /** `FF_PKT.type`, where it makes a difference. */
  datatype Found = LnkSaved(to: string) | Reg | Lnk(to: string) | DirBegin | Spec | Unusable

  function Record(cmd: char, path: string, linkto: Option<string>, node: Node): Sbuf {
    Sbuf(cmd, path, linkto, None, node.statbuf, node.st, None)
  }

  /** `maybe_send_extrameta` */
  function Extrameta(conf: Config, path: string, node: Node): seq<Sbuf> {
    if node.extrameta then [Record(conf.MetaSymbol(), path, None, node)] else []
  }

  /** `send_file` */
  function SendFile(conf: Config, path: string, node: Node, top: bool, found: Found): seq<Sbuf> {
    if !conf.Includes(path, top) then []
    else
      match found
      case LnkSaved(to) => [Record(CMD_HARD_LINK, path, Some(to), node)] + Extrameta(conf, path, node)
      case Reg => [Record(conf.FileSymbol(), path, None, node)] + Extrameta(conf, path, node)
      case Lnk(to) =>
        (if conf.earlyMeta then Extrameta(conf, path, node) else []) +
        [Record(CMD_SOFT_LINK, path, Some(to), node)] + Extrameta(conf, path, node)
      case DirBegin => [Record(CMD_DIRECTORY, path, None, node)] + Extrameta(conf, path, node)
      case Spec => [Record(CMD_SPECIAL, path, None, node)] + Extrameta(conf, path, node)
      case Unusable => []
  }

  predicate Linkable(node: Node) { node.nlink > 1 && (node.what.Regular? || node.what.Special?) }

  /** Where the file with this identity was met first. */
  function Saved(vs: seq<Visit>, dev: bv64, ino: bv64): Option<string> {
    if vs == [] then None
    else
      var n := |vs| - 1;
      var earlier := Saved(vs[..n], dev, ino);
      if earlier.Some? then earlier
      else if Linkable(vs[n].node) && vs[n].node.dev == dev && vs[n].node.ino == ino then Some(vs[n].path)
      else None
  }

  /** What the file is sent as, if at all, after the others were met. */
  function FoundAs(conf: Config, vs: seq<Visit>, v: Visit): Option<Found> {
    if v.node.what.NoStat? then Some(Unusable)
    else
      var saved := if Linkable(v.node) then Saved(vs, v.node.dev, v.node.ino) else None;
      if saved.Some? then
        if saved.value == v.path then None else Some(LnkSaved(saved.value))
      else
        match v.node.what
        case Regular => if conf.SizeOk(v.node.size) then Some(Reg) else None
        case SoftLink(target) => Some(if target.Some? then Lnk(target.value) else Unusable)
        case Special(readIt) => Some(if readIt then Reg else Spec)
        case Directory(nobackup, _, _) => if nobackup then None else Some(DirBegin)
        case NoStat => Some(Unusable)
  }

  function Emit(conf: Config, vs: seq<Visit>, v: Visit): seq<Sbuf> {
    var found := FoundAs(conf, vs, v);
    if found.None? then [] else SendFile(conf, v.path, v.node, v.top, found.value)
  }

  function Emitted(conf: Config, vs: seq<Visit>): seq<Sbuf> {
    if vs == [] then []
    else
      var n := |vs| - 1;
      Emitted(conf, vs[..n]) + Emit(conf, vs[..n], vs[n])
  }

  // ----- The scan itself -----

  /** `struct f_link`; a chain of them for each value of the hash. */
  datatype Link = Link(dev: bv64, ino: bv64, name: string)

  function LinkHash(dev: bv64, ino: bv64): nat {
    ((dev ^ ino ^ (ino >> 16) ^ (ino >> 32) ^ (ino >> 48)) & 0xFFFF) as nat
  }

  function Chain(table: map<nat, seq<Link>>, h: nat): seq<Link> {
    if h in table then table[h] else []
  }

  function Search(chain: seq<Link>, dev: bv64, ino: bv64): Option<string> {
    if chain == [] then None
    else if chain[0].ino == ino && chain[0].dev == dev then Some(chain[0].name)
    else Search(chain[1..], dev, ino)
  }

  /** The table answers for every file met so far. */
  ghost predicate TableOk(table: map<nat, seq<Link>>, vs: seq<Visit>) {
    forall dev, ino :: Search(Chain(table, LinkHash(dev, ino)), dev, ino) == Saved(vs, dev, ino)
  }

  lemma EmittedMore(conf: Config, vs: seq<Visit>, v: Visit)
    ensures Emitted(conf, vs + [v]) == Emitted(conf, vs) + Emit(conf, vs, v)
  {
    assert (vs + [v])[..|vs|] == vs;
  }

  lemma SavedMore(vs: seq<Visit>, v: Visit, dev: bv64, ino: bv64)
    ensures Saved(vs + [v], dev, ino) ==
            if Saved(vs, dev, ino).Some? then Saved(vs, dev, ino)
            else if Linkable(v.node) && v.node.dev == dev && v.node.ino == ino then Some(v.path) else None
  {
    assert (vs + [v])[..|vs|] == vs;
  }

  /** A file that is not new to the table leaves it right. */
  lemma TableStays(table: map<nat, seq<Link>>, vs: seq<Visit>, v: Visit)
    requires TableOk(table, vs)
    requires !Linkable(v.node) || Saved(vs, v.node.dev, v.node.ino).Some?
    ensures TableOk(table, vs + [v])
  {
    forall dev, ino ensures Search(Chain(table, LinkHash(dev, ino)), dev, ino) == Saved(vs + [v], dev, ino) {
      SavedMore(vs, v, dev, ino);
    }
  }

  /** A new one goes in front of its chain. */
  lemma TableGrows(table: map<nat, seq<Link>>, vs: seq<Visit>, v: Visit)
    requires TableOk(table, vs) && Linkable(v.node) && Saved(vs, v.node.dev, v.node.ino).None?
    ensures var h := LinkHash(v.node.dev, v.node.ino);
            TableOk(table[h := [Link(v.node.dev, v.node.ino, v.path)] + Chain(table, h)], vs + [v])
  {
    hide LinkHash, Search;
    var h := LinkHash(v.node.dev, v.node.ino);
    var l := Link(v.node.dev, v.node.ino, v.path);
    var table' := table[h := [l] + Chain(table, h)];
    forall dev, ino ensures Search(Chain(table', LinkHash(dev, ino)), dev, ino) == Saved(vs + [v], dev, ino) {
      SavedMore(vs, v, dev, ino);
      SearchMore(l, Chain(table, h), dev, ino);
      var k := LinkHash(dev, ino);
      assert Chain(table', k) == if k == h then [l] + Chain(table, h) else Chain(table, k);
      assert Search(Chain(table, k), dev, ino) == Saved(vs, dev, ino);
    }
  }

  lemma SearchMore(l: Link, chain: seq<Link>, dev: bv64, ino: bv64)
    ensures Search([l] + chain, dev, ino) ==
            if l.ino == ino && l.dev == dev then Some(l.name) else Search(chain, dev, ino)
  {
    assert ([l] + chain)[1..] == chain;
  }

  lemma VisitedInNothing(conf: Config, dir: Node, fname: string)
    requires dir.what.Directory?
    ensures VisitedIn(conf, dir, [], fname) == []
  {
  }

  lemma VisitedInMore(conf: Config, dir: Node, kids: seq<Entry>, fname: string, m: nat)
    requires dir.what.Directory? && forall e :: e in kids ==> e in dir.what.entries
    requires m < |kids|
    ensures VisitedIn(conf, dir, kids[..m + 1], fname) ==
            VisitedIn(conf, dir, kids[..m], fname) + VisitedAt(conf, dir, kids[m], fname)
  {
    hide VisitedAt;
    assert kids[..m + 1][..m] == kids[..m];
  }

  lemma OneEntry(conf: Config, dir: Node, e: Entry, fname: string)
    requires dir.what.Directory? && dir.what.entries == [e] && !Dots(e.name)
    ensures VisitedIn(conf, dir, Children([e]), fname) == VisitedAt(conf, dir, e, fname)
  {
    hide VisitedAt;
    assert [e][1..] == [] && Children([]) == [] && Children([e]) == [e];
    assert [e][..0] == [];
    VisitedInNothing(conf, dir, fname);
  }

  lemma VisitedByNoRules(conf: Config, dir: Node, name: Name, fname: string)
    ensures VisitedByRules(conf, dir, name, [], fname) == []
  {
  }

  /** The rules gone to so far, and the next one. */
  lemma VisitedByRulesMore(conf: Config, dir: Node, name: Name, js: seq<nat>, j: nat, fname: string)
    requires forall k :: 0 <= k < |js| ==>
               js[k] < |conf.rules| && Within(EntryPath(fname, name), conf.rules[js[k]].path)
    requires j < |conf.rules| && Within(EntryPath(fname, name), conf.rules[j].path)
    ensures var path := conf.rules[j].path;
            VisitedByRules(conf, dir, name, js + [j], fname) ==
            VisitedByRules(conf, dir, name, js, fname) + Visited(conf, conf.lstat(path), path, dir.dev, false)
  {
    hide Visited, Within, EntryPath;
    assert (js + [j])[..|js|] == js;
  }

  class Scanner {
    const conf: Config
    var linkhash: map<nat, seq<Link>>
    var sent: seq<Sbuf>
    ghost var visits: seq<Visit>

    ghost predicate Valid()
      reads this
    {
      TableOk(linkhash, visits) && sent == Emitted(conf, visits)
    }

    constructor (conf: Config)
      ensures Valid() && this.conf == conf && visits == [] && fresh(this)
    {
      this.conf, linkhash, sent, visits := conf, map[], [], [];
    }

    /** Down the chain of the hash. */
    method LookUp(dev: bv64, ino: bv64) returns (name: Option<string>)
      requires Valid()
      ensures name == Saved(visits, dev, ino)
    {
      hide LinkHash;
      var chain := Chain(linkhash, LinkHash(dev, ino));
      ghost var all := chain;
      while chain != []
        invariant Search(chain, dev, ino) == Search(all, dev, ino)
        decreases |chain|
      {
        if chain[0].ino == ino && chain[0].dev == dev { return Some(chain[0].name); }
        chain := chain[1..];
      }
      return None;
    }

    /** A file that is done with once it is sent. */
    method Send(node: Node, fname: string, top: bool, found: Option<Found>)
      requires Valid() && found == FoundAs(conf, visits, Visit(fname, node, top))
      requires !Linkable(node) || Saved(visits, node.dev, node.ino).Some?
      modifies this`sent, this`visits
      ensures Valid() && visits == old(visits) + [Visit(fname, node, top)]
    {
      hide FoundAs, SendFile;
      EmittedMore(conf, visits, Visit(fname, node, top));
      TableStays(linkhash, visits, Visit(fname, node, top));
      if found.Some? { sent := sent + SendFile(conf, fname, node, top, found.value); }
      visits := visits + [Visit(fname, node, top)];
    }

    /** The first meeting with a file that has other names. */
    method SendFirst(node: Node, fname: string, top: bool, found: Option<Found>)
      requires Valid() && found == FoundAs(conf, visits, Visit(fname, node, top))
      requires Linkable(node) && Saved(visits, node.dev, node.ino).None?
      modifies this`sent, this`visits, this`linkhash
      ensures Valid() && visits == old(visits) + [Visit(fname, node, top)]
    {
      hide FoundAs, SendFile, LinkHash;
      EmittedMore(conf, visits, Visit(fname, node, top));
      TableGrows(linkhash, visits, Visit(fname, node, top));
      var h := LinkHash(node.dev, node.ino);
      linkhash := linkhash[h := [Link(node.dev, node.ino, fname)] + Chain(linkhash, h)];
      if found.Some? { sent := sent + SendFile(conf, fname, node, top, found.value); }
      visits := visits + [Visit(fname, node, top)];
    }

    /** `find_files` */
    method FindFiles(node: Node, fname: string, parentDev: bv64, top: bool)
      requires Valid()
      modifies this
      ensures Valid() && visits == old(visits) + Visited(conf, node, fname, parentDev, top)
      decreases Deeper(conf.rules, |Base(fname)|), node, 1, 0, 0
    {
      hide Emitted, TableOk, VisitedIn, Saved, Children;
      if Linkable(node) {
        var saved := LookUp(node.dev, node.ino);
        if saved.Some? {
          Send(node, fname, top, if saved.value == fname then None else Some(LnkSaved(saved.value)));
        } else if node.what.Regular? {
          SendFirst(node, fname, top, FoundRegularFile(node));
        } else {
          SendFirst(node, fname, top, Some(if node.what.readIt then Reg else Spec));
        }
        return;
      }
      match node.what
      case NoStat => Send(node, fname, top, Some(Unusable));
      case Regular => Send(node, fname, top, FoundRegularFile(node));
      case SoftLink(target) => Send(node, fname, top, Some(if target.Some? then Lnk(target.value) else Unusable));
      case Special(readIt) => Send(node, fname, top, Some(if readIt then Reg else Spec));
      case Directory(_, _, _) => FoundDirectory(node, fname, parentDev, top);
    }

    /** `found_regular_file` */
    function FoundRegularFile(node: Node): Option<Found> {
      if conf.minSize != 0 && node.size < conf.minSize then None
      else if conf.maxSize != 0 && node.size > conf.maxSize then None
      else Some(Reg)
    }

    /** `found_directory` */
    method FoundDirectory(node: Node, fname: string, parentDev: bv64, top: bool)
      requires Valid() && node.what.Directory?
      modifies this
      ensures Valid() && visits == old(visits) + Visited(conf, node, fname, parentDev, top)
      decreases Deeper(conf.rules, |Base(fname)|), node, 0, |Children(node.what.entries)| + 2, 0
    {
      hide Emitted, TableOk, Base, VisitedIn, Saved, Children;
      if node.what.nobackup {
        Send(node, fname, top, None);
        return;
      }
      Send(node, fname, top, Some(DirBegin));
      if !top && parentDev != node.dev {
        if conf.fstypeExcluded(fname) || !conf.crossingAllowed(fname) { return; }
      }
      if !node.what.opens { return; }
      ProcessFilesInDirectory(node, Children(node.what.entries), fname);
    }

    /** `process_files_in_directory` */
    method ProcessFilesInDirectory(dir: Node, nl: seq<Entry>, fname: string)
      requires Valid() && dir.what.Directory? && forall e :: e in nl ==> e in dir.what.entries
      modifies this
      ensures Valid() && visits == old(visits) + VisitedIn(conf, dir, nl, fname)
      decreases Deeper(conf.rules, |Base(fname)|), dir, 0, |nl| + 1, 0
    {
      hide Emitted, TableOk, Visited, VisitedIn, Base, Deeper, VisitedByRules;
      VisitedInNothing(conf, dir, fname);
      var base := Base(fname);
      for m := 0 to |nl|
        invariant Valid() && visits == old(visits) + VisitedIn(conf, dir, nl[..m], fname)
      {
        var link := base + nl[m].name;
        VisitedInMore(conf, dir, nl, fname, m);
        EntrySmaller(dir, nl[m]);
        EntryIsDeeper(conf.rules, fname, nl[m].name);
        var scans := FileIsIncludedNoIncext(link);
        if scans {
          FindFiles(nl[m].node, link, dir.dev, false);
        } else {
          FindIncludedIn(dir, nl[m].name, link, fname);
        }
      }
      assert nl[..|nl|] == nl;
    }

    method FileIsIncludedNoIncext(path: string) returns (included: bool)
      ensures included == conf.Scans(path)
    {
      if conf.omits(path) { return false; }
      included := RuleFor(conf.rules, path);
    }

    /** An excluded entry: the part of `process_files_in_directory` that looks for
        included paths in it. */
    method FindIncludedIn(dir: Node, name: Name, link: string, fname: string)
      requires Valid() && link == EntryPath(fname, name)
      modifies this
      ensures Valid()
      ensures visits == old(visits) + VisitedByRules(conf, dir, name, Jumps(conf.rules, link, 0), fname)
      decreases Deeper(conf.rules, |Base(fname)|), dir, 0, 0, 0
    {
      hide Emitted, TableOk, Visited, Base, Deeper, Within, EntryPath, VisitedByRules;
      VisitedByNoRules(conf, dir, name, fname);
      var ex := 0;
      ghost var done: seq<nat> := [];
      while ex < |conf.rules|
        invariant Valid() && done + Jumps(conf.rules, link, ex) == Jumps(conf.rules, link, 0)
        invariant forall k :: 0 <= k < |done| ==> done[k] < |conf.rules| && Within(link, conf.rules[done[k]].path)
        invariant visits == old(visits) + VisitedByRules(conf, dir, name, done, fname)
        decreases |conf.rules| - ex
      {
        var inside := IsSubdir(Some(link), Some(conf.rules[ex].path));
        if conf.rules[ex].included && inside != 0 {
          var path := conf.rules[ex].path;
          VisitedByRulesMore(conf, dir, name, done, ex, fname);
          JumpIsDeeper(conf.rules, fname, name, ex);
          FindFiles(conf.lstat(path), path, dir.dev, false);
          done := done + [ex];
          ex := SkipInner(ex);
        }
        ex := ex + 1;
      }
      assert done == Jumps(conf.rules, link, 0);
    }

    /** The inner loop. */
    method SkipInner(from: nat) returns (ex: nat)
      requires from < |conf.rules|
      ensures ex == SkipFrom(conf.rules, from, from + 1)
    {
      hide Within;
      ex := from;
      for ey := from + 1 to |conf.rules|
        invariant from <= ex < ey && SkipFrom(conf.rules, ex, ey) == SkipFrom(conf.rules, from, from + 1)
      {
        var inside := IsSubdir(Some(conf.rules[ex].path), Some(conf.rules[ey].path));
        if inside != 0 { ex := ex + 1; }
      }
    }
  }
}
