/** A client's disk as one tree: what a path leads to, and a tree with all the files
    that some names make. No symbolic link is followed on the way. */
module Disk {
  import opened Wrappers
  import opened PathOrder
  import opened Records
  import opened IncExc
  import opened Scan
  import opened ScanRises
  import opened ScanOrder

  /** Where the last part of a path begins. */
  function LastPart(path: string): (k: nat)
    ensures k <= |path| && (k > 0 ==> path[k - 1] == '/') && forall i :: k <= i < |path| ==> path[i] != '/'
    ensures path != "" && path[|path| - 1] != '/' ==> k < |path|
  {
    if path == "" || path[|path| - 1] == '/' then |path| else LastPart(path[..|path| - 1])
  }

  /** The names in a path; slashes count once and `.` leads nowhere. */
  function Parts(path: string): seq<Name>
    decreases |path|
  {
    if path == "" then []
    else if path[|path| - 1] == '/' then Parts(path[..|path| - 1])
    else
      var k := LastPart(path);
      Parts(path[..k]) + if path[k..] == "." then [] else [path[k..]]
  }

  function Nothing(): Node { Node(0, 0, 0, 0, "", Stat(false, 0, 0, 0), false, NoStat) }

  function Lookup(node: Node, parts: seq<Name>): Node {
    if parts == [] then node
    else if !node.what.Directory? then Nothing()
    else
      var e := Pick(node.what.entries, parts[0]);
      if e.None? then Nothing() else Lookup(e.value.node, parts[1..])
  }

  /** `lstat` shows what is in the tree. */
  ghost predicate OnDisk(conf: Config, root: Node) {
    TreeOk(root) && forall path :: conf.lstat(path) == Lookup(root, Parts(path))
  }

  lemma {:induction false} LookupIsOk(node: Node, parts: seq<Name>)
    requires TreeOk(node)
    ensures TreeOk(Lookup(node, parts))
    decreases |parts|
  {
    if parts != [] && node.what.Directory? {
      var e := Pick(node.what.entries, parts[0]);
      if e.Some? {
        var i :| 0 <= i < |node.what.entries| && node.what.entries[i] == e.value;
        LookupIsOk(e.value.node, parts[1..]);
      }
    }
  }

  lemma OnDiskIsOk(conf: Config, root: Node)
    requires OnDisk(conf, root)
    ensures DiskOk(conf)
  {
    hide TreeOk, Lookup;
    forall path ensures TreeOk(conf.lstat(path)) { LookupIsOk(root, Parts(path)); }
  }

  lemma {:induction false} LookupOn(node: Node, parts: seq<Name>, name: Name)
    ensures Lookup(node, parts + [name]) == Lookup(Lookup(node, parts), [name])
    decreases |parts|
  {
    if parts == [] {
      assert parts + [name] == [name];
    } else {
      assert (parts + [name])[1..] == parts[1..] + [name];
      if node.what.Directory? {
        var e := Pick(node.what.entries, parts[0]);
        if e.Some? { LookupOn(e.value.node, parts[1..], name); }
      }
    }
  }

  lemma {:induction false} BaseParts(dir: string)
    ensures Parts(Base(dir)) == Parts(dir)
    decreases |dir|
  {
    if dir == "" {
      assert "/"[..0] == "";
    } else if dir[|dir| - 1] == '/' {
      BaseParts(dir[..|dir| - 1]);
    } else {
      assert (dir + "/")[..|dir|] == dir;
    }
  }

  lemma EntryParts(dir: string, name: Name)
    requires !Dots(name)
    ensures Parts(EntryPath(dir, name)) == Parts(dir) + [name]
  {
    var path, n := EntryPath(dir, name), |Base(dir)|;
    BaseParts(dir);
    assert path[|path| - 1] == name[|name| - 1] && name[|name| - 1] in name;
    assert path[..n] == Base(dir) && path[n..] == name;
    assert path[n - 1] == '/';
    assert forall i :: n <= i < |path| ==> path[i] == name[i - n] && name[i - n] in name;
    assert LastPart(path) == n;
  }

  /** A scan finds in a directory what `lstat` shows there. */
  lemma EntriesAreShown(conf: Config, root: Node, dir: string, e: Entry)
    requires OnDisk(conf, root) && conf.lstat(dir).what.Directory? && e in conf.lstat(dir).what.entries
    requires !Dots(e.name)
    ensures conf.lstat(EntryPath(dir, e.name)) == e.node
  {
    hide EntryPath, Parts;
    EntryParts(dir, e.name);
    LookupOn(root, Parts(dir), e.name);
    LookupIsOk(root, Parts(dir));
    PickIsEntry(conf.lstat(dir).what.entries, e);
    assert [e.name][1..] == [];
  }

  // ----- A full tree -----

  /** Every file that the names make, `k` directories deep. */
  function Full(names: seq<Name>, k: nat): Node {
    Node(0, 0, 2, 0, "", Stat(true, 0, 0, 0), false,
         Directory(false, true, if k == 0 then [] else Entries(names, Full(names, k - 1))))
  }

  function Entries(names: seq<Name>, node: Node): (es: seq<Entry>)
    ensures |es| == |names| && forall i :: 0 <= i < |es| ==> es[i] == Entry(names[i], node)
  {
    seq(|names|, i requires 0 <= i < |names| => Entry(names[i], node))
  }

  ghost predicate Distinct(names: seq<Name>) {
    forall i, j :: 0 <= i < j < |names| ==> names[i] != names[j]
  }

  function Once(names: seq<Name>): (r: seq<Name>)
    ensures forall x :: x in r <==> x in names
    ensures Distinct(r)
  {
    if names == [] then []
    else
      assert names == [names[0]] + names[1..];
      var rest := Once(names[1..]);
      if names[0] in rest then rest else [names[0]] + rest
  }

  lemma {:induction false} FullIsOk(names: seq<Name>, k: nat)
    requires Distinct(names)
    ensures TreeOk(Full(names, k))
  {
    if k > 0 { FullIsOk(names, k - 1); }
  }

  lemma PickEntry(names: seq<Name>, node: Node, name: Name)
    requires name in names
    ensures Pick(Entries(names, node), name) == Some(Entry(name, node))
  {
    var i :| 0 <= i < |names| && names[i] == name;
    assert Entries(names, node)[i] in Entries(names, node);
  }

  lemma FullHas(names: seq<Name>, k: nat)
    requires k > 0
    ensures Full(names, k).what.Directory? && Full(names, k).what.entries == Entries(names, Full(names, k - 1))
  {
    hide Entries;
  }

  lemma {:induction false} LookupFull(names: seq<Name>, k: nat, parts: seq<Name>)
    requires |parts| <= k && forall x :: x in parts ==> x in names
    ensures Lookup(Full(names, k), parts) == Full(names, k - |parts|)
    decreases |parts|
  {
    hide Pick, Entries, Full;
    if parts != [] {
      FullHas(names, k);
      PickEntry(names, Full(names, k - 1), parts[0]);
      LookupFull(names, k - 1, parts[1..]);
    }
  }
}
