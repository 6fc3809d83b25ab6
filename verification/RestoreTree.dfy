/** The order in which a manifest is restored: `restore_ent` and the loop of
    `restore_manifest` (src/restore_server.c). Directories wait on a stack until
    nothing more is restored inside them. */
module RestoreTree {
  import opened Wrappers
  import opened PathOrder
  import opened Records

  /** In path order; records of one path may follow each other. */
  ghost predicate PathsSorted(l: seq<Sbuf>) {
    forall i, j :: 0 <= i < j < |l| ==> PathCmp(l[i].path, l[j].path) <= 0
  }

  /** Entry `i` is a directory, or belongs to one, and `j` lies in it. */
  predicate Waits(l: seq<Sbuf>, i: nat, j: nat) {
    i < |l| && j < |l| && l[i].statp.isDir && Within(l[i].path, l[j].path)
  }

  /** Entry `i` may be restored before entry `j`: they keep the order of the list,
      except that what waits for the other comes after it. */
  predicate MayPrecede(l: seq<Sbuf>, i: nat, j: nat) {
    if i < j then !Waits(l, i, j) else Waits(l, j, i)
  }

  /** `order` lists every entry once, each pair the right way round. */
  ghost predicate RestoreOrder(l: seq<Sbuf>, order: seq<nat>) {
    && (forall i :: i in order <==> 0 <= i < |l|)
    && (forall a, b :: 0 <= a < b < |order| ==> order[a] != order[b] && MayPrecede(l, order[a], order[b]))
  }

  predicate InRange(l: seq<Sbuf>, order: seq<nat>) { forall k :: 0 <= k < |order| ==> order[k] < |l| }

  function Pick(l: seq<Sbuf>, order: seq<nat>): (r: seq<Sbuf>)
    requires InRange(l, order)
    ensures |r| == |order| && forall k :: 0 <= k < |order| ==> r[k] == l[order[k]]
  {
    seq(|order|, k requires 0 <= k < |order| => l[order[k]])
  }

  /** Half way: `done` is restored, `stack` waits, and entries from `n` on are still
      to be read. */
  ghost predicate Underway(l: seq<Sbuf>, n: nat, done: seq<nat>, stack: seq<nat>) {
    && n <= |l|
    && (forall i :: i in done || i in stack <==> 0 <= i < n)
    && (forall a, b :: 0 <= a < |done| && 0 <= b < |stack| ==> done[a] != stack[b])
    && (forall a, b :: 0 <= a < b < |done| ==> done[a] != done[b])
    && (forall a, b :: 0 <= a < b < |stack| ==> stack[a] < stack[b] && Waits(l, stack[a], stack[b]))
    && (forall a :: 0 <= a < |stack| ==> stack[a] < n && l[stack[a]].statp.isDir)
    && (forall a, b :: 0 <= a < b < |done| ==> MayPrecede(l, done[a], done[b]))
    && (forall a, b :: 0 <= a < |done| && 0 <= b < |stack| ==> MayPrecede(l, done[a], stack[b]))
    && (forall a, m :: 0 <= a < |done| && n <= m < |l| ==> MayPrecede(l, done[a], m))
  }

  /** The entry being read lies in the directory on top of the stack. */
  ghost predicate TopHolds(l: seq<Sbuf>, n: nat, stack: seq<nat>) {
    stack == [] || Waits(l, stack[|stack| - 1], n)
  }

  /** A directory that the next entry does not lie in can be restored: nothing
      further on lies in it either. */
  lemma Popped(l: seq<Sbuf>, n: nat, done: seq<nat>, stack: seq<nat>)
    requires PathsSorted(l) && Underway(l, n, done, stack) && stack != []
    requires n < |l| ==> !TopHolds(l, n, stack)
    ensures Underway(l, n, done + [stack[|stack| - 1]], stack[..|stack| - 1])
  {
    hide Within, PathCmp;
    var k := |stack| - 1;
    var t := stack[k];
    assert t in stack && t < n;
    forall m | n <= m < |l| ensures !Waits(l, t, m) {
      if Waits(l, t, m) {
        if n < m { DescendantsContiguous(l[t].path, l[n].path, l[m].path); }
      }
    }
    var done', stack' := done + [t], stack[..k];
    assert stack == stack' + [t];
    assert forall i :: i in done' <==> i in done || i == t;
    assert forall i :: i in stack <==> i in stack' || i == t;
    assert t !in stack';
  }

  /** A directory's own entry waits. */
  lemma Pushed(l: seq<Sbuf>, n: nat, done: seq<nat>, stack: seq<nat>)
    requires Underway(l, n, done, stack) && n < |l| && l[n].statp.isDir && TopHolds(l, n, stack)
    ensures Underway(l, n + 1, done, stack + [n])
  {
    AllHold(l, n, done, stack);
    hide Within, Waits, MayPrecede;
    var stack' := stack + [n];
    assert forall i :: i in stack' <==> i in stack || i == n;
    assert forall a :: 0 <= a < |done| ==> done[a] in done;
    assert forall a :: 0 <= a < |stack| ==> stack[a] in stack;
  }

  /** Any other entry is restored at once. */
  lemma RestoredAtOnce(l: seq<Sbuf>, n: nat, done: seq<nat>, stack: seq<nat>)
    requires Underway(l, n, done, stack) && n < |l| && !l[n].statp.isDir && TopHolds(l, n, stack)
    ensures Underway(l, n + 1, done + [n], stack)
  {
    AllHold(l, n, done, stack);
    assert forall m :: n < m < |l| ==> MayPrecede(l, n, m);
    assert forall a :: 0 <= a < |stack| ==> stack[a] in stack && MayPrecede(l, n, stack[a]);
    hide Within, Waits, MayPrecede;
    var done' := done + [n];
    assert forall i :: i in done' <==> i in done || i == n;
    assert forall a :: 0 <= a < |done| ==> done[a] in done;
  }

  /** What lies in the directory on top lies in all of them. */
  lemma AllHold(l: seq<Sbuf>, n: nat, done: seq<nat>, stack: seq<nat>)
    requires Underway(l, n, done, stack) && n < |l| && TopHolds(l, n, stack)
    ensures forall a :: 0 <= a < |stack| ==> Waits(l, stack[a], n)
  {
    var k := |stack| - 1;
    forall a | 0 <= a < k ensures Waits(l, stack[a], n) {
      WithinTransitive(l[stack[a]].path, l[stack[k]].path, l[n].path);
    }
  }

  lemma TopIsDirectory(l: seq<Sbuf>, n: nat, done: seq<nat>, stack: seq<nat>)
    requires Underway(l, n, done, stack) && stack != []
    ensures stack[|stack| - 1] < n <= |l| && l[stack[|stack| - 1]].statp.isDir
  {
  }

  class Restorer {
    var sblist: seq<Sbuf>
    var sent: seq<Sbuf>        // what `restore_sbuf` was called with
    ghost var list: seq<Sbuf>  // the entries that are to be restored
    ghost var done: seq<nat>
    ghost var stack: seq<nat>

    ghost predicate At(n: nat)
      reads this
    {
      && PathsSorted(list) && Underway(list, n, done, stack)
      && InRange(list, done) && InRange(list, stack)
      && sent == Pick(list, done) && sblist == Pick(list, stack)
    }

    constructor (ghost list: seq<Sbuf>)
      requires PathsSorted(list)
      ensures At(0) && this.list == list && fresh(this)
    {
      sblist, sent := [], [];
      this.list, done, stack := list, [], [];
    }

    /** Restores the directory on top of the stack and takes it off. */
    method Pop(ghost n: nat)
      requires At(n) && sblist != []
      requires n < |list| ==> !TopHolds(list, n, stack)
      modifies this
      ensures At(n) && list == old(list)
      ensures sblist == old(sblist)[..|old(sblist)| - 1]
    {
      hide Underway, Within;
      Popped(list, n, done, stack);
      var k := |sblist| - 1;
      assert Pick(list, done + [stack[k]]) == sent + [sblist[k]];
      assert Pick(list, stack[..k]) == sblist[..k];
      sent, sblist := sent + [sblist[k]], sblist[..k];
      done, stack := done + [stack[k]], stack[..k];
    }

    /** `restore_ent` */
    method RestoreEnt(sb: Sbuf, ghost n: nat)
      requires At(n) && n < |list| && sb == list[n]
      modifies this
      ensures At(n + 1) && list == old(list)
    {
      hide Underway, Within, PathCmp;
      while sblist != []
        invariant At(n) && list == old(list)
        decreases |sblist|
      {
        var inside := IsSubdir(Some(sblist[|sblist| - 1].path), Some(sb.path));
        TopIsDirectory(list, n, done, stack);
        if inside != 0 { break; }
        Pop(n);
      }
      if sb.statp.isDir {
        Pushed(list, n, done, stack);
        assert Pick(list, stack + [n]) == sblist + [sb];
        sblist, stack := sblist + [sb], stack + [n];
      } else {
        RestoredAtOnce(list, n, done, stack);
        assert Pick(list, done + [n]) == sent + [sb];
        sent, done := sent + [sb], done + [n];
      }
    }

    /** The directories that are left at the end. */
    method Flush()
      requires At(|list|)
      modifies this
      ensures At(|list|) && list == old(list) && sblist == []
    {
      while sblist != []
        invariant At(|list|) && list == old(list)
        decreases |sblist|
      {
        Pop(|list|);
      }
    }
  }

  /** The entries that are asked for. */
  function Chosen(manifest: seq<Sbuf>, wanted: Sbuf -> bool): seq<Sbuf> {
    if manifest == [] then []
    else
      var n := |manifest| - 1;
      Chosen(manifest[..n], wanted) + if wanted(manifest[n]) then [manifest[n]] else []
  }

  lemma {:induction false} ChosenSorted(manifest: seq<Sbuf>, wanted: Sbuf -> bool)
    requires Sorted(manifest)
    ensures PathsSorted(Chosen(manifest, wanted))
    ensures forall e :: e in Chosen(manifest, wanted) <==> e in manifest && wanted(e)
  {
    hide PathCmp;
    if manifest != [] {
      var n := |manifest| - 1;
      var l := Chosen(manifest[..n], wanted);
      ChosenSorted(manifest[..n], wanted);
      assert manifest == manifest[..n] + [manifest[n]];
      forall i | 0 <= i < |l| ensures PathCmp(l[i].path, manifest[n].path) <= 0 {
        assert l[i] in manifest[..n];
        var j :| 0 <= j < n && manifest[..n][j] == l[i];
        PathCmpAntisymmetric(l[i].path, manifest[n].path);
      }
    }
  }

  lemma {:induction false} ChosenMore(manifest: seq<Sbuf>, wanted: Sbuf -> bool, n: nat)
    requires n < |manifest|
    ensures Chosen(manifest[..n + 1], wanted) ==
            Chosen(manifest[..n], wanted) + if wanted(manifest[n]) then [manifest[n]] else []
    ensures Chosen(manifest[..n + 1], wanted) <= Chosen(manifest, wanted)
    decreases |manifest| - n
  {
    assert manifest[..n + 1][..n] == manifest[..n];
    if n + 1 < |manifest| {
      ChosenMore(manifest, wanted, n + 1);
    } else {
      assert manifest[..n + 1] == manifest;
    }
  }

  /** `restore_manifest`: everything asked for is restored once, in an order in which
      whatever lies in a directory comes before it. */
  method RestoreManifest(manifest: seq<Sbuf>, wanted: Sbuf -> bool) returns (sent: seq<Sbuf>, ghost order: seq<nat>)
    requires Sorted(manifest)
    ensures multiset(sent) == multiset(Chosen(manifest, wanted))
    ensures RestoreOrder(Chosen(manifest, wanted), order) && InRange(Chosen(manifest, wanted), order)
    ensures sent == Pick(Chosen(manifest, wanted), order)
  {
    hide Chosen, PathsSorted, Underway;
    ghost var l := Chosen(manifest, wanted);
    ChosenSorted(manifest, wanted);
    var r := new Restorer(l);
    ghost var n := 0;
    NoneChosen(wanted);
    for k := 0 to |manifest|
      invariant fresh(r) && r.list == l && r.At(n) && n == |Chosen(manifest[..k], wanted)|
    {
      ChosenMore(manifest, wanted, k);
      if wanted(manifest[k]) {
        r.RestoreEnt(manifest[k], n);
        n := n + 1;
      }
    }
    assert manifest[..|manifest|] == manifest;
    r.Flush();
    sent, order := r.sent, r.done;
    AllDone(l, r.done, r.stack);
    EachOnce(l, order);
  }

  lemma NoneChosen(wanted: Sbuf -> bool)
    ensures Chosen([], wanted) == []
  {
  }

  lemma AllDone(l: seq<Sbuf>, done: seq<nat>, stack: seq<nat>)
    requires Underway(l, |l|, done, stack) && stack == []
    ensures RestoreOrder(l, done)
  {
    hide MayPrecede;
  }

  // ----- What such an order gives -----

  lemma WithoutLast(order: seq<nat>, p: nat, n: nat)
    requires forall i :: i in order <==> 0 <= i < n + 1
    requires forall a, b :: 0 <= a < b < |order| ==> order[a] != order[b]
    requires p < |order| && order[p] == n
    ensures var rest := order[..p] + order[p + 1..];
            && (forall i :: i in rest <==> 0 <= i < n)
            && (forall q :: 0 <= q < |rest| ==> rest[q] < n)
            && (forall a, b :: 0 <= a < b < |rest| ==> rest[a] != rest[b])
  {
    var rest := order[..p] + order[p + 1..];
    assert forall q :: 0 <= q < |rest| ==> rest[q] == order[if q < p then q else q + 1];
    forall q | 0 <= q < |rest| ensures rest[q] < n {
      assert rest[q] in order;
    }
    assert order == order[..p] + [n] + order[p + 1..];
    forall i | 0 <= i < n ensures i in rest {
      assert i in order;
    }
  }

  /** Each entry is restored exactly once. */
  lemma {:induction false} EachOnce(l: seq<Sbuf>, order: seq<nat>)
    requires forall i :: i in order <==> 0 <= i < |l|
    requires forall a, b :: 0 <= a < b < |order| ==> order[a] != order[b]
    requires InRange(l, order)
    ensures multiset(Pick(l, order)) == multiset(l)
  {
    assert order != [] ==> order[0] in order;
    if l == [] {
      assert order == [];
    } else {
      var n := |l| - 1;
      assert n in order;
      var p :| 0 <= p < |order| && order[p] == n;
      var rest := order[..p] + order[p + 1..];
      WithoutLast(order, p, n);
      EachOnce(l[..n], rest);
      PickWithout(l, order, p, n);
      assert l == l[..n] + [l[n]];
    }
  }

  lemma PickWithout(l: seq<Sbuf>, order: seq<nat>, p: nat, n: nat)
    requires |l| == n + 1 && p < |order| && order[p] == n && InRange(l, order)
    requires InRange(l[..n], order[..p] + order[p + 1..])
    ensures multiset(Pick(l, order)) == multiset(Pick(l[..n], order[..p] + order[p + 1..])) + multiset{l[n]}
  {
    var s := Pick(l, order);
    assert Pick(l[..n], order[..p] + order[p + 1..]) == s[..p] + s[p + 1..];
    assert s == s[..p] + [l[n]] + s[p + 1..];
  }

  /** What lies in a directory, its metadata included, is restored before it is. */
  lemma DirectoriesLast(l: seq<Sbuf>, order: seq<nat>, a: nat, b: nat)
    requires PathsSorted(l) && RestoreOrder(l, order) && a < |order| && b < |order| && a != b
    requires InRange(l, order)
    requires var d, e := l[order[a]], l[order[b]];
             d.statp.isDir && Within(d.path, e.path) && (d.path == e.path ==> order[a] < order[b])
    ensures b < a
  {
    var i, j := order[a], order[b];
    if j < i {
      WithinIsAfter(l[i].path, l[j].path);
      PathCmpAntisymmetric(l[i].path, l[j].path);
    }
    assert i < j;
  }
}
