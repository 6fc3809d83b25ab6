/** The sorted `include` and `exclude` lines (`incexcdir`): which of them decides about
    a file (`file_is_included_no_incext`), and which included paths the scan goes to
    from an entry that is not scanned itself (`process_files_in_directory`, both in
    src/find.c). */
module IncExc {
  import opened Wrappers
  import opened PathOrder

  predicate NameOk(name: string) { name != "" && '/' !in name }

  /** What an entry of a directory can be called. */
  type Name = name: string | NameOk(name) witness "a"

  predicate Dots(name: string) { name == "." || name == ".." }

  /** A directory's path with exactly one slash at its end. */
  function Base(fname: string): (b: string)
    ensures b != "" && b[|b| - 1] == '/'
    ensures |b| <= |fname| + 1 && forall i :: 0 <= i < |b| - 1 ==> b[i] == fname[i]
    ensures forall i :: |b| - 1 <= i < |fname| ==> fname[i] == '/'
    ensures |b| > 1 ==> b[|b| - 2] != '/'
  {
    if fname == "" then "/"
    else if fname[|fname| - 1] == '/' then Base(fname[..|fname| - 1])
    else fname + "/"
  }

  /** What the scan calls an entry of a directory. */
  function EntryPath(dir: string, name: Name): string { Base(dir) + name }

  /** An `include` or `exclude` line; they are kept sorted by `pathcmp`. */
  datatype Rule = Rule(path: string, included: bool)

  ghost predicate RulesSorted(rules: seq<Rule>) {
    forall i, j :: 0 <= i < j < |rules| ==> PathCmp(rules[i].path, rules[j].path) <= 0
  }

  // ----- Which rule decides about a file -----

  /** The answer of `is_subdir`. */
  function Depth(dir: string, sub: string): nat {
    if !Within(dir, sub) then 0
    else Slashes(dir) + if dir == sub || sub[|dir|] == '/' then 2 else 1
  }

  /** The first of the deepest rules that contain the file. */
  ghost predicate Decides(rules: seq<Rule>, fname: string, i: int) {
    && 0 <= i < |rules| && Within(rules[i].path, fname)
    && (forall j :: 0 <= j < |rules| ==> Depth(rules[j].path, fname) <= Depth(rules[i].path, fname))
    && (forall j :: 0 <= j < i ==> Depth(rules[j].path, fname) < Depth(rules[i].path, fname))
  }

  /** The rule that the loop ends with, if any contains the file. */
  function Best(rules: seq<Rule>, fname: string): (best: int)
    ensures -1 <= best < |rules|
  {
    if rules == [] then -1
    else
      var n := |rules| - 1;
      var best := Best(rules[..n], fname);
      if Depth(rules[n].path, fname) > (if best < 0 then 0 else Depth(rules[best].path, fname)) then n else best
  }

  /** What the rules say of a file. */
  predicate Included(rules: seq<Rule>, fname: string) {
    var best := Best(rules, fname);
    best >= 0 && rules[best].included
  }

  lemma {:induction false} BestDecides(rules: seq<Rule>, fname: string)
    ensures var best := Best(rules, fname);
            if best >= 0 then Decides(rules, fname, best)
            else forall j :: 0 <= j < |rules| ==> Depth(rules[j].path, fname) == 0
  {
    hide Within, Slashes;
    if rules != [] {
      var n := |rules| - 1;
      BestDecides(rules[..n], fname);
      assert forall j :: 0 <= j < n ==> rules[..n][j] == rules[j];
    }
  }

  /** A file is included if and only if the first of the deepest rules that contain it
      is an `include`. */
  lemma IncludedExactly(rules: seq<Rule>, fname: string)
    ensures Included(rules, fname) <==> exists i :: Decides(rules, fname, i) && rules[i].included
  {
    hide Depth, Within, Best;
    BestDecides(rules, fname);
    DepthOfWithin();
    var best := Best(rules, fname);
    assert forall i :: Decides(rules, fname, i) ==> i == best;
  }

  lemma DepthOfWithin()
    ensures forall dir, sub :: Within(dir, sub) <==> Depth(dir, sub) > 0
  {
    hide Within, Slashes;
  }

  /** `file_is_included_no_incext`, after the extensions and expressions. */
  method RuleFor(rules: seq<Rule>, fname: string) returns (included: bool)
    ensures included == Included(rules, fname)
  {
    hide Within, Slashes;
    var longest, best := 0, -1;
    for i := 0 to |rules|
      invariant best == Best(rules[..i], fname)
      invariant longest == if best < 0 then 0 else Depth(rules[best].path, fname)
    {
      assert rules[..i + 1][..i] == rules[..i];
      var matching := IsSubdir(Some(rules[i].path), Some(fname));
      if matching > longest { longest, best := matching, i; }
    }
    assert rules[..|rules|] == rules;
    included := best >= 0 && rules[best].included;
  }

  lemma {:induction false} SlashesMore(s: string, n: nat)
    requires n <= |s|
    ensures Slashes(s[..n]) + (if n < |s| && s[n] == '/' then 1 else 0) <= Slashes(s)
  {
    if n == |s| {
      assert s[..n] == s;
    } else {
      SlashesMore(s[..|s| - 1], n);
      assert s[..|s| - 1][..n] == s[..n];
    }
  }

  /** The longest rule path decides: a directory within another counts for more,
      unless all that sets them apart is a slash at the end. */
  lemma InnerRuleIsDeeper(d: string, e: string, fname: string)
    requires Within(d, fname) && Within(e, fname) && |d| < |e|
    requires e[|e| - 1] != '/'
    ensures Depth(d, fname) < Depth(e, fname)
  {
    assert e[..|d|] == d && fname[|d|] == e[|d|];
    SlashesMore(e, |d|);
  }

  /** No `include` line repeats the path of an earlier line. */
  ghost predicate NoneRepeated(rules: seq<Rule>) {
    forall i, j :: 0 <= i < j < |rules| && rules[j].included ==> rules[i].path != rules[j].path
  }

  lemma OwnIsDeepest(dir: string, fname: string)
    requires Within(dir, fname) && dir != fname
    ensures Depth(dir, fname) < Depth(fname, fname)
  {
    SlashesMore(fname, |dir|);
    assert fname[..|dir|] == dir;
  }

  /** A rule with the file's own path decides, if there is one. */
  lemma OwnDecides(rules: seq<Rule>, j: nat)
    requires j < |rules|
    ensures var best := Best(rules, rules[j].path); best >= 0 && rules[best].path == rules[j].path
  {
    hide Depth, Within, Best;
    var fname := rules[j].path;
    DepthOfWithin();
    assert Within(fname, fname) by { SamePath(fname); }
    forall i | 0 <= i < |rules| && rules[i].path != fname ensures Depth(rules[i].path, fname) < Depth(fname, fname) {
      if Within(rules[i].path, fname) { OwnIsDeepest(rules[i].path, fname); }
    }
    BestDecides(rules, fname);
  }

  /** An `include` line's own path is included. */
  lemma OwnRule(rules: seq<Rule>, j: nat)
    requires NoneRepeated(rules) && j < |rules| && rules[j].included
    ensures Included(rules, rules[j].path)
  {
    hide Best, Depth, Within;
    OwnDecides(rules, j);
    BestDecides(rules, rules[j].path);
  }

  // ----- From an entry that is not scanned -----

  /** Where the inner loop leaves `ex`: it is raised whenever the rule at `ey` lies
      within the one `ex` has come to. */
  function SkipFrom(rules: seq<Rule>, ex: nat, ey: nat): (r: nat)
    requires ex < ey && ex < |rules|
    ensures ex <= r < |rules|
    decreases |rules| - ey
  {
    if ey >= |rules| then ex
    else SkipFrom(rules, if Within(rules[ex].path, rules[ey].path) then ex + 1 else ex, ey + 1)
  }

  /** The rules that the outer loop goes to, from `ex` on, at `link`. */
  function Jumps(rules: seq<Rule>, link: string, ex: nat): (js: seq<nat>)
    ensures forall k :: 0 <= k < |js| ==> ex <= js[k] < |rules| && Within(link, rules[js[k]].path)
    decreases |rules| - ex
  {
    if ex >= |rules| then []
    else if rules[ex].included && Within(link, rules[ex].path)
    then [ex] + Jumps(rules, link, SkipFrom(rules, ex, ex + 1) + 1)
    else Jumps(rules, link, ex + 1)
  }

  /** Each rule lies within the one before it. */
  ghost predicate Nested(rules: seq<Rule>, i: nat, j: nat)
    requires j < |rules|
  {
    forall k :: i <= k < j ==> Within(rules[k].path, rules[k + 1].path)
  }

  /** The rule is within the entry, and not the end of a chain from an earlier one
      that is included too. */
  ghost predicate Chosen(rules: seq<Rule>, link: string, from: nat, j: nat) {
    && from <= j < |rules| && rules[j].included && Within(link, rules[j].path)
    && forall m :: from <= m < j && rules[m].included && Within(link, rules[m].path) ==> !Nested(rules, m, j)
  }

  lemma {:induction false} SkipBroken(rules: seq<Rule>, ex: nat, ey: nat)
    requires ex < ey && ex < |rules|
    requires forall k :: ey <= k < |rules| ==> !Within(rules[ex].path, rules[k].path)
    ensures SkipFrom(rules, ex, ey) == ex
    decreases |rules| - ey
  {
    hide Within;
    if ey < |rules| { SkipBroken(rules, ex, ey + 1); }
  }

  /** The inner loop skips the chain of rules each within the one before, and no more. */
  lemma {:induction false} SkipsChain(rules: seq<Rule>, ex: nat)
    requires RulesSorted(rules) && ex < |rules|
    ensures var e := SkipFrom(rules, ex, ex + 1);
            Nested(rules, ex, e) && (e + 1 < |rules| ==> !Within(rules[e].path, rules[e + 1].path))
    decreases |rules| - ex
  {
    hide Within, PathCmp;
    if ex + 1 < |rules| {
      if Within(rules[ex].path, rules[ex + 1].path) {
        SkipsChain(rules, ex + 1);
      } else {
        forall k | ex + 1 <= k < |rules| ensures !Within(rules[ex].path, rules[k].path) { NoneLater(rules, ex, k); }
        SkipBroken(rules, ex, ex + 1);
      }
    }
  }

  /** What lies within a path is contiguous. */
  lemma NoneLater(rules: seq<Rule>, i: nat, k: nat)
    requires RulesSorted(rules) && i + 1 <= k < |rules| && !Within(rules[i].path, rules[i + 1].path)
    ensures !Within(rules[i].path, rules[k].path)
  {
    hide Within, PathCmp;
    if Within(rules[i].path, rules[k].path) {
      SamePath(rules[k].path);
      DescendantsContiguous(rules[i].path, rules[i + 1].path, rules[k].path);
    }
  }

  lemma SamePath(p: string)
    ensures PathCmp(p, p) == 0 && Within(p, p)
  {
    PathCmpAntisymmetric(p, p);
  }

  /** The scan goes from an entry it does not scan exactly to the included paths in it that
      no chain of rules leads to from another. */
  lemma {:induction false} JumpsExactly(rules: seq<Rule>, link: string, from: nat, j: nat)
    requires RulesSorted(rules)
    ensures j in Jumps(rules, link, from) <==> Chosen(rules, link, from, j)
    decreases |rules| - from
  {
    hide Within, RulesSorted;
    if from < |rules| {
      if rules[from].included && Within(link, rules[from].path) {
        var e := SkipFrom(rules, from, from + 1);
        SkipsChain(rules, from);
        JumpsExactly(rules, link, e + 1, j);
        AfterChain(rules, link, from, e, j);
      } else {
        JumpsExactly(rules, link, from + 1, j);
      }
    }
  }

  lemma AfterChain(rules: seq<Rule>, link: string, from: nat, e: nat, j: nat)
    requires from <= e < |rules| && Nested(rules, from, e)
    requires e + 1 < |rules| ==> !Within(rules[e].path, rules[e + 1].path)
    requires rules[from].included && Within(link, rules[from].path)
    ensures Chosen(rules, link, from, j) <==> j == from || Chosen(rules, link, e + 1, j)
  {
    hide Within;
    if from < j <= e { assert Nested(rules, from, j); }
    if e < j < |rules| {
      forall m | from <= m <= e ensures !Nested(rules, m, j) {}
    }
  }

  function Paths(rules: seq<Rule>, js: seq<nat>): (paths: seq<string>)
    requires forall k :: 0 <= k < |js| ==> js[k] < |rules|
    ensures |paths| == |js|
  {
    seq(|js|, k requires 0 <= k < |js| => rules[js[k]].path)
  }

  /** The paths the scan goes to. */
  function JumpPaths(rules: seq<Rule>, link: string): seq<string> {
    Paths(rules, Jumps(rules, link, 0))
  }

  lemma {:induction false} JumpsRise(rules: seq<Rule>, link: string, from: nat)
    ensures forall a, b :: 0 <= a < b < |Jumps(rules, link, from)| ==>
              Jumps(rules, link, from)[a] < Jumps(rules, link, from)[b]
    decreases |rules| - from
  {
    hide Within;
    if from < |rules| {
      if rules[from].included && Within(link, rules[from].path) {
        JumpsRise(rules, link, SkipFrom(rules, from, from + 1) + 1);
      } else {
        JumpsRise(rules, link, from + 1);
      }
    }
  }

  lemma {:induction false} JumpsIncluded(rules: seq<Rule>, link: string, from: nat)
    ensures forall k :: 0 <= k < |Jumps(rules, link, from)| ==> rules[Jumps(rules, link, from)[k]].included
    decreases |rules| - from
  {
    hide Within;
    if from < |rules| {
      if rules[from].included && Within(link, rules[from].path) {
        JumpsIncluded(rules, link, SkipFrom(rules, from, from + 1) + 1);
      } else {
        JumpsIncluded(rules, link, from + 1);
      }
    }
  }

  /** What is in a directory has the directory's path, and its slash, in front. */
  lemma EntryBegins(dir: string, name: Name, p: string)
    requires Within(EntryPath(dir, name), p)
    ensures EntryPath(dir, name) + "/" <= Base(p) && (p == EntryPath(dir, name) || EntryPath(dir, name) + "/" <= p)
  {
    var link := EntryPath(dir, name);
    assert link[|link| - 1] == name[|name| - 1] && name[|name| - 1] in name;
    assert p[|link| - 1] == link[|link| - 1];
  }

  lemma EntryContains(dir: string, name: Name, p: string)
    requires p == EntryPath(dir, name) || EntryPath(dir, name) + "/" <= p
    ensures Within(EntryPath(dir, name), p)
  {
    hide Base;
  }

  lemma WithinBase(p: string, q: string)
    requires Within(p, q)
    ensures Base(p) <= Base(q)
  {
  }

  /** Where a pair is twice, the chain that ends at the first of them starts at a path
      gone to, and the second is gone to as well. */
  lemma {:induction false} ChainStart(rules: seq<Rule>, link: string, i: nat) returns (m: nat)
    requires i < |rules| && rules[i].included && Within(link, rules[i].path)
    ensures m <= i && Chosen(rules, link, 0, m) && Nested(rules, m, i)
    decreases i
  {
    hide Within;
    if Chosen(rules, link, 0, i) {
      m := i;
    } else {
      var k :| 0 <= k < i && rules[k].included && Within(link, rules[k].path) && Nested(rules, k, i);
      m := ChainStart(rules, link, k);
    }
  }

  lemma {:induction false} ChainWithin(rules: seq<Rule>, i: nat, j: nat)
    requires i <= j < |rules| && Nested(rules, i, j)
    ensures Within(rules[i].path, rules[j].path)
    decreases j
  {
    hide Within;
    if i < j {
      ChainWithin(rules, i, j - 1);
      WithinTransitive(rules[i].path, rules[j - 1].path, rules[j].path);
    } else {
      SamePath(rules[i].path);
    }
  }

  lemma BetweenIsWithin(rules: seq<Rule>, link: string, i: nat, j: nat)
    requires RulesSorted(rules) && i < j < |rules|
    requires Within(link, rules[i].path) && Within(link, rules[j].path)
    ensures forall m :: i <= m < j ==> Within(link, rules[m].path)
  {
    hide Within, PathCmp;
    forall m | i <= m < j ensures Within(link, rules[m].path) {
      if m > i { BetweenOne(link, rules[i].path, rules[m].path, rules[j].path); }
    }
  }

  lemma BetweenOne(link: string, p: string, q: string, r: string)
    requires Within(link, p) && Within(link, r) && PathCmp(p, q) <= 0 && PathCmp(q, r) <= 0
    ensures Within(link, q)
  {
    hide Within;
    WithinIsAfter(link, p);
    PathCmpAntisymmetric(link, p);
    PathCmpAntisymmetric(p, q);
    if PathCmp(link, p) < 0 && PathCmp(p, q) < 0 { PathCmpTransitive(link, p, q); }
    DescendantsContiguous(link, q, r);
  }

  lemma LongerBase(fname: string, name: Name, p: string)
    requires Within(EntryPath(fname, name), p)
    ensures |Base(p)| > |Base(fname)|
  {
    EntryBegins(fname, name, p);
  }

  // ----- What lies under a path -----

  /** What lies at or under `a` begins like `a`, up to its trailing slashes. */
  lemma BeginsLike(a: string, p: string, n: nat)
    requires p == a || Base(a) <= p
    requires n < |Base(a)| && n <= |a|
    ensures n <= |p| && forall i :: 0 <= i < n ==> p[i] == a[i]
    ensures n < |a| ==> n < |p| && p[n] == a[n]
    ensures n == |a| < |p| ==> p[n] == '/'
  {
    hide Base;
    var m := |Base(a)| - 1;
    assert m < |a| ==> a[m] == '/' == Base(a)[m];
  }

  lemma AgreePastBase(a: string, b: string, n: int)
    requires |Base(a)| <= n <= |a| && n <= |b| && forall i :: 0 <= i < n ==> a[i] == b[i]
    ensures Base(a) <= b
  {
    hide Base;
    var m := |Base(a)| - 1;
    assert a[m] == '/' && forall i :: 0 <= i <= m ==> Base(a)[i] == a[i];
  }

  lemma AgreeUpToSlash(a: string, b: string)
    requires |a| < |b| && b[|a|] == '/' && forall i :: 0 <= i < |a| ==> a[i] == b[i]
    ensures Base(a) <= b
  {
    hide Base;
    var m := |Base(a)| - 1;
    assert b[m] == '/' && forall i :: 0 <= i < m ==> Base(a)[i] == b[i];
  }

  /** What lies at or under `a` comes before what lies at or under `b`, if `b` itself
      is after `a` and not under it: '/' is the least character. */
  lemma SubtreesApart(a: string, b: string, p: string, q: string)
    requires PathCmp(a, b) < 0 && !(Base(a) <= b)
    requires p == a || Base(a) <= p
    requires q == b || Base(b) <= q
    ensures PathCmp(p, q) < 0
  {
    var n := Lcp(a, b);
    assert n < |b| && (n == |a| || Rank(a[n]) < Rank(b[n]));
    hide PathCmp, Base, Lcp;
    if n >= |Base(a)| { AgreePastBase(a, b, n); }
    if n == |a| && b[n] == '/' { AgreeUpToSlash(a, b); }
    BeginsLike(a, p, n);
    PartsBeforeSlashes(b, n);
    BeginsLike(b, q, n);
    DecidedAt(p, q, n);
  }

  lemma PartsBeforeSlashes(b: string, n: nat)
    requires n < |b| && b[n] != '/'
    ensures n < |Base(b)|
  {
    hide Base;
  }

  lemma DecidedAt(p: string, q: string, n: nat)
    requires n <= |p| && n < |q| && forall i :: 0 <= i < n ==> p[i] == q[i]
    requires n == |p| || Rank(p[n]) < Rank(q[n])
    ensures PathCmp(p, q) < 0
  {
    LcpUnique(p, q, n);
  }
}
