/** When a scan comes to paths in order, by the `include` and `exclude` lines alone. */
module ScanRules {
  import opened Wrappers
  import opened PathOrder
  import opened IncExc
  import opened StartPoints

  // ----- Where a scan can come to -----

  /** From a directory into one of its entries that is included, or from an entry to an
      included path in it. */
  datatype Step = Enter(name: Name) | Reach(name: Name, rule: nat)

  /** The path that steps from `start` lead to, if the rules allow them. What a client
      excludes besides, by extension or expression, can turn any entry into one that is
      not scanned, but brings none in. */
  ghost function RuleWalk(rules: seq<Rule>, start: string, steps: seq<Step>): Option<string>
    decreases |steps|
  {
    if steps == [] then Some(start)
    else
      var n := |steps| - 1;
      var dir := RuleWalk(rules, start, steps[..n]);
      if dir.None? || Dots(steps[n].name) then None
      else
        var link := EntryPath(dir.value, steps[n].name);
        match steps[n]
        case Enter(_) => if Included(rules, link) then Some(link) else None
        case Reach(_, j) => if Chosen(rules, link, 0, j) then Some(rules[j].path) else None
  }

  ghost predicate Comes(rules: seq<Rule>, path: string) {
    exists start, steps :: start in Starts(rules) && RuleWalk(rules, start, steps) == Some(path)
  }

  lemma ComesToStart(rules: seq<Rule>, start: string)
    requires start in Starts(rules)
    ensures Comes(rules, start)
  {
    assert RuleWalk(rules, start, []) == Some(start);
  }

  lemma ComesOn(rules: seq<Rule>, dir: string, step: Step)
    requires Comes(rules, dir) && !Dots(step.name)
    ensures step.Enter? && Included(rules, EntryPath(dir, step.name)) ==> Comes(rules, EntryPath(dir, step.name))
    ensures step.Reach? && Chosen(rules, EntryPath(dir, step.name), 0, step.rule) ==>
              Comes(rules, rules[step.rule].path)
  {
    hide Included, Chosen, EntryPath, Starts, Dots;
    var start, steps :| start in Starts(rules) && RuleWalk(rules, start, steps) == Some(dir);
    assert (steps + [step])[..|steps|] == steps;
    assert RuleWalk(rules, start, steps + [step]).Some? ==> Comes(rules, RuleWalk(rules, start, steps + [step]).value);
    assert step.Reach? && Chosen(rules, EntryPath(dir, step.name), 0, step.rule) ==> step.rule < |rules| by {
      ChosenAreRules(rules, EntryPath(dir, step.name));
    }
  }

  lemma ChosenAreRules(rules: seq<Rule>, link: string)
    ensures forall j: nat :: Chosen(rules, link, 0, j) ==> j < |rules|
  {
  }

  // ----- When that is in order -----

  /** The entry, or an included path in it, comes at or after `q`. */
  ghost predicate EntryOvertakes(rules: seq<Rule>, entry: string, q: string) {
    || (Included(rules, entry) && PathCmp(entry, q) >= 0)
    || exists c :: 0 <= c < |rules| && rules[c].included && Within(entry, rules[c].path) &&
                   PathCmp(rules[c].path, q) >= 0
  }

  /** Something that a scan of `p` can come to comes at or after `q`. */
  ghost predicate Overtakes(rules: seq<Rule>, p: string, q: string) {
    exists name: Name :: !Dots(name) && EntryOvertakes(rules, EntryPath(p, name), q)
  }

  ghost predicate InTurn(rules: seq<Rule>, paths: seq<string>) {
    forall a, b :: 0 <= a < b < |paths| ==> !Overtakes(rules, paths[a], paths[b])
  }

  /** No start point overtakes a later one, nor does a path gone to from an entry of a
      directory that a scan can come to overtake another gone to from there. */
  ghost predicate Orderly(rules: seq<Rule>) {
    && InTurn(rules, Starts(rules))
    && forall dir: string, name: Name :: Comes(rules, dir) && !Dots(name) ==>
         InTurn(rules, JumpPaths(rules, EntryPath(dir, name)))
  }

  // ----- Paths written plainly -----

  predicate DotAt(path: string, i: nat) {
    && i < |path| && path[i] == '.'
    && (i == 0 || path[i - 1] == '/') && (i + 1 == |path| || path[i + 1] == '/')
  }

  /** No doubled slashes, no `.` between slashes, and no slash at the end but the root's. */
  predicate Plain(path: string) {
    && path != "" && (path == "/" || path[|path| - 1] != '/')
    && (forall i :: 0 <= i < |path| - 1 ==> !(path[i] == '/' && path[i + 1] == '/'))
    && (forall i :: 0 <= i < |path| ==> !DotAt(path, i))
  }

  ghost predicate PlainRules(rules: seq<Rule>) { forall i :: 0 <= i < |rules| ==> Plain(rules[i].path) }

  /** An included path lies in an earlier one that is no start point, and no chain leads
      to it from that one or a later. */
  ghost predicate Twice(rules: seq<Rule>, i: nat, j: nat) {
    && i < j < |rules| && rules[i].included && rules[j].included
    && rules[i].path !in Starts(rules) && Within(rules[i].path, rules[j].path)
    && forall m :: i <= m < j && rules[m].included ==> !Nested(rules, m, j)
  }

  /** How far the part of the path goes that starts at `i`. */
  function PartEnd(p: string, i: nat): (e: nat)
    requires i <= |p|
    ensures i <= e <= |p| && (e < |p| ==> p[e] == '/') && forall k :: i <= k < e ==> p[k] != '/'
    decreases |p| - i
  {
    if i == |p| || p[i] == '/' then i else PartEnd(p, i + 1)
  }

  lemma PlainBase(d: string)
    requires Plain(d) && d != "/"
    ensures Base(d) == d + "/"
  {
  }

  lemma PlainInside(d: string, p: string)
    requires Plain(d) && Plain(p) && Within(d, p) && d != p
    ensures Base(d) <= p && |Base(d)| < |p| && p[|Base(d)|] != '/'
  {
    if d == "/" {
      assert Base(d) == "/" && p[0] == '/' && !(p[0] == '/' && p[1] == '/');
    } else {
      PlainBase(d);
      hide Base;
      assert p[|d|] == '/' && !(p[|d|] == '/' && p[|d| + 1] == '/');
    }
  }

  lemma PartIsDots(p: string, n: nat, e: nat)
    requires n <= e <= |p| && (e < |p| ==> p[e] == '/') && (n > 0 ==> p[n - 1] == '/')
    ensures p[n..e] == "." ==> DotAt(p, n)
    ensures p[n..e] == ".." ==> DotDotAt(p, n)
  {
    var part := p[n..e];
    assert forall k :: 0 <= k < |part| ==> part[k] == p[n + k];
  }

  /** The entry of `d` that contains `p`. */
  lemma NextPart(d: string, p: string) returns (name: Name)
    requires Plain(d) && Plain(p) && PathOk(p) && Within(d, p) && d != p
    ensures !Dots(name) && Within(EntryPath(d, name), p)
  {
    PlainInside(d, p);
    hide Base;
    var n := |Base(d)|;
    var e := PartEnd(p, n);
    PartIsDots(p, n, e);
    var part := p[n..e];
    assert part[0] == p[n];
    name := part;
    assert Base(d) + part == p[..e];
  }

  lemma PlainBaseWithin(d: string, p: string)
    requires Plain(d) && (p == d || Base(d) <= p)
    ensures Within(d, p)
  {
    if d != p && d != "/" { PlainBase(d); }
  }

  // ----- What overtakes lies around -----

  /** What is past `q` and comes from `p` before it has `q` under `p`. */
  lemma OvertakenIsUnder(rules: seq<Rule>, p: string, q: string)
    requires PathCmp(p, q) < 0 && Overtakes(rules, p, q)
    ensures Base(p) <= q
  {
    hide Base, PathCmp, Included, EntryPath, Within;
    var name: Name :| !Dots(name) && EntryOvertakes(rules, EntryPath(p, name), q);
    var v := EntryPath(p, name);
    if Included(rules, v) && PathCmp(v, q) >= 0 {
      SamePath(v);
    } else {
      var c :| 0 <= c < |rules| && rules[c].included && Within(v, rules[c].path) && PathCmp(rules[c].path, q) >= 0;
      v := rules[c].path;
    }
    EntryUnder(p, name, v);
    BetweenUnder(p, q, v);
  }

  lemma EntryUnder(p: string, name: Name, v: string)
    requires Within(EntryPath(p, name), v)
    ensures Base(p) <= v
  {
    EntryBegins(p, name, v);
    hide Base;
    assert Base(p) <= EntryPath(p, name) <= v;
  }

  lemma BetweenUnder(p: string, q: string, v: string)
    requires PathCmp(p, q) < 0 && PathCmp(v, q) >= 0 && Base(p) <= v
    ensures Base(p) <= q
  {
    hide PathCmp, Base;
    if !(Base(p) <= q) { SubtreesApart(p, q, v, q); }
  }

  // ----- Plain rules -----

  lemma StartIsRule(rules: seq<Rule>, start: string) returns (i: nat)
    requires RulesSorted(rules) && start in Starts(rules)
    ensures i < |rules| && rules[i] == Rule(start, true)
  {
    hide Separate, Reaches;
    StartsCover(rules);
    var k :| 0 <= k < |Starts(rules)| && Starts(rules)[k] == start;
    i :| 0 <= i < |rules| && rules[i] == Rule(Starts(rules)[k], true);
  }

  lemma StartsSeparate(rules: seq<Rule>, s: string, t: string)
    requires RulesSorted(rules) && s in Starts(rules) && t in Starts(rules) && Within(s, t)
    ensures s == t
  {
    hide Within, PathCmp, Covers;
    StartsCover(rules);
    var i :| 0 <= i < |Starts(rules)| && Starts(rules)[i] == s;
    var j :| 0 <= j < |Starts(rules)| && Starts(rules)[j] == t;
  }

  /** A scan stays under its start. */
  lemma {:induction false} WalkIsUnder(rules: seq<Rule>, start: string, steps: seq<Step>)
    requires RuleWalk(rules, start, steps).Some?
    ensures var path := RuleWalk(rules, start, steps).value; path == start || Base(start) <= path
    decreases |steps|
  {
    hide Included, Nested, Within, Base, EntryPath;
    if steps != [] {
      var n := |steps| - 1;
      WalkIsUnder(rules, start, steps[..n]);
      var dir, path := RuleWalk(rules, start, steps[..n]).value, RuleWalk(rules, start, steps).value;
      assert Within(EntryPath(dir, steps[n].name), path) by { SamePath(EntryPath(dir, steps[n].name)); }
      EntryUnder(dir, steps[n].name, path);
      UnderBoth(start, dir, path);
    }
  }

  lemma UnderBoth(a: string, b: string, c: string)
    requires (b == a || Base(a) <= b) && Base(b) <= c
    ensures Base(a) <= c
  {
    if b != a {
      assert forall i :: 0 <= i < |Base(a)| - 1 ==> Base(b)[i] == b[i];
    }
  }

  /** An entry that a scan comes to lies strictly in its start point. */
  lemma NotAStart(rules: seq<Rule>, dir: string, name: Name, a: nat)
    requires RulesSorted(rules) && PlainRules(rules) && Comes(rules, dir)
    requires a < |rules| && Within(EntryPath(dir, name), rules[a].path)
    ensures rules[a].path !in Starts(rules)
  {
    hide Base, EntryPath, Within, Starts, RulesSorted, Plain;
    var start, steps :| start in Starts(rules) && RuleWalk(rules, start, steps) == Some(dir);
    WalkIsUnder(rules, start, steps);
    EntryUnder(dir, name, rules[a].path);
    UnderBoth(start, dir, rules[a].path);
    var i := StartIsRule(rules, start);
    PlainBaseWithin(start, rules[a].path);
    LongerBase(dir, name, rules[a].path);
    UnderIsLonger(start, dir);
    if rules[a].path in Starts(rules) { StartsSeparate(rules, start, rules[a].path); }
  }

  lemma UnderIsLonger(a: string, b: string)
    requires b == a || Base(a) <= b
    ensures |Base(a)| <= |Base(b)|
  {
  }

  /** With plain paths it is in order if and only if no included path lies in an earlier
      one that is no start point without a chain that leads to it. */
  lemma PlainExactly(rules: seq<Rule>)
    requires RulesSorted(rules) && RulesOk(rules) && PlainRules(rules)
    ensures Orderly(rules) <==> forall i, j :: !Twice(rules, i, j)
  {
    hide RulesSorted, RulesOk, PlainRules, Orderly, Twice;
    if !Orderly(rules) {
      var i, j := NotOrderlyIsTwice(rules);
    }
    forall i, j | Orderly(rules) ensures !Twice(rules, i, j) {
      if Twice(rules, i, j) { TwiceIsNotOrderly(rules, i, j); }
    }
  }

  lemma NotOrderlyIsTwice(rules: seq<Rule>) returns (i: nat, j: nat)
    requires RulesSorted(rules) && RulesOk(rules) && PlainRules(rules) && !Orderly(rules)
    ensures Twice(rules, i, j)
  {
    hide RulesSorted, RulesOk, PlainRules, Base, EntryPath, Within, Included, Starts, Comes, Jumps, Overtakes;
    hide Nested, Paths;
    StartsInTurn(rules);
    var dir: string, name: Name :| Comes(rules, dir) && !Dots(name) &&
                                   !InTurn(rules, JumpPaths(rules, EntryPath(dir, name)));
    var link := EntryPath(dir, name);
    var js := Jumps(rules, link, 0);
    var a, b :| 0 <= a < b < |js| && Overtakes(rules, JumpPaths(rules, link)[a], JumpPaths(rules, link)[b]);
    i, j := js[a], js[b];
    assert Overtakes(rules, rules[i].path, rules[j].path) by { PathsAt(rules, js, a); PathsAt(rules, js, b); }
    JumpsRise(rules, link, 0);
    JumpsIncluded(rules, link, 0);
    JumpsExactly(rules, link, 0, j);
    BetweenIsWithin(rules, link, i, j);
    PathsDiffer(rules, i, j);
    OvertakenIsUnder(rules, rules[i].path, rules[j].path);
    assert Plain(rules[i].path) by { PlainAt(rules, i); }
    PlainBaseWithin(rules[i].path, rules[j].path);
    NotAStart(rules, dir, name, i);
  }

  lemma PlainAt(rules: seq<Rule>, i: nat)
    requires PlainRules(rules) && i < |rules|
    ensures Plain(rules[i].path)
  {
    hide Plain;
  }

  lemma PathsAt(rules: seq<Rule>, js: seq<nat>, a: nat)
    requires (forall k :: 0 <= k < |js| ==> js[k] < |rules|) && a < |js|
    ensures Paths(rules, js)[a] == rules[js[a]].path
  {
  }

  /** Included paths rise. */
  lemma PathsDiffer(rules: seq<Rule>, i: nat, j: nat)
    requires RulesSorted(rules) && RulesOk(rules) && i < j < |rules| && rules[j].included
    ensures PathCmp(rules[i].path, rules[j].path) < 0
  {
    hide PathCmp, RulesOk;
    OkIsNoneRepeated(rules);
    PathCmpAntisymmetric(rules[i].path, rules[j].path);
  }

  lemma StartsInTurn(rules: seq<Rule>)
    requires RulesSorted(rules) && PlainRules(rules)
    ensures InTurn(rules, Starts(rules))
  {
    hide Overtakes, Within, PathCmp, Plain, Base, Covers, Starts, RulesSorted;
    var starts := Starts(rules);
    StartsCover(rules);
    forall a, b | 0 <= a < b < |starts| ensures !Overtakes(rules, starts[a], starts[b]) {
      if Overtakes(rules, starts[a], starts[b]) {
        OvertakenIsUnder(rules, starts[a], starts[b]);
        var i := StartIsRule(rules, starts[a]);
        PlainBaseWithin(starts[a], starts[b]);
      }
    }
  }

  /** At the entry of the start point that contains the first path, the start of its
      chain is gone to and then the second, which lies in that one too. */
  lemma TwiceIsNotOrderly(rules: seq<Rule>, i: nat, j: nat)
    requires RulesSorted(rules) && RulesOk(rules) && PlainRules(rules) && Twice(rules, i, j)
    ensures !Orderly(rules)
  {
    hide RulesSorted, RulesOk, PlainRules, Plain, Base, EntryPath, Within, Included, Starts, Comes, Jumps, Overtakes;
    var start := StartOf(rules, i);
    var k := StartIsRule(rules, start);
    PlainAt(rules, k);
    PlainAt(rules, i);
    PlainAt(rules, j);
    PathOkAt(rules, i);
    PathOkAt(rules, j);
    var name := NextPart(start, rules[i].path);
    var link := EntryPath(start, name);
    ComesToStart(rules, start);
    var m := ChainStart(rules, link, i);
    PlainAt(rules, m);
    ChainWithin(rules, m, i);
    WithinTransitive(rules[m].path, rules[i].path, rules[j].path);
    WithinTransitive(link, rules[i].path, rules[j].path);
    assert Chosen(rules, link, 0, j) by { StillChosen(rules, link, i, j); }
    PathsDiffer(rules, m, j);
    assert rules[m].path != rules[j].path by { PathCmpAntisymmetric(rules[m].path, rules[j].path); }
    var next := NextPart(rules[m].path, rules[j].path);
    assert Overtakes(rules, rules[m].path, rules[j].path) by { OvertakesInside(rules, m, next, j); }
    BothGoneTo(rules, link, m, j);
  }

  lemma PathOkAt(rules: seq<Rule>, i: nat)
    requires RulesOk(rules) && i < |rules|
    ensures PathOk(rules[i].path)
  {
    hide PathOk;
  }

  lemma StartOf(rules: seq<Rule>, i: nat) returns (start: string)
    requires RulesSorted(rules) && i < |rules| && rules[i].included
    ensures start in Starts(rules) && Within(start, rules[i].path)
  {
    hide Within, Separate, Starts, RulesSorted;
    StartsCover(rules);
    var k :| 0 <= k < |Starts(rules)| && Within(Starts(rules)[k], rules[i].path);
    start := Starts(rules)[k];
  }

  lemma StillChosen(rules: seq<Rule>, link: string, i: nat, j: nat)
    requires Twice(rules, i, j) && Within(link, rules[j].path)
    ensures Chosen(rules, link, 0, j)
  {
    hide Within, Starts;
    forall m | 0 <= m < j && rules[m].included && Within(link, rules[m].path) ensures !Nested(rules, m, j) {
      if m < i { NestedEnd(rules, m, i, j); }
    }
  }

  lemma NestedEnd(rules: seq<Rule>, m: nat, i: nat, j: nat)
    requires m <= i <= j < |rules|
    ensures Nested(rules, m, j) ==> Nested(rules, i, j)
  {
    hide Within;
  }

  lemma OvertakesInside(rules: seq<Rule>, m: nat, name: Name, j: nat)
    requires m < |rules| && j < |rules| && rules[j].included && !Dots(name)
    requires Within(EntryPath(rules[m].path, name), rules[j].path)
    ensures Overtakes(rules, rules[m].path, rules[j].path)
  {
    hide Within, EntryPath, Included, PathCmp;
    SamePath(rules[j].path);
    assert EntryOvertakes(rules, EntryPath(rules[m].path, name), rules[j].path);
  }

  lemma BothGoneTo(rules: seq<Rule>, link: string, m: nat, j: nat)
    requires RulesSorted(rules) && m < j < |rules| && Chosen(rules, link, 0, m) && Chosen(rules, link, 0, j)
    requires Overtakes(rules, rules[m].path, rules[j].path)
    ensures !InTurn(rules, JumpPaths(rules, link))
  {
    hide Within, Chosen, Jumps, Overtakes, RulesSorted, Paths;
    JumpsExactly(rules, link, 0, m);
    JumpsExactly(rules, link, 0, j);
    JumpsRise(rules, link, 0);
    var js := Jumps(rules, link, 0);
    var a :| 0 <= a < |js| && js[a] == m;
    var b :| 0 <= b < |js| && js[b] == j;
    PathsAt(rules, js, a);
    PathsAt(rules, js, b);
    assert Overtakes(rules, JumpPaths(rules, link)[a], JumpPaths(rules, link)[b]);
  }
}
