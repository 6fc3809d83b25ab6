/** Where the client's scan starts: what makes a configuration be refused, and which
    of its included paths are start points (`finalise_config` in src/conf.c). */
module StartPoints {
  import opened Wrappers
  import opened PathOrder
  import opened IncExc

  predicate IsAlpha(c: char) { 'a' <= c <= 'z' || 'A' <= c <= 'Z' }

  predicate DotDotAt(path: string, i: nat) {
    && i + 2 <= |path| && path[i] == '.' && path[i + 1] == '.'
    && (i == 0 || path[i - 1] == '/') && (i + 2 == |path| || path[i + 2] == '/')
  }

  /** `path_checks`: an absolute path, of either kind, with no `..` in it. */
  predicate PathOk(path: string) {
    && (forall i :: 0 <= i < |path| ==> !DotDotAt(path, i))
    && |path| >= 1 && (path[0] == '/' || (IsAlpha(path[0]) && |path| >= 2 && path[1] == ':'))
  }

  /** What makes the configuration be refused. */
  ghost predicate RulesOk(rules: seq<Rule>) {
    forall i :: 0 <= i < |rules| ==>
      PathOk(rules[i].path) && !(i > 0 && rules[i].included && rules[i].path == rules[i - 1].path)
  }

  /** In order, and none within another. */
  ghost predicate Separate(starts: seq<string>) {
    && (forall i, j :: 0 <= i < j < |starts| ==> PathCmp(starts[i], starts[j]) < 0)
    && (forall i, j :: 0 <= i < |starts| && 0 <= j < |starts| && i != j ==> !Within(starts[i], starts[j]))
  }

  /** The path is within one of the start points. */
  ghost predicate Reaches(starts: seq<string>, path: string) {
    exists k :: 0 <= k < |starts| && Within(starts[k], path)
  }

  /** Every included path is reached, and from nothing but included paths. */
  ghost predicate Covers(starts: seq<string>, rules: seq<Rule>) {
    && (forall i :: 0 <= i < |rules| && rules[i].included ==> Reaches(starts, rules[i].path))
    && (forall k :: 0 <= k < |starts| ==> Rule(starts[k], true) in rules)
  }

  lemma NewStartIsSeparate(starts: seq<string>, path: string)
    requires Separate(starts)
    requires starts != [] ==> PathCmp(starts[|starts| - 1], path) <= 0 && !Within(starts[|starts| - 1], path)
    ensures Separate(starts + [path])
  {
    hide PathCmp, Within;
    var n := |starts|;
    forall i | 0 <= i < n
      ensures PathCmp(starts[i], path) < 0 && !Within(starts[i], path) && !Within(path, starts[i])
    {
      PathIsApart(starts[i], starts[n - 1], path);
    }
  }

  lemma PathIsApart(s: string, last: string, path: string)
    requires s == last || (PathCmp(s, last) < 0 && !Within(s, last))
    requires PathCmp(last, path) <= 0 && !Within(last, path)
    ensures PathCmp(s, path) < 0 && !Within(s, path) && !Within(path, s)
  {
    PathCmpAntisymmetric(last, path);
    assert Within(path, path);
    if s != last {
      PathCmpTransitive(s, last, path);
      if Within(s, path) { DescendantsContiguous(s, last, path); }
    }
    hide Within, PathCmp;
    PathCmpAntisymmetric(s, path);
    if Within(path, s) { WithinIsAfter(path, s); }
  }

  lemma LastStartIsBefore(starts: seq<string>, rules: seq<Rule>, i: nat)
    requires RulesSorted(rules) && i < |rules| && Covers(starts, rules[..i]) && starts != []
    ensures PathCmp(starts[|starts| - 1], rules[i].path) <= 0
  {
    hide PathCmp, Reaches;
    assert Rule(starts[|starts| - 1], true) in rules[..i];
    var j :| 0 <= j < i && rules[..i][j] == Rule(starts[|starts| - 1], true);
    assert rules[j].path == starts[|starts| - 1];
  }

  lemma CoversSame(starts: seq<string>, rules: seq<Rule>, r: Rule)
    requires Covers(starts, rules)
    requires r.included ==> starts != [] && Within(starts[|starts| - 1], r.path)
    ensures Covers(starts, rules + [r])
  {
    assert r.included ==> Reaches(starts, r.path);
    hide Reaches, Within;
  }

  lemma CoversNew(starts: seq<string>, rules: seq<Rule>, r: Rule)
    requires Covers(starts, rules) && r.included
    ensures Covers(starts + [r.path], rules + [r])
  {
    ReachesItself(starts, r.path);
    hide Reaches;
    var starts', rules' := starts + [r.path], rules + [r];
    forall i | 0 <= i < |rules'| && rules'[i].included ensures Reaches(starts', rules'[i].path) {
      if i < |rules| { StillReaches(starts, r.path, rules[i].path); }
    }
    StartsFromRules(starts, rules, r);
  }

  lemma ReachesItself(starts: seq<string>, path: string)
    ensures Reaches(starts + [path], path)
  {
    assert (starts + [path])[|starts|] == path && Within(path, path);
  }

  lemma StartsFromRules(starts: seq<string>, rules: seq<Rule>, r: Rule)
    requires r.included && forall k :: 0 <= k < |starts| ==> Rule(starts[k], true) in rules
    ensures forall k :: 0 <= k <= |starts| ==> Rule((starts + [r.path])[k], true) in rules + [r]
  {
    forall k | 0 <= k <= |starts| ensures Rule((starts + [r.path])[k], true) in rules + [r] {
      if k < |starts| {
        assert Rule(starts[k], true) in rules;
      } else {
        assert (rules + [r])[|rules|] == Rule(r.path, true);
      }
    }
  }

  lemma StillReaches(starts: seq<string>, s: string, path: string)
    requires Reaches(starts, path)
    ensures Reaches(starts + [s], path)
  {
    hide Within;
    var k :| 0 <= k < |starts| && Within(starts[k], path);
    assert (starts + [s])[k] == starts[k];
  }

  /** The paths that `finalise_config` makes start points. */
  function Starts(rules: seq<Rule>): seq<string> {
    if rules == [] then []
    else
      var r, starts := rules[|rules| - 1], Starts(rules[..|rules| - 1]);
      if !r.included || (starts != [] && Within(starts[|starts| - 1], r.path)) then starts else starts + [r.path]
  }

  /** They are in order, none within another, and every included path is within one. */
  lemma {:induction false} StartsCover(rules: seq<Rule>)
    requires RulesSorted(rules)
    ensures Separate(Starts(rules)) && Covers(Starts(rules), rules)
  {
    hide Within, PathCmp, Separate, Covers;
    if rules == [] {
      NothingCovered();
    } else {
      var n := |rules| - 1;
      var r, starts := rules[n], Starts(rules[..n]);
      StartsCover(rules[..n]);
      assert rules[..n] + [r] == rules;
      if starts != [] { LastStartIsBefore(starts, rules, n); }
      if !r.included || (starts != [] && Within(starts[|starts| - 1], r.path)) {
        CoversSame(starts, rules[..n], r);
      } else {
        NewStartIsSeparate(starts, r.path);
        CoversNew(starts, rules[..n], r);
      }
    }
  }

  lemma NothingCovered()
    ensures Separate([]) && Covers([], [])
  {
  }

  /** The loop of `finalise_config` over the sorted rules. */
  method FindStartPoints(rules: seq<Rule>) returns (starts: Option<seq<string>>)
    ensures starts.Some? <==> RulesOk(rules)
    ensures starts.Some? ==> starts.value == Starts(rules)
  {
    hide PathOk, RulesOk, Within;
    var sd: seq<string> := [];
    assert RulesOk(rules[..0]) by { NoRulesOk(); }
    for i := 0 to |rules|
      invariant RulesOk(rules[..i]) && sd == Starts(rules[..i])
    {
      var r := rules[i];
      assert rules[..i + 1][..i] == rules[..i];
      RulesOkMore(rules, i);
      if !PathOk(r.path) { return None; }
      if !r.included { continue; }
      if i > 0 && r.path == rules[i - 1].path { return None; }
      var depth := 0;
      if sd != [] { depth := IsSubdir(Some(sd[|sd| - 1]), Some(r.path)); }
      if depth == 0 { sd := sd + [r.path]; }
    }
    assert rules[..|rules|] == rules;
    return Some(sd);
  }

  lemma NoRulesOk()
    ensures RulesOk([])
  {
  }

  /** What is accepted includes no path twice: equal paths stand next to each other. */
  lemma OkIsNoneRepeated(rules: seq<Rule>)
    requires RulesSorted(rules) && RulesOk(rules)
    ensures NoneRepeated(rules)
  {
    hide PathCmp, PathOk;
    forall i, j | 0 <= i < j < |rules| && rules[j].included ensures rules[i].path != rules[j].path {
      if rules[i].path == rules[j].path && i < j - 1 {
        PathCmpAntisymmetric(rules[i].path, rules[j - 1].path);
      }
    }
  }

  lemma RulesOkMore(rules: seq<Rule>, i: nat)
    requires i < |rules| && RulesOk(rules[..i])
    ensures RulesOk(rules[..i + 1]) <==>
            PathOk(rules[i].path) && !(i > 0 && rules[i].included && rules[i].path == rules[i - 1].path)
    ensures RulesOk(rules) ==> RulesOk(rules[..i + 1])
  {
    hide PathOk;
    assert forall j :: 0 <= j <= i ==> rules[..i + 1][j] == rules[j];
    assert forall j :: 0 <= j < i ==> rules[..i][j] == rules[j];
  }
}
