/** The store of one client: its finished backups, oldest first, and what can be
    restored from them whatever has been done to them since. */
module Store {
  import opened Wrappers
  import opened Librsync
  import opened Records
  import opened Jiggle
  import opened ShuffleRun

  /** One backup. `held` and `gz` are for the specification: what each data path held
      when the backup was finished, and which of them its records say are compressed.
      The code never looks at them. */
  datatype Version = Version(
    index: nat,
    manifest: seq<Sbuf>,
    data: Dir,
    delta: Dir,
    hardlinked: bool,
    held: Dir,
    gz: set<string>)

  /** The encrypted files whose bytes are handed to the client as they are. */
  predicate SentAsIs(cmd: char) {
    cmd == CMD_ENC_FILE || cmd == CMD_ENC_METADATA || cmd == CMD_ENC_VSS || cmd == CMD_EFS_FILE
  }

  /** The record says that its data is to be inflated. */
  predicate Gz(e: Sbuf)
    requires e.datapth.Some?
  {
    DpthIsCompressed(e.statp.compression, e.datapth.value) && !SentAsIs(e.cmd)
  }

  ghost predicate FlagsAre(m: seq<Sbuf>, gz: set<string>) {
    forall e :: e in m && e.datapth.Some? ==> (Gz(e) <==> e.datapth.value in gz)
  }

  /** What is found for a file: it lies there as it was stored, or deltas have been
      applied to what was inflated first. */
  datatype Got = Raw(stored: Bytes) | Plain(content: Bytes)
  {
    function Opened(lib: Codec, gz: bool): Option<Bytes> {
      match this
      case Raw(x) => lib.Inflated(gz, x)
      case Plain(x) => Some(x)
    }
  }

  /** What a data path of backup `i` restores to, by a record that says `gz`: its own
      file, or what the next backup restores to, turned back by the reverse delta if
      there is one. */
  function Restore(lib: Codec, vs: seq<Version>, i: nat, dp: string, gz: bool): Option<Got>
    decreases |vs| - i
  {
    if i >= |vs| then None
    else if dp in vs[i].data then Some(Raw(vs[i].data[dp]))
    else
      var next := Restore(lib, vs, i + 1, dp, gz);
      if next.None? || dp !in vs[i].delta then next
      else TurnedBack(lib, next.value, vs[i].delta[dp], gz)
  }

  function TurnedBack(lib: Codec, got: Got, delta: Bytes, gz: bool): Option<Got> {
    var basis := got.Opened(lib, gz);
    if basis.None? then None
    else
      var patched := lib.patch(basis.value, lib.ReadAs(gz, delta));
      if patched.None? then None else Some(Plain(patched.value))
  }

  /** As good as the stored bytes: they, or what they inflate to. */
  predicate Gives(lib: Codec, got: Got, stored: Bytes, gz: bool) {
    got == Raw(stored) || (got.Plain? && lib.Inflated(gz, stored) == Some(got.content))
  }

  /** Backup `v` still has `dp`, or leans on the backup after it for it; a backup
      marked hardlinked leans on nothing. */
  predicate Has(lib: Codec, v: Version, next: Option<Version>, dp: string)
    requires dp in v.held
  {
    if dp in v.data then v.data[dp] == v.held[dp]
    else
      && !v.hardlinked && next.Some? && dp in next.value.held && (dp in v.gz <==> dp in next.value.gz)
      && if dp in v.delta then
           var (gz, basis, target) := (dp in v.gz, next.value.held[dp], v.held[dp]);
           && lib.Inflated(gz, basis).Some? && lib.Inflated(gz, target).Some?
           && lib.patch(lib.Inflated(gz, basis).value, lib.ReadAs(gz, v.delta[dp])) == lib.Inflated(gz, target)
         else next.value.held[dp] == v.held[dp]
  }

  function NextOf(vs: seq<Version>, i: nat): Option<Version> {
    if i + 1 < |vs| then Some(vs[i + 1]) else None
  }

  ghost predicate VersionOk(lib: Codec, v: Version, next: Option<Version>) {
    && (forall dp :: dp in v.held ==> Has(lib, v, next, dp))
    && Covered(v.manifest, v.held) && FlagsAre(v.manifest, v.gz)
  }

  ghost predicate VersionsOk(lib: Codec, vs: seq<Version>) {
    forall i :: 0 <= i < |vs| ==> VersionOk(lib, vs[i], NextOf(vs, i))
  }

  predicate IndexesRise(vs: seq<Version>) {
    forall i, j :: 0 <= i < j < |vs| ==> vs[i].index < vs[j].index
  }

  ghost predicate StoreOk(lib: Codec, vs: seq<Version>) {
    VersionsOk(lib, vs) && IndexesRise(vs)
  }

  function TopIndex(vs: seq<Version>): nat { if vs == [] then 0 else vs[|vs| - 1].index }

  /** Every backup of a good store restores what it held. */
  lemma {:induction false} RestoreExact(lib: Codec, vs: seq<Version>, i: nat, dp: string)
    requires StoreOk(lib, vs) && i < |vs| && dp in vs[i].held
    ensures var (gz, r) := (dp in vs[i].gz, Restore(lib, vs, i, dp, dp in vs[i].gz));
            r.Some? && Gives(lib, r.value, vs[i].held[dp], gz)
    decreases |vs| - i
  {
    assert VersionOk(lib, vs[i], NextOf(vs, i));
    assert Has(lib, vs[i], NextOf(vs, i), dp);
    if dp !in vs[i].data { RestoreExact(lib, vs, i + 1, dp); }
  }

  // ----- What happens to a store -----

  /** A backup is finished, or a retention pass deletes the marked backups. */
  datatype Event =
    | First(manifest: seq<Sbuf>, data: Dir, gz: set<string>)
    | Next(manifest: seq<Sbuf>, plan: Plan, dirs: Dirs)
    | Pass(deleted: seq<bool>)

  function Survivors(vs: seq<Version>, deleted: seq<bool>): seq<Version>
    requires |vs| == |deleted|
  {
    if vs == [] then []
    else (if deleted[0] then [] else [vs[0]]) + Survivors(vs[1..], deleted[1..])
  }

  /** Nothing that stays leans on something that goes. */
  predicate Closed(vs: seq<Version>, deleted: seq<bool>) {
    |vs| == |deleted| &&
    forall i :: 0 <= i < |vs| - 1 && !deleted[i] && deleted[i + 1] ==> vs[i].hardlinked
  }

  function Finished(vs: seq<Version>, m: seq<Sbuf>, hardlinked: bool, dirs: Dirs, gz: set<string>): seq<Version>
    requires vs != []
  {
    var last := vs[|vs| - 1];
    vs[..|vs| - 1] + [
      last.(data := dirs.cur, delta := dirs.rev, hardlinked := hardlinked),
      Version(last.index + 1, m, dirs.fin, map[], false, dirs.fin, gz)]
  }

  /** The plan is for a backup on top of `last`, and of every old file all are at one
      about how it is stored, unless the old directory keeps it anyway. */
  ghost predicate PlanFits(plan: Plan, lib: Codec, last: Version) {
    && plan.lib == lib && plan.was == last.data && plan.wasGz == last.gz
    && (plan.hardlinked || forall dp :: dp in last.held ==> plan.Sound(dp))
  }

  ghost predicate Happens(lib: Codec, ev: Event, vs: seq<Version>, vs': seq<Version>) {
    match ev
    case First(m, data, gz) =>
      vs == [] && Covered(m, data) && FlagsAre(m, gz) && vs' == [Version(1, m, data, map[], false, data, gz)]
    case Next(m, plan, dirs) =>
      && vs != [] && PlanFits(plan, lib, vs[|vs| - 1])
      && ShuffleInv(plan, map[], dirs) && Covered(m, dirs.fin) && FlagsAre(m, plan.gz)
      && vs' == Finished(vs, m, plan.hardlinked, dirs, plan.gz)
    case Pass(deleted) =>
      && Closed(vs, deleted) && (vs != [] ==> !deleted[|vs| - 1])
      && vs' == Survivors(vs, deleted)
  }

  lemma FirstIsGood(lib: Codec, m: seq<Sbuf>, data: Dir, gz: set<string>)
    requires Covered(m, data) && FlagsAre(m, gz)
    ensures StoreOk(lib, [Version(1, m, data, map[], false, data, gz)])
  {
  }

  lemma NextKeepsStore(lib: Codec, vs: seq<Version>, m: seq<Sbuf>, plan: Plan, dirs: Dirs)
    requires StoreOk(lib, vs) && vs != [] && PlanFits(plan, lib, vs[|vs| - 1])
    requires ShuffleInv(plan, map[], dirs) && Covered(m, dirs.fin) && FlagsAre(m, plan.gz)
    ensures StoreOk(lib, Finished(vs, m, plan.hardlinked, dirs, plan.gz))
  {
    var n := |vs| - 1;
    var vs' := Finished(vs, m, plan.hardlinked, dirs, plan.gz);
    forall i | 0 <= i < |vs'| ensures VersionOk(lib, vs'[i], NextOf(vs', i)) {
      if i < n {
        assert VersionOk(lib, vs[i], NextOf(vs, i));
        forall dp | dp in vs[i].held ensures Has(lib, vs'[i], NextOf(vs', i), dp) {
          assert Has(lib, vs[i], NextOf(vs, i), dp);
        }
      } else if i == n {
        assert VersionOk(lib, vs[n], NextOf(vs, n));
        forall dp | dp in vs[n].held ensures Has(lib, vs'[n], NextOf(vs', n), dp) {
          assert Has(lib, vs[n], None, dp) && FileInv(plan, map[], dirs, dp);
        }
      }
    }
  }

  lemma {:induction false} SurvivorsContents(vs: seq<Version>, deleted: seq<bool>)
    requires |vs| == |deleted|
    ensures forall v :: v in Survivors(vs, deleted) ==> v in vs
    ensures vs != [] && !deleted[0] ==> Survivors(vs, deleted) == [vs[0]] + Survivors(vs[1..], deleted[1..])
    ensures vs != [] && !deleted[|vs| - 1] ==>
              Survivors(vs, deleted) != [] && Survivors(vs, deleted)[|Survivors(vs, deleted)| - 1] == vs[|vs| - 1]
  {
    if vs != [] {
      SurvivorsContents(vs[1..], deleted[1..]);
    }
  }

  lemma {:induction false} SurvivorsOrdered(vs: seq<Version>, deleted: seq<bool>)
    requires |vs| == |deleted| && IndexesRise(vs)
    ensures IndexesRise(Survivors(vs, deleted))
  {
    if vs != [] {
      var s := Survivors(vs[1..], deleted[1..]);
      SurvivorsOrdered(vs[1..], deleted[1..]);
      SurvivorsContents(vs[1..], deleted[1..]);
      forall i | 0 <= i < |s| ensures vs[0].index < s[i].index {
        assert s[i] in vs[1..];
      }
    }
  }

  lemma {:induction false} PassKeepsVersions(lib: Codec, vs: seq<Version>, deleted: seq<bool>)
    requires VersionsOk(lib, vs) && Closed(vs, deleted)
    ensures VersionsOk(lib, Survivors(vs, deleted))
  {
    if vs != [] {
      hide VersionOk;
      var rest, s := vs[1..], Survivors(vs[1..], deleted[1..]);
      forall i | 0 <= i < |rest| ensures VersionOk(lib, rest[i], NextOf(rest, i)) {
        assert VersionOk(lib, vs[i + 1], NextOf(vs, i + 1)) && NextOf(rest, i) == NextOf(vs, i + 1);
      }
      PassKeepsVersions(lib, rest, deleted[1..]);
      if !deleted[0] {
        HeadStaysOk(lib, vs, deleted);
        HeadAndRest(lib, vs[0], s);
      }
    }
  }

  lemma HeadAndRest(lib: Codec, v: Version, s: seq<Version>)
    requires VersionsOk(lib, s) && VersionOk(lib, v, NextOf([v] + s, 0))
    ensures VersionsOk(lib, [v] + s)
  {
    hide VersionOk;
    var s' := [v] + s;
    forall i | 0 < i < |s'| ensures VersionOk(lib, s'[i], NextOf(s', i)) {
      assert VersionOk(lib, s[i - 1], NextOf(s, i - 1)) && NextOf(s', i) == NextOf(s, i - 1);
    }
  }

  lemma HeadStaysOk(lib: Codec, vs: seq<Version>, deleted: seq<bool>)
    requires VersionsOk(lib, vs) && Closed(vs, deleted) && vs != [] && !deleted[0]
    ensures VersionOk(lib, vs[0], NextOf(Survivors(vs, deleted), 0))
  {
    assert VersionOk(lib, vs[0], NextOf(vs, 0));
    var s := Survivors(vs[1..], deleted[1..]);
    if |vs| > 1 && !deleted[1] { assert s[0] == vs[1]; }
    forall dp | dp in vs[0].held ensures Has(lib, vs[0], NextOf([vs[0]] + s, 0), dp) {
      assert Has(lib, vs[0], NextOf(vs, 0), dp);
    }
  }

  /** What is true of a backup for good. */
  predicate SameBackup(v: Version, w: Version) {
    v.index == w.index && v.manifest == w.manifest && v.held == w.held && v.gz == w.gz
  }

  /** Nothing that can happen to a good store spoils it; what a backup is held to
      stays with its index, and a new backup gets a new index. */
  lemma HappensKeepsStore(lib: Codec, ev: Event, vs: seq<Version>, vs': seq<Version>)
    requires StoreOk(lib, vs) && Happens(lib, ev, vs, vs')
    ensures StoreOk(lib, vs')
    ensures TopIndex(vs) <= TopIndex(vs')
    ensures forall w :: w in vs' ==> w.index > TopIndex(vs) || exists v :: v in vs && SameBackup(v, w)
  {
    hide ShuffleInv, FlagsAre, Has;
    match ev
    case First(m, data, gz) =>
      FirstIsGood(lib, m, data, gz);
    case Next(m, plan, dirs) =>
      NextKeepsStore(lib, vs, m, plan, dirs);
      OldOnesStay(vs, m, plan.hardlinked, dirs, plan.gz);
    case Pass(deleted) =>
      PassKeepsVersions(lib, vs, deleted);
      SurvivorsOrdered(vs, deleted);
      SurvivorsContents(vs, deleted);
  }

  lemma OldOnesStay(vs: seq<Version>, m: seq<Sbuf>, hardlinked: bool, dirs: Dirs, gz: set<string>)
    requires vs != []
    ensures var vs' := Finished(vs, m, hardlinked, dirs, gz);
            forall w :: w in vs' ==> w.index > TopIndex(vs) || exists v :: v in vs && SameBackup(v, w)
  {
    var vs' := Finished(vs, m, hardlinked, dirs, gz);
    forall w | w in vs' && w.index <= TopIndex(vs) ensures exists v :: v in vs && SameBackup(v, w) {
      var j :| 0 <= j < |vs'| && vs'[j] == w;
      assert vs[j] in vs;
    }
  }

  /** `t` is what a store goes through. */
  ghost predicate Steps(lib: Codec, evs: seq<Event>, t: seq<seq<Version>>) {
    && |t| == |evs| + 1
    && forall k :: 0 <= k < |evs| ==> Happens(lib, evs[k], t[k], t[k + 1])
  }

  /** It does so from the start. */
  ghost predicate Run(lib: Codec, evs: seq<Event>, t: seq<seq<Version>>) {
    Steps(lib, evs, t) && t[0] == []
  }

  lemma StepsGoOn(lib: Codec, evs: seq<Event>, t: seq<seq<Version>>, evs': seq<Event>, t': seq<seq<Version>>)
    requires Steps(lib, evs, t) && Steps(lib, evs', t') && t[|evs|] == t'[0]
    ensures Steps(lib, evs + evs', t + t'[1..])
    ensures (t + t'[1..])[|evs + evs'|] == t'[|evs'|]
  {
    hide Happens;
    var es, ts := evs + evs', t + t'[1..];
    forall k | 0 <= k < |es| ensures Happens(lib, es[k], ts[k], ts[k + 1]) {
      if k < |evs| {
        assert Happens(lib, evs[k], t[k], t[k + 1]);
      } else {
        assert Happens(lib, evs'[k - |evs|], t'[k - |evs|], t'[k - |evs| + 1]);
      }
    }
  }

  lemma {:induction false} RunKeepsStore(lib: Codec, evs: seq<Event>, t: seq<seq<Version>>, k: nat)
    requires Run(lib, evs, t) && k < |t|
    ensures StoreOk(lib, t[k])
  {
    if k > 0 {
      RunKeepsStore(lib, evs, t, k - 1);
      HappensKeepsStore(lib, evs[k - 1], t[k - 1], t[k]);
    }
  }

  /** The index names one backup for good. */
  lemma {:induction false} HeldStays(lib: Codec, evs: seq<Event>, t: seq<seq<Version>>, j: nat, k: nat, v: Version)
    requires Run(lib, evs, t) && j <= k < |t| && v in t[j]
    ensures v.index <= TopIndex(t[k])
    ensures forall w :: w in t[k] && w.index == v.index ==> SameBackup(v, w)
  {
    if k == j {
      RunKeepsStore(lib, evs, t, k);
      IndexNames(lib, t[k], v);
    } else {
      HeldStays(lib, evs, t, j, k - 1, v);
      RunKeepsStore(lib, evs, t, k - 1);
      assert Happens(lib, evs[k - 1], t[k - 1], t[k]);
      hide Happens, StoreOk, Run, TopIndex;
      HappensKeepsStore(lib, evs[k - 1], t[k - 1], t[k]);
      forall w | w in t[k] && w.index == v.index ensures SameBackup(v, w) {
        var u :| u in t[k - 1] && SameBackup(u, w);
      }
    }
  }

  lemma IndexNames(lib: Codec, vs: seq<Version>, v: Version)
    requires StoreOk(lib, vs) && v in vs
    ensures v.index <= TopIndex(vs)
    ensures forall w :: w in vs && w.index == v.index ==> w == v
  {
    hide VersionsOk;
    var i :| 0 <= i < |vs| && vs[i] == v;
    assert i == |vs| - 1 || vs[i].index < vs[|vs| - 1].index;
    forall w | w in vs && w.index == v.index ensures w == v {
      var j :| 0 <= j < |vs| && vs[j] == w;
      assert j == i;
    }
  }

  /** Whatever backups and retention passes came in between, a backup that is
      still there restores every data path to what it held when it was made. */
  lemma EverySurvivorRestores(lib: Codec, evs: seq<Event>, t: seq<seq<Version>>, j: nat, k: nat,
                              v: Version, i: nat, dp: string)
    requires Run(lib, evs, t) && j <= k < |t|
    requires v in t[j] && i < |t[k]| && t[k][i].index == v.index && dp in v.held
    ensures var (gz, r) := (dp in v.gz, Restore(lib, t[k], i, dp, dp in v.gz));
            r.Some? && Gives(lib, r.value, v.held[dp], gz)
  {
    HeldStays(lib, evs, t, j, k, v);
    RunKeepsStore(lib, evs, t, k);
    assert t[k][i] in t[k];
    RestoreExact(lib, t[k], i, dp);
  }
}
