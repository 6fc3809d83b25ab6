/** The restartable shuffle of phase 4: `jiggle` and `atomic_data_jiggle`
    (src/backup_phase4_server.c). A crash may stop a method at any `if *`; a file
    that is being written holds arbitrary bytes until the write is over. */
module Jiggle {
  import opened Wrappers
  import opened Librsync
  import opened Records

  type Dir = map<string, Bytes>

  /** What a shuffle finds when it is first started: the files of the previous
      backup, those received whole, and the forward deltas. `gz` and `wasGz` name the
      data paths whose new or old record says they are compressed; `serverGz` is the
      server's own setting, which deltas and patched files are written by. */
  datatype Plan = Plan(lib: Codec, hardlinked: bool, serverGz: bool, was: Dir, wasGz: set<string>,
                       received: Dir, patches: Dir, gz: set<string>)
  {
    /** The old file as the basis for its delta. */
    function Basis(dp: string): Option<Bytes>
      requires dp in was
    {
      lib.Inflated(dp in gz, was[dp])
    }

    function Patched(dp: string): Option<Bytes>
      requires dp in was && dp in patches
    {
      if Basis(dp).None? then None else lib.patch(Basis(dp).value, lib.ReadAs(dp in gz, patches[dp]))
    }

    /** What the new backup should hold under `dp`. */
    function Goal(dp: string): Option<Bytes> {
      if dp in patches then
        if dp !in was || Patched(dp).None? then None else Some(lib.Stored(serverGz, Patched(dp).value))
      else if dp in received then Some(received[dp])
      else if dp in was then Some(was[dp])
      else None
    }

    /** The reverse delta that is made for `dp`. */
    function Reverse(dp: string, made: Bytes): Bytes
      requires dp in was
    {
      lib.Stored(serverGz, lib.delta(lib.ReadAs(dp in gz, made), lib.ReadAs(dp in gz, was[dp])))
    }

    /** Old record, new record and server are at one about what is compressed. */
    predicate Agreed(dp: string) { (dp in gz <==> dp in wasGz) && (dp in gz <==> serverGz) }

    /** The old file is read in the end as it was written: of a delta that applies
        all are at one, and an unchanged file keeps its record. */
    predicate Sound(dp: string) {
      dp in was ==>
        if dp in patches then Goal(dp).None? || Agreed(dp)
        else dp in received || (dp in gz <==> dp in wasGz)
    }
  }

  /** The directories while it runs: currentdup/data and its deltas.reverse, then
      data.tmp, deltas.forward and data of the new backup. */
  datatype Dirs = Dirs(cur: Dir, rev: Dir, tmp: Dir, fwd: Dir, fin: Dir)

  /** The bytes `dp` had in the old backup can be had from the new file: it is the
      same, or the reverse delta turns it back. */
  predicate TurnsBack(p: Plan, d: Dirs, dp: string)
    requires dp in p.was && dp in d.fin
  {
    var g := dp in p.wasGz;
    && (dp in p.gz <==> g)
    && if dp in d.rev then
         var (basis, target) := (p.lib.Inflated(g, d.fin[dp]), p.lib.Inflated(g, p.was[dp]));
         basis.Some? && target.Some? && p.lib.patch(basis.value, p.lib.ReadAs(g, d.rev[dp])) == target
       else d.fin[dp] == p.was[dp]
  }

  /** What every step keeps about one data path. The old files that were written
      over through a link are `spoilt`. */
  predicate FileInv(p: Plan, spoilt: Dir, d: Dirs, dp: string) {
    && (dp in spoilt ==> dp in p.was && dp in p.patches && dp !in p.gz)
    && (dp in d.cur ==> dp in p.was && d.cur[dp] == if dp in spoilt then spoilt[dp] else p.was[dp])
    && (dp in p.was && dp !in d.cur ==>
          !p.hardlinked && dp in d.fin && (dp !in spoilt && p.Sound(dp) ==> TurnsBack(p, d, dp)))
    && (dp in d.rev ==> dp in p.patches)
    && if dp in d.fin then dp !in spoilt ==> p.Goal(dp) == Some(d.fin[dp])
       else if dp in p.patches then dp in d.fwd && d.fwd[dp] == p.patches[dp]
       else
         && dp !in d.fwd
         && (dp in p.received <==> dp in d.tmp)
         && (dp in d.tmp ==> d.tmp[dp] == p.received[dp])
  }

  ghost predicate ShuffleInv(p: Plan, spoilt: Dir, d: Dirs) {
    p.lib.Valid() && forall dp :: FileInv(p, spoilt, d, dp)
  }

  datatype Outcome = Done | Failed | Crashed

  /** The file deltas.forward/inflate: its own, or a second name of an old file. */
  datatype Inflate = Absent | Own(content: Bytes) | LinkTo(dp: string)

  /** A link is left only to the old file of an uncompressed delta not yet applied. */
  predicate InflateOk(p: Plan, inflate: Inflate, d: Dirs) {
    inflate.LinkTo? ==>
      inflate.dp in d.cur && inflate.dp in p.patches && inflate.dp !in p.gz && inflate.dp !in d.fin
  }

  /** Of a delta that all agree on, what was made turns back into the old file. */
  lemma TurnsBackAtLast(p: Plan, d: Dirs, dp: string)
    requires p.lib.Valid() && dp in p.was && dp in p.patches && p.Sound(dp)
    requires dp in d.tmp && p.Goal(dp) == Some(d.tmp[dp])
    requires dp in d.rev && d.rev[dp] == p.Reverse(dp, d.tmp[dp])
    ensures TurnsBack(p, d.(fin := d.fin[dp := d.tmp[dp]]), dp)
  {
    var g := dp in p.wasGz;
    p.lib.StoredReads(g, p.Patched(dp).value);
    p.lib.StoredReads(g, p.lib.delta(p.Patched(dp).value, p.Basis(dp).value));
  }

  /** One more old file was written over. */
  predicate Overwritten(before: Dir, after: Dir, dp: string) { dp in after && after == before[dp := after[dp]] }

  predicate Like(m: Dir, m': Dir, dp: string) {
    (dp in m <==> dp in m') && (dp in m ==> m[dp] == m'[dp])
  }

  /** Nothing but `dp` differs. */
  ghost predicate OnlyAt(d: Dirs, d': Dirs, dp: string) {
    forall x :: x != dp ==>
      && Like(d.cur, d'.cur, x) && Like(d.rev, d'.rev, x) && Like(d.tmp, d'.tmp, x)
      && Like(d.fwd, d'.fwd, x) && Like(d.fin, d'.fin, x)
  }

  /** So a step on one file is looked at for that file alone. */
  lemma OneFileChanges(p: Plan, spoilt: Dir, d: Dirs, d': Dirs, dp: string)
    requires ShuffleInv(p, spoilt, d) && OnlyAt(d, d', dp) && FileInv(p, spoilt, d', dp)
    ensures ShuffleInv(p, spoilt, d')
  {
    hide Plan.Goal, Plan.Sound;
    forall x ensures FileInv(p, spoilt, d', x) {
      if x != dp {
        assert FileInv(p, spoilt, d, x);
        assert Like(d.cur, d'.cur, x) && Like(d.fin, d'.fin, x) && Like(d.rev, d'.rev, x);
        assert Like(d.tmp, d'.tmp, x) && Like(d.fwd, d'.fwd, x);
      }
    }
  }

  /** What there is to go on for a delta that is not applied yet. */
  lemma GoalOfDelta(p: Plan, spoilt: Dir, d: Dirs, dp: string)
    requires ShuffleInv(p, spoilt, d) && dp in p.patches && dp !in d.fin
    ensures dp in d.fwd && d.fwd[dp] == p.patches[dp]
    ensures (dp in d.cur && dp !in spoilt ==>
               && dp in p.was && d.cur[dp] == p.was[dp]
               && p.Goal(dp) == if p.Patched(dp).None? then None
                                else Some(p.lib.Stored(p.serverGz, p.Patched(dp).value)))
  {
    assert FileInv(p, spoilt, d, dp);
  }

  lemma GoalIsPatch(p: Plan, spoilt: Dir, d: Dirs, dp: string, basis: Bytes)
    requires ShuffleInv(p, spoilt, d) && dp in p.patches && dp !in d.fin && dp in d.fwd && dp in d.cur
    requires p.lib.Inflated(dp in p.gz, d.cur[dp]) == Some(basis)
    ensures (dp !in spoilt ==>
               var patched := p.lib.patch(basis, p.lib.ReadAs(dp in p.gz, d.fwd[dp]));
               p.Goal(dp) == if patched.None? then None else Some(p.lib.Stored(p.serverGz, patched.value)))
  {
    GoalOfDelta(p, spoilt, d, dp);
  }

  /** `newpath` renamed into place, the forward delta and the old file there or not. */
  lemma PromotedOk(p: Plan, spoilt: Dir, d: Dirs, dp: string)
    requires ShuffleInv(p, spoilt, d) && dp in p.patches && dp !in d.fin && dp in d.cur && dp in d.tmp
    requires dp !in spoilt ==> Some(d.tmp[dp]) == p.Goal(dp)
    requires dp !in spoilt && !p.hardlinked ==> dp in d.rev && d.rev[dp] == p.Reverse(dp, d.tmp[dp])
    ensures var d' := d.(fin := d.fin[dp := d.tmp[dp]], tmp := d.tmp - {dp});
            && ShuffleInv(p, spoilt, d') && ShuffleInv(p, spoilt, d'.(fwd := d.fwd - {dp}))
            && (!p.hardlinked ==>
                  && ShuffleInv(p, spoilt, d'.(cur := d.cur - {dp}))
                  && ShuffleInv(p, spoilt, d'.(cur := d.cur - {dp}, fwd := d.fwd - {dp})))
  {
    var d' := d.(fin := d.fin[dp := d.tmp[dp]], tmp := d.tmp - {dp});
    if dp !in spoilt && p.Sound(dp) && !p.hardlinked { TurnsBackAtLast(p, d, dp); }
    hide Plan.Goal, Plan.Reverse, Plan.Sound;
    assert FileInv(p, spoilt, d, dp);
    OneFileChanges(p, spoilt, d, d', dp);
    OneFileChanges(p, spoilt, d, d'.(fwd := d.fwd - {dp}), dp);
    if !p.hardlinked {
      OneFileChanges(p, spoilt, d, d'.(cur := d.cur - {dp}), dp);
      OneFileChanges(p, spoilt, d, d'.(cur := d.cur - {dp}, fwd := d.fwd - {dp}), dp);
    }
  }

  lemma NewFileOk(p: Plan, spoilt: Dir, d: Dirs, dp: string)
    requires ShuffleInv(p, spoilt, d) && dp !in d.fin && dp !in d.fwd && dp in d.tmp
    ensures p.Goal(dp) == Some(d.tmp[dp])
    ensures ShuffleInv(p, spoilt, d.(fin := d.fin[dp := d.tmp[dp]], tmp := d.tmp - {dp}))
    ensures dp !in d.cur || dp !in p.patches
  {
    assert FileInv(p, spoilt, d, dp);
    OneFileChanges(p, spoilt, d, d.(fin := d.fin[dp := d.tmp[dp]], tmp := d.tmp - {dp}), dp);
  }

  /** The old file linked into place, and the old link there or not. */
  lemma OldFileOk(p: Plan, spoilt: Dir, d: Dirs, dp: string)
    requires ShuffleInv(p, spoilt, d) && dp !in d.fin && dp !in d.fwd && dp !in d.tmp && dp in d.cur
    ensures dp !in p.patches && (dp !in spoilt ==> p.Goal(dp) == Some(d.cur[dp]))
    ensures var d' := d.(fin := d.fin[dp := d.cur[dp]]);
            ShuffleInv(p, spoilt, d') && (!p.hardlinked ==> ShuffleInv(p, spoilt, d'.(cur := d.cur - {dp})))
  {
    assert FileInv(p, spoilt, d, dp);
    var d' := d.(fin := d.fin[dp := d.cur[dp]]);
    OneFileChanges(p, spoilt, d, d', dp);
    if !p.hardlinked { OneFileChanges(p, spoilt, d, d'.(cur := d.cur - {dp}), dp); }
  }

  class Shuffle {
    var cur: Dir
    var rev: Dir
    var tmp: Dir
    var fwd: Dir
    var fin: Dir
    var inflate: Inflate
    var deletions: seq<Sbuf>     // the deletions file
    var spoilt: Dir              // old files written over, with what they hold now
    const lib: Codec
    const serverGz: bool         // `compression` of the server's configuration
    const hardlinked: bool       // whether reverse deltas are left out, this time
    ghost const plan: Plan

    constructor (plan: Plan)
      requires plan.lib.Valid()
      ensures Inv() && this.plan == plan && hardlinked == plan.hardlinked
      ensures Now() == Dirs(plan.was, map[], plan.received, plan.patches, map[])
      ensures deletions == [] && inflate == Absent && spoilt == map[]
    {
      lib, serverGz, hardlinked, this.plan := plan.lib, plan.serverGz, plan.hardlinked, plan;
      cur, rev, tmp, fwd, fin := plan.was, map[], plan.received, plan.patches, map[];
      inflate, deletions, spoilt := Absent, [], map[];
    }

    /** Another process takes up what an earlier one left on disk. */
    constructor Resume(lib: Codec, serverGz: bool, hardlinked: bool, dirs: Dirs, inflate: Inflate,
                       deletions: seq<Sbuf>, spoilt: Dir, ghost plan: Plan)
      requires plan.lib == lib && plan.serverGz == serverGz
      requires ShuffleInv(plan, spoilt, dirs) && InflateOk(plan, inflate, dirs)
      ensures Inv() && this.plan == plan && this.hardlinked == hardlinked
      ensures Now() == dirs && this.inflate == inflate && this.deletions == deletions && this.spoilt == spoilt
    {
      this.lib, this.serverGz, this.hardlinked, this.plan := lib, serverGz, hardlinked, plan;
      cur, rev, tmp, fwd, fin := dirs.cur, dirs.rev, dirs.tmp, dirs.fwd, dirs.fin;
      this.inflate, this.deletions, this.spoilt := inflate, deletions, spoilt;
    }

    function Now(): Dirs
      reads this`cur, this`rev, this`tmp, this`fwd, this`fin
    {
      Dirs(cur, rev, tmp, fwd, fin)
    }

    ghost predicate Inv()
      reads this`cur, this`rev, this`tmp, this`fwd, this`fin, this`inflate, this`spoilt
    {
      && lib == plan.lib && serverGz == plan.serverGz
      && ShuffleInv(plan, spoilt, Now()) && InflateOk(plan, inflate, Now())
    }

    /** Writing the file `inflate`: over the old file, if it is a link. */
    method WriteInflate(content: Bytes)
      requires Inv()
      modifies this`inflate, this`cur, this`spoilt
      ensures Inv()
      ensures if old(inflate).LinkTo? then
                && inflate == old(inflate) && cur == old(cur)[inflate.dp := content]
                && spoilt == old(spoilt)[inflate.dp := content]
              else inflate == Own(content) && cur == old(cur) && spoilt == old(spoilt)
    {
      match inflate {
        case LinkTo(q) =>
          cur, spoilt := cur[q := content], spoilt[q := content];
          forall d ensures FileInv(plan, spoilt, Now(), d) { assert FileInv(plan, old(spoilt), old(Now()), d); }
        case _ => inflate := Own(content);
      }
    }

    /** `inflate_or_link_oldfile`. A compressed file is inflated into whatever is in
        the way; an uncompressed one is linked, which fails if anything is. */
    method InflateOrLinkOldFile(dp: string, compressed: bool, mayCrash: bool) returns (r: Outcome)
      requires Inv() && dp in plan.patches && dp in fwd && dp !in fin && compressed == (dp in plan.gz)
      modifies this`inflate, this`cur, this`spoilt
      ensures Inv() && (r.Crashed? ==> mayCrash)
      ensures r.Done? ==> dp in cur && lib.Inflated(compressed, cur[dp]).Some?
      ensures r.Done? ==> !inflate.Absent? && InflateContent() == lib.Inflated(compressed, cur[dp]).value
      ensures r.Done? && !old(inflate).LinkTo? ==> (inflate.LinkTo? <==> !compressed)
      ensures !r.Crashed? ==> (r.Failed? <==> old(Stops(dp, compressed)))
      ensures (if old(WritesOver(dp, compressed)) then Overwritten(old(spoilt), spoilt, old(inflate).dp)
               else cur == old(cur) && spoilt == old(spoilt))
      ensures dp in old(cur) ==> dp in cur && cur[dp] == old(cur[dp])
      ensures old(inflate).LinkTo? ==> inflate == old(inflate)
      ensures inflate.LinkTo? ==> inflate == old(inflate) || (r.Done? && inflate == LinkTo(dp) && !compressed)
    {
      if dp !in cur { return Failed; }
      if compressed {
        var partial: Bytes := *;
        WriteInflate(partial);
        if mayCrash { if * { return Crashed; } }
        var inflated := lib.Inflated(true, cur[dp]);
        if inflated.None? { return Failed; }
        WriteInflate(inflated.value);
      } else if !inflate.Absent? {
        return Failed;
      } else {
        inflate := LinkTo(dp);
      }
      return Done;
    }

    /** What is read from `inflate`. */
    function InflateContent(): Bytes
      requires !inflate.Absent? && (inflate.LinkTo? ==> inflate.dp in cur)
      reads this`inflate, this`cur
    {
      match inflate
      case Own(content) => content
      case LinkTo(q) => cur[q]
    }

    /** `do_patch`: `inflate` and the forward delta give `newpath`, which is written by
        the server's setting; how the delta is read goes by the new record. */
    method DoPatch(dp: string, compressed: bool, mayCrash: bool) returns (r: Outcome, ok: bool)
      requires Inv() && dp !in fin && dp in fwd && dp in plan.patches && !inflate.Absent?
      modifies this`tmp
      ensures Inv() && (r.Done? || (r.Crashed? && mayCrash))
      ensures var patched := lib.patch(InflateContent(), lib.ReadAs(compressed, fwd[dp]));
              r.Done? ==> ok == patched.Some? && (ok ==> dp in tmp && tmp[dp] == lib.Stored(serverGz, patched.value))
    {
      var basis := InflateContent();
      var partial: Bytes := *;
      tmp := tmp[dp := partial];
      r, ok := Done, false;
      if mayCrash { if * { r := Crashed; } }
      if r.Done? {
        var patched := lib.patch(basis, lib.ReadAs(compressed, fwd[dp]));
        if patched.Some? {
          tmp := tmp[dp := lib.Stored(serverGz, patched.value)];
          ok := true;
        }
      }
      assert FileInv(plan, spoilt, Now(), dp) by { assert FileInv(plan, spoilt, old(Now()), dp); }
      OneFileChanges(plan, spoilt, old(Now()), Now(), dp);
    }

    /** `gen_rev_delta`: sign the patched file, then make the delta back to the old one. */
    method GenRevDelta(dp: string, compressed: bool, mayCrash: bool) returns (r: Outcome)
      requires Inv() && dp in plan.patches && dp in cur && dp in tmp
      modifies this`rev
      ensures Inv() && (r.Done? || (r.Crashed? && mayCrash))
      ensures var delta := lib.delta(lib.ReadAs(compressed, tmp[dp]), lib.ReadAs(compressed, cur[dp]));
              r.Done? ==> dp in rev && rev[dp] == lib.Stored(serverGz, delta)
    {
      var partial: Bytes := *;
      rev := rev[dp := partial];
      r := Done;
      if mayCrash { if * { r := Crashed; } }
      if r.Done? {
        var delta := lib.delta(lib.ReadAs(compressed, tmp[dp]), lib.ReadAs(compressed, cur[dp]));
        rev := rev[dp := lib.Stored(serverGz, delta)];
      }
      assert FileInv(plan, spoilt, Now(), dp) by { assert FileInv(plan, spoilt, old(Now()), dp); }
      OneFileChanges(plan, spoilt, old(Now()), Now(), dp);
    }

    /** The patched file goes into place; then what it replaces is removed. */
    method Promote(dp: string, mayCrash: bool) returns (r: Outcome)
      requires Inv() && hardlinked == plan.hardlinked && dp !in fin && dp in fwd && dp in cur && dp in tmp
      requires dp in plan.patches && inflate.Absent?
      requires dp !in spoilt ==> Some(tmp[dp]) == plan.Goal(dp)
      requires dp !in spoilt && !hardlinked ==> dp in rev && rev[dp] == plan.Reverse(dp, tmp[dp])
      modifies this`fin, this`tmp, this`fwd, this`cur
      ensures Inv() && (r.Done? || (r.Crashed? && mayCrash))
      ensures fin == old(fin)[dp := old(tmp[dp])]
      ensures r.Done? && !hardlinked ==> dp !in cur
    {
      hide ShuffleInv, FileInv, Plan.Reverse, Plan.Goal;
      ghost var d := Now();
      PromotedOk(plan, spoilt, d, dp);
      fin, tmp := fin[dp := tmp[dp]], tmp - {dp};  // do_rename(newpath, finpath)
      r := Done;
      if mayCrash { if * { r := Crashed; } }
      if r.Done? { fwd := fwd - {dp}; }
      if mayCrash { if * { r := Crashed; } }
      if r.Done? && !hardlinked { cur := cur - {dp}; }
    }

    /** `do_patch`; what a delta that does not apply has written goes, then `inflate`. */
    method PatchAndClear(dp: string, compressed: bool, mayCrash: bool) returns (r: Outcome, ok: bool)
      requires Inv() && dp !in fin && dp in fwd && dp in plan.patches && !inflate.Absent?
      modifies this`tmp, this`inflate
      ensures Inv() && (r.Done? || (r.Crashed? && mayCrash))
      ensures r.Done? ==> inflate == Absent
      ensures r.Crashed? ==> inflate == Absent || inflate == old(inflate)
      ensures var patched := lib.patch(old(InflateContent()), lib.ReadAs(compressed, fwd[dp]));
              r.Done? ==> ok == patched.Some? && (ok ==> dp in tmp && tmp[dp] == lib.Stored(serverGz, patched.value))
    {
      hide ShuffleInv, Codec.ReadAs, Codec.Stored;
      r, ok := DoPatch(dp, compressed, mayCrash);
      if !r.Done? { return; }
      if !ok { RemoveNewPath(dp); }
      if mayCrash { if * { return Crashed, ok; } }
      inflate := Absent;
      if mayCrash { if * { return Crashed, ok; } }
    }

    /** The old file inflated or linked, the delta applied, `inflate` removed again; a
        delta that does not apply is logged as a deletion. */
    method ApplyDelta(sb: Sbuf, dp: string, compressed: bool, mayCrash: bool) returns (r: Outcome, ok: bool)
      requires Inv() && dp !in fin && dp in plan.patches && compressed == (dp in plan.gz)
      modifies this`inflate, this`cur, this`spoilt, this`tmp, this`deletions
      ensures Inv() && (r.Crashed? ==> mayCrash)
      ensures (if old(WritesOver(dp, compressed)) then Overwritten(old(spoilt), spoilt, old(inflate).dp)
               else spoilt == old(spoilt))
      ensures r.Done? ==> inflate == Absent && dp in cur && (ok ==> dp in tmp)
      ensures old(inflate).LinkTo? && old(inflate).dp !in spoilt ==> inflate == old(inflate)
      ensures (inflate.LinkTo? ==>
                 inflate == old(inflate) || (inflate == LinkTo(dp) && r.Crashed? && !compressed))
      ensures !r.Crashed? ==> (r.Failed? <==> old(Stops(dp, compressed)))
      ensures (r.Done? && dp !in spoilt ==>
                 ok == plan.Goal(dp).Some? && (ok ==> Some(tmp[dp]) == plan.Goal(dp)))
      ensures if r.Done? && !ok then deletions == old(deletions) + [sb] else deletions == old(deletions)
    {
      assert dp in fwd by { GoalOfDelta(plan, spoilt, Now(), dp); }
      hide ShuffleInv, Codec.Inflated, Codec.ReadAs, Codec.Stored, Plan.Goal, Plan.Patched, InflateOk, Overwritten;
      ok := false;
      r := InflateOrLinkOldFile(dp, compressed, mayCrash);
      if !r.Done? { return; }
      if mayCrash { if * { return Crashed, ok; } }
      GoalIsPatch(plan, spoilt, Now(), dp, InflateContent());
      r, ok := PatchAndClear(dp, compressed, mayCrash);
      if !r.Done? { return; }
      if !ok { deletions := deletions + [sb]; }
    }

    /** The branch of `jiggle` that has a forward delta to apply. */
    method PatchFile(sb: Sbuf, dp: string, compressed: bool, mayCrash: bool) returns (r: Outcome)
      requires Inv() && hardlinked == plan.hardlinked && dp !in fin && dp in plan.patches
      requires compressed == (dp in plan.gz)
      modifies this
      ensures Inv() && (r.Crashed? ==> mayCrash)
      ensures (if old(WritesOver(dp, compressed)) then Overwritten(old(spoilt), spoilt, old(inflate).dp)
               else spoilt == old(spoilt))
      ensures r.Done? ==> inflate == Absent
      ensures (inflate.LinkTo? ==>
                 inflate == old(inflate) || (inflate == LinkTo(dp) && r.Crashed? && !compressed))
      ensures old(inflate).LinkTo? && old(inflate).dp !in spoilt ==> inflate == old(inflate)
      ensures !r.Crashed? ==> (r.Failed? <==> old(Stops(dp, compressed)))
      ensures r.Done? ==> dp in fin || sb in deletions
      ensures r.Done? && dp !in spoilt ==> (if plan.Goal(dp).Some? then dp in fin else sb in deletions)
      ensures (deletions == old(deletions) ||
               (r.Done? && deletions == old(deletions) + [sb] && dp !in fin && (dp !in spoilt ==> plan.Goal(dp).None?)))
      ensures fin == old(fin) || (dp in fin && fin == old(fin)[dp := fin[dp]])
      ensures r.Done? && !hardlinked && dp in fin ==> dp !in cur && dp in rev
    {
      hide ShuffleInv, Plan.Goal, Shuffle.Stops, Overwritten;
      var ok;
      r, ok := ApplyDelta(sb, dp, compressed, mayCrash);
      if !r.Done? || !ok { return; }
      GoalOfDelta(plan, spoilt, Now(), dp);
      if !hardlinked {
        r := GenRevDelta(dp, compressed, mayCrash);
        if !r.Done? { return; }
        if mayCrash { if * { return Crashed; } }
      }
      r := Promote(dp, mayCrash);
    }

    /** `unlink(newpath)` after a patch that failed. */
    method RemoveNewPath(dp: string)
      requires Inv() && dp in plan.patches
      modifies this`tmp
      ensures Inv() && tmp == old(tmp) - {dp}
    {
      tmp := tmp - {dp};
      assert FileInv(plan, spoilt, Now(), dp) by { assert FileInv(plan, spoilt, old(Now()), dp); }
      OneFileChanges(plan, spoilt, old(Now()), Now(), dp);
    }

    /** A compressed delta that is still to be applied meets a link. */
    predicate WritesOver(dp: string, compressed: bool)
      reads this
    {
      dp in fwd && dp !in fin && compressed && dp in cur && inflate.LinkTo?
    }

    /** What stops the shuffle at a file. */
    predicate Stops(dp: string, compressed: bool)
      reads this
    {
      && dp !in fin
      && if dp in fwd then
           dp !in cur || if compressed then lib.Inflated(true, cur[dp]).None? else !inflate.Absent?
         else dp !in tmp && dp !in cur
    }

    /** `jiggle` for one manifest entry. */
    method JiggleFile(sb: Sbuf, dp: string, compressed: bool, mayCrash: bool) returns (r: Outcome)
      requires Inv() && (hardlinked == plan.hardlinked || dp in fin)
      requires dp in plan.patches ==> compressed == (dp in plan.gz)
      modifies this
      ensures Inv() && (r.Crashed? ==> mayCrash)
      // An old file is written over exactly if a compressed delta meets a link.
      ensures (if old(WritesOver(dp, compressed)) then Overwritten(old(spoilt), spoilt, old(inflate).dp)
               else spoilt == old(spoilt))
      ensures !r.Crashed? ==> (r.Failed? <==> old(Stops(dp, compressed)))
      ensures r.Done? ==> dp in fin || sb in deletions
      ensures r.Done? && dp !in spoilt ==> (if plan.Goal(dp).Some? then dp in fin else sb in deletions)
      ensures (deletions == old(deletions) ||
               (r.Done? && deletions == old(deletions) + [sb] && dp !in fin && (dp !in spoilt ==> plan.Goal(dp).None?)))
      ensures fin == old(fin) || (dp in fin && fin == old(fin)[dp := fin[dp]])
      ensures r.Done? ==> inflate == Absent || inflate == old(inflate)
      ensures (inflate.LinkTo? ==>
                 inflate == old(inflate) ||
                 (inflate == LinkTo(dp) && r.Crashed? && dp in plan.patches && dp !in old(fin) && !compressed))
      // A link stays until it is written through.
      ensures old(inflate).LinkTo? && old(inflate).dp !in spoilt ==> inflate == old(inflate)
      ensures (dp in old(fin) ==>
                 && r.Done? && cur == old(cur) && rev == old(rev) && fin == old(fin)
                 && inflate == old(inflate) && deletions == old(deletions))
      // An uninterrupted delta or unchanged file leaves no second copy behind.
      ensures (r.Done? && !hardlinked && dp in fin && dp !in old(fin) &&
               (dp in plan.patches || dp !in plan.received) ==>
                 dp !in cur && (dp in rev <==> dp in plan.patches))
    {
      assert FileInv(plan, spoilt, Now(), dp);
      if dp in fin {
        // An interrupted shuffle did this file already.
        if dp in fwd { RemoveForwardDelta(dp); }
        r := Done;
      } else if dp in fwd {
        r := PatchFile(sb, dp, compressed, mayCrash);
      } else if dp in tmp {
        UseNewFile(dp);
        r := Done;
      } else if dp in cur {
        r := UseOldFile(dp, mayCrash);
      } else {
        r := Failed;
      }
    }

    /** The forward delta of a finished file is no longer needed. */
    method RemoveForwardDelta(dp: string)
      requires Inv() && dp in fin
      modifies this`fwd
      ensures Inv() && fwd == old(fwd) - {dp}
    {
      fwd := fwd - {dp};
      assert FileInv(plan, spoilt, Now(), dp) by { assert FileInv(plan, spoilt, old(Now()), dp); }
      OneFileChanges(plan, spoilt, old(Now()), Now(), dp);
    }

    /** Use the file that was received whole. */
    method UseNewFile(dp: string)
      requires Inv() && dp !in fin && dp !in fwd && dp in tmp
      modifies this`fin, this`tmp
      ensures Inv() && dp in fin && fin == old(fin)[dp := fin[dp]] && plan.Goal(dp) == Some(fin[dp])
    {
      hide ShuffleInv, FileInv, Plan.Goal;
      NewFileOk(plan, spoilt, Now(), dp);
      fin, tmp := fin[dp := tmp[dp]], tmp - {dp};
    }

    /** Use the unchanged old file: link it, then drop the old link. */
    method UseOldFile(dp: string, mayCrash: bool) returns (r: Outcome)
      requires Inv() && hardlinked == plan.hardlinked && dp !in fin && dp !in fwd && dp !in tmp && dp in cur
      modifies this`fin, this`cur
      ensures Inv() && (r.Done? || (r.Crashed? && mayCrash))
      ensures dp in fin && fin == old(fin)[dp := fin[dp]] && (dp !in spoilt ==> plan.Goal(dp) == Some(fin[dp]))
      ensures r.Done? && !hardlinked ==> dp !in cur
    {
      hide ShuffleInv, FileInv, Plan.Goal;
      OldFileOk(plan, spoilt, Now(), dp);
      fin := fin[dp := cur[dp]];                 // do_link
      var crash: bool := *;
      r := if mayCrash && crash then Crashed else Done;
      if r.Done? && !hardlinked { cur := cur - {dp}; }
    }
  }
}
