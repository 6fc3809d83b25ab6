/** The store as the server works on it: finishing a backup and removing old ones
    (src/server.c, src/backup_phase4_server.c, src/current_backups_server.c). */
module BackupStore {
  import opened Wrappers
  import opened Librsync
  import opened Records
  import opened Jiggle
  import opened ShuffleRun
  import opened Store
  import opened Phase4
  import opened Retention
  import opened RetentionRules

  /** `compression` is whether there is any: by it the server stores what it makes. */
  datatype Config = Config(hardlinkedArchive: bool, compression: bool, keep: seq<nat>)

  /** The `keep` values of `finalise_config`: none zero, their product in bounds,
      the last one raised by one if there are several. The product is kept in an
      unsigned 64-bit integer, so that a negative value wraps to a huge one. */
  method FinaliseKeep(flags: seq<int>) returns (keep: Option<seq<nat>>)
    requires forall i :: 0 <= i < |flags| ==> -0x8000_0000 <= flags[i] < 0x8000_0000
    ensures keep.Some? <==> InBounds(flags)
    ensures keep.Some? ==> |keep.value| == |flags| && forall i :: 0 <= i < |flags| ==>
              keep.value[i] == flags[i] + if |flags| > 1 && i == |flags| - 1 then 1 else 0
    ensures keep.Some? && flags != [] ==> KeepOk(keep.value)
  {
    var mult := 1;
    var k: seq<nat> := [];
    assert Multiply(flags[..0]) == 1;
    hide Times, Multiply, KeepOk;
    for i := 0 to |flags|
      invariant |k| == i && forall j :: 0 <= j < i ==> k[j] == flags[j] >= 1
      invariant 1 <= mult <= MAX_KEEP && mult == Multiply(flags[..i])
      invariant forall j :: 0 <= j <= i ==> Multiply(flags[..j]) <= MAX_KEEP
    {
      MultiplyMore(flags, i);
      if flags[i] == 0 { return None; }
      var wide := WrappedProduct(mult, flags[i]);
      if wide > MAX_KEEP {
        assert flags[i] < 1 || Multiply(flags[..i + 1]) > MAX_KEEP;
        return None;
      }
      mult := wide;
      k := k + [flags[i]];
    }
    assert InBounds(flags);
    if k != [] { RaisedIsOk(k); }
    if |k| > 1 { k := k[|k| - 1 := k[|k| - 1] + 1]; }
    keep := Some(k);
  }

  const MAX_KEEP: nat := 52560000

  function Times(a: int, b: int): int { a * b }

  function Multiply(flags: seq<int>): int {
    if flags == [] then 1 else Times(Multiply(flags[..|flags| - 1]), flags[|flags| - 1])
  }

  lemma MultiplyMore(flags: seq<int>, i: nat)
    requires i < |flags|
    ensures Multiply(flags[..i + 1]) == Times(Multiply(flags[..i]), flags[i])
  {
    assert flags[..i + 1][..i] == flags[..i];
  }

  lemma RaisedIsOk(k: seq<nat>)
    requires k != [] && forall j :: 0 <= j < |k| ==> k[j] >= 1
    ensures KeepOk(if |k| > 1 then k[|k| - 1 := k[|k| - 1] + 1] else k)
  {
  }

  ghost predicate InBounds(flags: seq<int>) {
    (forall i :: 0 <= i < |flags| ==> flags[i] >= 1) &&
    forall i :: 0 <= i <= |flags| ==> Multiply(flags[..i]) <= MAX_KEEP
  }

  /** `mult*=flag` on an `unsigned long long`: a negative flag wraps out of bounds. */
  method WrappedProduct(mult: nat, flag: int) returns (r: nat)
    requires 1 <= mult <= MAX_KEEP && flag != 0 && -0x8000_0000 <= flag < 0x8000_0000
    ensures flag > 0 ==> 1 <= r == Times(mult, flag)
    ensures flag < 0 ==> r > MAX_KEEP
  {
    var p := mult * flag;
    if flag > 0 {
      assert 0 < p <= MAX_KEEP * 0x8000_0000 by { MulBounds(mult, flag); }
    } else {
      assert 0 < mult * -flag <= MAX_KEEP * 0x8000_0000 by { MulBounds(mult, -flag); }
      assert p == -(mult * -flag);
    }
    r := p % 0x1_0000_0000_0000_0000;
  }

  lemma MulBounds(m: nat, f: nat)
    requires 1 <= m <= MAX_KEEP && 1 <= f <= 0x8000_0000
    ensures 0 < m * f <= MAX_KEEP * 0x8000_0000
  {
    MulMono(m, 1, f);
    MulMono(m, f, 0x8000_0000);
    MulMono(0x8000_0000, m, MAX_KEEP);
  }

  /** `do_hardlinked_archive` for backup number `bno`. */
  function DoHardlinkedArchive(conf: Config, bno: nat): bool
    requires bno >= 2 && KeepOk(conf.keep)
  {
    conf.hardlinkedArchive || (|conf.keep| > 1 && (bno - 2) % conf.keep[0] == 0)
  }

  /** The data of the newest backup. */
  function PreviousData(vs: seq<Version>): Dir {
    if vs == [] then map[] else vs[|vs| - 1].data
  }

  /** The data paths whose record in the new manifest says they are compressed, and
      those of old files that are not in it and stay what they were. */
  function CompressedIn(m: seq<Sbuf>, wasGz: set<string>): set<string> {
    (set e | e in m && e.datapth.Some? && Gz(e) :: e.datapth.value) +
    (wasGz - set e | e in m && e.datapth.Some? :: e.datapth.value)
  }

  /** Records of one data path agree on its compression, and deltas are of plain
      files only. */
  ghost predicate ManifestOk(m: seq<Sbuf>, patches: Dir) {
    && (forall e, f :: e in m && f in m && e.datapth.Some? && e.datapth == f.datapth ==> Gz(e) == Gz(f))
    && forall e :: e in m && e.datapth.Some? && e.datapth.value in patches ==> !SentAsIs(e.cmd)
  }

  /** What phase 4 of the next backup has to do. */
  function NextJob(lib: Codec, conf: Config, vs: seq<Version>, p: Platform, m: seq<Sbuf>, received: Dir,
                   patches: Dir): Job
    requires KeepOk(conf.keep) && (vs != [] ==> TopIndex(vs) >= 1)
  {
    var wasGz := if vs == [] then {} else vs[|vs| - 1].gz;
    Job(lib, conf.compression, PreviousData(vs), wasGz, received, patches, CompressedIn(m, wasGz), p, m,
        vs != [] && DoHardlinkedArchive(conf, TopIndex(vs) + 1))
  }

  lemma NextJobFlags(lib: Codec, conf: Config, vs: seq<Version>, p: Platform, m: seq<Sbuf>, received: Dir, patches: Dir)
    requires KeepOk(conf.keep) && (vs != [] ==> TopIndex(vs) >= 1) && ManifestOk(m, patches)
    ensures var job := NextJob(lib, conf, vs, p, m, received, patches);
            FlagsAre(m, job.gz) && FlagsOk(job.Planned(false), m)
  {
    var job := NextJob(lib, conf, vs, p, m, received, patches);
    forall e | e in m && e.datapth.Some? ensures Gz(e) <==> e.datapth.value in job.gz {
    }
  }

  /** The newest backup is what was intended: it lists the records that are not
      lost, and holds for each what it should. */
  ghost predicate Intended(vs: seq<Version>, manifest: seq<Sbuf>, plan: Plan) {
    vs != [] &&
    var v := vs[|vs| - 1];
    && Sorted(v.manifest) && (forall e :: e in v.manifest <==> e in manifest && !Lost(plan, e))
    && v.held == v.data && FromManifest(v.data, v.manifest)
    && forall e :: e in v.manifest && e.datapth.Some? ==>
         e.datapth.value in v.held && plan.Goal(e.datapth.value) == Some(v.held[e.datapth.value])
  }

  lemma FirstIsDone(lib: Codec, m: seq<Sbuf>, received: Dir, job: Job)
    requires lib.Valid() && Covered(m, received) && FromManifest(received, m) && Sorted(m) && FlagsAre(m, job.gz)
    requires job.was == map[] && job.received == received && job.patches == map[]
    ensures var vs := [Version(1, m, received, map[], false, received, job.gz)];
            && Happens(lib, First(m, received, job.gz), [], vs) && TopIndex(vs) >= 1
            && Intended(vs, m, job.Planned(false))
  {
  }

  /** The store with what phase 4 left on disk as its newest two backups. */
  function AsOnDisk(vs: seq<Version>, job: Job, d: Disk): seq<Version>
    requires vs != [] && d.prev.Some?
  {
    Finished(vs, d.manifest, d.prev.value.hardlinked, d.Around(d.prev.value), job.gz)
  }

  /** The step that makes. */
  function StepOf(job: Job, d: Disk): Event
    requires d.prev.Some?
  {
    Next(d.manifest, job.Planned(d.prev.value.hardlinked), d.Around(d.prev.value))
  }

  /** What is in place is what was intended, if nothing was written over. */
  lemma DiskIsIntended(vs: seq<Version>, job: Job, d: Disk)
    requires vs != [] && DiskOk(job, d) && d.prev.Some? && AllIn(d) && ListsKept(job, d) && d.spoilt == map[]
    ensures Intended(AsOnDisk(vs, job, d), job.scanned, job.Planned(false))
  {
    var plan := job.Planned(false);
    forall e | e in d.manifest && e.datapth.Some? ensures plan.Goal(e.datapth.value) == Some(d.fin[e.datapth.value]) {
      assert FileInv(plan, d.spoilt, d.Around(d.prev.value), e.datapth.value);
    }
    forall dp | dp in d.fin ensures exists e :: e in d.manifest && e.datapth == Some(dp) {
      assert FileInv(plan, d.spoilt, d.Around(d.prev.value), dp);
      var e :| e in job.scanned && e.datapth == Some(dp);
      assert e in d.manifest;
    }
  }

  /** No old file was written over, and each can be turned back to. */
  ghost predicate StepIsSound(job: Job, d: Disk)
    requires d.prev.Some?
  {
    d.spoilt == map[] && (AllSound(job) || d.prev.value.hardlinked)
  }

  lemma OneMore(vs: seq<Version>, job: Job, d: Disk)
    requires vs != [] && d.prev.Some?
    ensures var vs' := AsOnDisk(vs, job, d);
            |vs'| == |vs| + 1 && TopIndex(vs') == TopIndex(vs) + 1 && IsNewest(vs'[|vs|]) && vs'[|vs|].gz == job.gz
  {
  }

  lemma SoundStep(lib: Codec, vs: seq<Version>, job: Job, d: Disk)
    requires StoreOk(lib, vs) && vs != [] && job.lib == lib && JobFits(job, vs[|vs| - 1])
    requires DiskOk(job, d) && d.prev.Some? && AllIn(d) && StepIsSound(job, d) && FlagsAre(job.scanned, job.gz)
    ensures Honest(job, d.prev.value) <==> StoreOk(lib, AsOnDisk(vs, job, d))
    ensures Honest(job, d.prev.value) ==> Happens(lib, StepOf(job, d), vs, AsOnDisk(vs, job, d))
  {
    hide StoreOk, Happens;
    GoodStepExactly(job, d, vs);
  }

  lemma RunLength(lib: Codec, past: seq<Event>, trace: seq<seq<Version>>)
    requires Run(lib, past, trace)
    ensures |trace| == |past| + 1
  {
  }

  lemma Grown(lib: Codec, past: seq<Event>, trace: seq<seq<Version>>, ev: Event, vs: seq<Version>)
    requires Run(lib, past, trace) && Happens(lib, ev, trace[|past|], vs)
    ensures Run(lib, past + [ev], trace + [vs]) && |trace| == |past| + 1
    ensures StoreOk(lib, vs)
  {
    hide Happens;
    StepsGoOn(lib, past, trace, [ev], [trace[|past|], vs]);
    assert [trace[|past|], vs][1..] == [vs];
    RunKeepsStore(lib, past + [ev], trace + [vs], |past| + 1);
  }

  class BackupStore {
    const lib: Codec
    const conf: Config
    var vs: seq<Version>
    ghost var past: seq<Event>            // what happened to it
    ghost var trace: seq<seq<Version>>    // and what it was in between

    ghost predicate Valid()
      reads this
    {
      && lib.Valid() && KeepOk(conf.keep)
      && Run(lib, past, trace) && trace[|past|] == vs && StoreOk(lib, vs)
      && (vs != [] ==> TopIndex(vs) >= 1 && IsNewest(vs[|vs| - 1]))
    }

    constructor (lib: Codec, conf: Config)
      requires lib.Valid() && KeepOk(conf.keep)
      ensures Valid() && vs == [] && this.lib == lib && this.conf == conf
    {
      this.lib, this.conf, vs := lib, conf, [];
      past, trace := [], [[]];
    }

    /** Phase 4 of a backup whose data has all arrived, tried again however often it is
        killed or fails, beside whatever a killed retention pass left. What is then on
        disk is `d`; the last attempt started from `from`. If it is done, it is a step
        of the store unless an old file was written over, or the mark is false: with
        one crash at most it never is. */
    method FinishBackup(p: Platform, manifest: seq<Sbuf>, received: Dir, patches: Dir, leftover: Option<Tree>,
                        attempts: nat, crashes: nat)
      returns (r: Outcome, ghost d: Disk, ghost from: Disk)
      requires Valid() && Sorted(manifest) && AllSent(p, manifest) && ManifestOk(manifest, patches) && attempts > 0
      requires vs == [] ==> Covered(manifest, received) && FromManifest(received, manifest) && patches == map[]
      modifies this
      ensures var job := NextJob(lib, conf, old(vs), p, manifest, received, patches);
              && (old(vs) == [] ==> (r.Done? || crashes > 0) && d.spoilt == map[])
              && (old(vs) == [] && r.Done? ==> Valid() && Intended(vs, manifest, job.Planned(false)))
              && (old(vs) != [] ==> DiskOk(job, d) && Finishes(job, leftover, crashes, r, d, from))
              && (r.Done? && old(vs) != [] ==> vs == AsOnDisk(old(vs), job, d))
              && (r.Done? && old(vs) != [] && d.spoilt == map[] ==> Intended(vs, manifest, job.Planned(false)))
              && (r.Done? && old(vs) != [] && StepIsSound(job, d) ==> (Valid() <==> MarkIsTrue(job, from)))
      ensures !r.Done? ==> Valid() && vs == old(vs)
      ensures r.Done? ==> vs != [] && vs[|vs| - 1].gz == NextJob(lib, conf, old(vs), p, manifest, received, patches).gz
      ensures r.Done? && Valid() ==> |vs| == |old(vs)| + 1 && |past| == |old(past)| + 1 && old(trace) <= trace
    {
      hide StoreOk, Happens, Finished, ShuffleInv, Findable, Covered, Intended, Sorted, AllSent, ManifestOk, Run;
      hide FromManifest;
      hide DoHardlinkedArchive, KeepOk, CompressedIn, DiskOk, Careful, Hindered, ListsKept, FlagsOk, FlagsAre;
      var job := NextJob(lib, conf, vs, p, manifest, received, patches);
      NextJobFlags(lib, conf, vs, p, manifest, received, patches);
      d, from := job.Start(leftover), job.Start(leftover);
      if vs == [] {
        var first;
        r, first := FinishFirst(received, attempts, crashes);
        if !r.Done? { return; }
        FirstIsDone(lib, manifest, received, job);
        ghost var ev := First(manifest, received, job.gz);
        vs := [Version(1, manifest, first.data.value, map[], false, first.data.value, job.gz)];
        Grown(lib, past, trace, ev, vs);
        past, trace := past + [ev], trace + [vs];
        return;
      }
      ghost var before := vs;
      var f := new Finisher(job, leftover);
      r, from := f.Finish(attempts, crashes);
      d := f.disk;
      if !r.Done? { return; }
      vs := Finished(vs, f.disk.manifest, f.disk.prev.value.hardlinked, f.disk.Around(f.disk.prev.value), job.gz);
      OneMore(before, job, d);
      assert |trace| == |past| + 1 by { RunLength(lib, past, trace); }
      if d.spoilt == map[] { DiskIsIntended(before, job, d); }
      if StepIsSound(job, d) {
        SoundStep(lib, before, job, d);
        if Honest(job, d.prev.value) {
          Grown(lib, past, trace, StepOf(job, d), vs);
          past, trace := past + [StepOf(job, d)], trace + [vs];
        }
      }
    }

    /** `remove_old_backups`: what stays is untouched, and all that could go is gone. */
    method RemoveOld()
      requires Valid()
      modifies this
      ensures Valid() && Remains(old(vs), vs) && FixedPoint(conf.keep, vs)
      ensures old(past) <= past && old(trace) <= trace && forall ev :: ev in past[|old(past)|..] ==> ev.Pass?
    {
      ghost var evs, t;
      vs, evs, t := RemoveOldBackups(lib, vs, conf.keep);
      StepsGoOn(lib, past, trace, evs, t);
      past, trace := past + evs, trace + t[1..];
      assert past[|old(past)|..] == evs;
      assert vs != [] ==> vs[0] in old(vs);
    }
  }

  /** The newest backup stands by itself, and no mark is on it. */
  predicate IsNewest(v: Version) { v.held == v.data && v.delta == map[] && !v.hardlinked }

  /** How `Phase4.Finisher.Finish` ends. */
  ghost predicate Finishes(job: Job, leftover: Option<Tree>, crashes: nat, r: Outcome, d: Disk, from: Disk) {
    && (r.Done? <==> d.current) && (r.Done? ==> d.prev.Some? && AllIn(d) && ListsKept(job, d))
    && (Careful(job.Planned(false), job.scanned) || crashes == 0 ==> d.spoilt == map[])
    && (r.Done? && (crashes <= 1 || !job.wantsHardlinks) ==> MarkIsTrue(job, from))
    && (r.Failed? ==> Hindered(job, from) || d.spoilt != map[]) && (r.Crashed? ==> crashes > 0)
    && (r.Done? && d.spoilt == map[] ==> Findable(job.Planned(false), job.scanned))
    && (crashes == 0 && leftover.None? ==> (r.Done? <==> Findable(job.Planned(false), job.scanned)))
  }
}
