/** The directories around a shuffle: the duplicate that is shuffled in place of
    the previous backup, and the renames that put it and the new backup into
    place (`backup_phase4_server` in src/backup_phase4_server.c). */
module Phase4 {
  import opened Wrappers
  import opened Librsync
  import opened Records
  import opened Deletions
  import opened Jiggle
  import opened ShuffleRun
  import opened Store

  /** A backup's directory, with or without the file called `hardlinked`. */
  datatype Tree = Tree(data: Dir, delta: Dir, hardlinked: bool)

  /** What is on disk. `prev` is the directory that the symlink `current` names;
      the new backup's own directory holds `currentdup`, `currentdup.tmp` and
      what the shuffle works with. */
  datatype Disk = Disk(
    prev: Option<Tree>,
    deleteme: Option<Tree>,
    dupTmp: Option<Tree>,
    dup: Option<Tree>,
    tmp: Dir, fwd: Dir, fin: Dir,
    inflate: Inflate,
    spoilt: Dir,               // old files written over through `inflate`
    deletions: seq<Sbuf>,
    manifest: seq<Sbuf>,
    current: bool)             // `finishing` has become `current`
  {
    function Duplicated(): Disk { this.(dup := prev, dupTmp := None) }

    function Marked(hardlinked: bool): Disk
      requires dup.Some?
    {
      this.(dup := Some(dup.value.(hardlinked := hardlinked)))
    }

    function SetAside(): Disk { this.(deleteme := prev, prev := None) }

    function Swapped(): Disk { this.(prev := dup, dup := None) }

    function Around(t: Tree): Dirs { Dirs(t.data, t.delta, tmp, fwd, fin) }
  }

  /** What there is to do: the previous backup's data, what was received, the new
      manifest, and what `do_hardlinked_archive` answers for this backup. */
  datatype Job = Job(lib: Codec, serverGz: bool, was: Dir, wasGz: set<string>, received: Dir, patches: Dir,
                     gz: set<string>, platform: Platform, scanned: seq<Sbuf>, wantsHardlinks: bool)
  {
    function Planned(hardlinked: bool): Plan {
      Plan(lib, hardlinked, serverGz, was, wasGz, received, patches, gz)
    }

    ghost predicate Ok() {
      lib.Valid() && Sorted(scanned) && AllSent(platform, scanned) && FlagsOk(Planned(false), scanned)
    }

    /** What the first attempt finds; `deleteme` may be left by a retention pass that
        was killed. */
    function Start(leftover: Option<Tree>): Disk {
      Disk(Some(Tree(was, map[], false)), leftover, None, None, received, patches, map[], Absent, map[], [], scanned,
           false)
    }
  }

  /** The files of a directory are one with those of its duplicate: what is written
      over in one is written over in the other. */
  function WrittenOver(data: Dir, spoilt: Dir): Dir {
    map dp | dp in data :: if dp in spoilt then spoilt[dp] else data[dp]
  }

  predicate Untouched(job: Job, d: Disk, t: Tree) { t == Tree(WrittenOver(job.was, d.spoilt), map[], false) }

  /** A directory marked as hardlinked needs nothing from the newer backup. */
  predicate Honest(job: Job, t: Tree) { t.hardlinked ==> t.data.Keys == job.was.Keys }

  /** Every old file can be had from `t` and the new data. */
  ghost predicate Keeps(job: Job, d: Disk, t: Tree) {
    ShuffleInv(job.Planned(false), d.spoilt, d.Around(t))
  }

  /** The directory that the next shuffle works on, or would be duplicated. */
  function Shuffled(d: Disk): Option<Tree> { if d.dup.Some? then d.dup else d.prev }

  /** What there is at `inflate` is no link to anything but an old file that waits
      for its delta; nothing is written over if no deltas clash. */
  ghost predicate LinksOk(job: Job, d: Disk) {
    var plan := job.Planned(false);
    && (Shuffled(d).Some? ==> InflateOk(plan, d.inflate, d.Around(Shuffled(d).value)))
    && (Careful(plan, job.scanned) ==> d.spoilt == map[] && LinkBehind(plan, d.fin, job.scanned, d.inflate))
  }

  /** What the shuffle itself keeps beside the files. */
  ghost predicate BooksOk(job: Job, d: Disk) {
    var plan := job.Planned(false);
    && job.Ok() && Trimmed(plan, d.spoilt, job.scanned, d.manifest) && AllSent(job.platform, d.manifest)
    && LogOk(d.fin, d.manifest, d.deletions) && LogTrue(plan, d.spoilt, d.deletions) && FromManifest(d.fin, job.scanned)
  }

  ghost predicate AllIn(d: Disk) { Covered(d.manifest, d.fin) }

  /** What holds at every moment of every attempt. */
  ghost predicate DiskOk(job: Job, d: Disk) {
    && BooksOk(job, d) && LinksOk(job, d)
    && (d.dup.Some? ==> Keeps(job, d, d.dup.value) && (Honest(job, d.dup.value) || AllIn(d)))
    && (d.prev.Some? ==> Keeps(job, d, d.prev.value) && (Untouched(job, d, d.prev.value) || AllIn(d)))
    && (d.dup.None? ==> d.prev.Some?)
    && (d.prev.None? ==> d.deleteme.Some? && Keeps(job, d, d.deleteme.value) && AllIn(d))
  }

  // ----- What that means for the previous backup -----

  /** The two newest backups as restore sees them. */
  function Pair(job: Job, t: Tree, d: Disk): seq<Version> {
    [Version(1, [], t.data, t.delta, t.hardlinked, map[], job.wasGz),
     Version(2, d.manifest, d.fin, map[], false, map[], job.gz)]
  }

  function FromPair(job: Job, t: Tree, d: Disk, dp: string): Option<Got> {
    Restore(job.lib, Pair(job, t, d), 0, dp, dp in job.wasGz)
  }

  /** Every file of the previous backup restores from `t`, the new data beside it;
      but what was written over is lost. */
  ghost predicate Restores(job: Job, d: Disk, t: Tree) {
    forall dp :: dp in job.was && (dp in t.data || job.Planned(false).Sound(dp)) ==>
      var got := FromPair(job, t, d, dp);
      if dp in d.spoilt then dp in t.data ==> got == Some(Raw(d.spoilt[dp]))
      else got.Some? && Gives(job.lib, got.value, job.was[dp], dp in job.wasGz)
  }

  lemma KeepsRestores(job: Job, d: Disk, t: Tree)
    requires Keeps(job, d, t)
    ensures Restores(job, d, t)
  {
    forall dp | dp in job.was && (dp in t.data || job.Planned(false).Sound(dp))
      ensures var got := FromPair(job, t, d, dp);
              if dp in d.spoilt then dp in t.data ==> got == Some(Raw(d.spoilt[dp]))
              else got.Some? && Gives(job.lib, got.value, job.was[dp], dp in job.wasGz)
    {
      OneRestores(job, d, t, dp);
    }
  }

  lemma OneRestores(job: Job, d: Disk, t: Tree, dp: string)
    requires Keeps(job, d, t) && dp in job.was && (dp in t.data || job.Planned(false).Sound(dp))
    ensures var got := FromPair(job, t, d, dp);
            if dp in d.spoilt then dp in t.data ==> got == Some(Raw(d.spoilt[dp]))
            else got.Some? && Gives(job.lib, got.value, job.was[dp], dp in job.wasGz)
  {
    assert FileInv(job.Planned(false), d.spoilt, d.Around(t), dp);
    if dp !in t.data && dp !in d.spoilt {
      var vs, gz := Pair(job, t, d), dp in job.wasGz;
      assert Restore(job.lib, vs, 1, dp, gz) == Some(Raw(d.fin[dp]));
      assert TurnsBack(job.Planned(false), d.Around(t), dp);
    }
  }

  /** At every moment the previous backup is whole: untouched where it was until
      all new data is in place, then in its own directory, in `deleteme` or in
      the shuffled duplicate, with the new data. Only what was written over is not
      safe in any of them, and without a clash of deltas there is no such file. */
  lemma PreviousBackupIsSafe(job: Job, d: Disk)
    requires DiskOk(job, d)
    ensures !AllIn(d) ==> d.prev.Some? && Untouched(job, d, d.prev.value)
    ensures d.prev.Some? ==> Restores(job, d, d.prev.value)
    ensures (d.prev.None? ==>
               d.deleteme.Some? && Restores(job, d, d.deleteme.value) && d.dup.Some? && Restores(job, d, d.dup.value))
    ensures Careful(job.Planned(false), job.scanned) ==> d.spoilt == map[]
  {
    if d.prev.Some? {
      KeepsRestores(job, d, d.prev.value);
    } else {
      KeepsRestores(job, d, d.deleteme.value);
      KeepsRestores(job, d, d.dup.value);
    }
  }

  // ----- One mode or the other -----

  lemma StartIsOk(job: Job, leftover: Option<Tree>)
    requires job.Ok()
    ensures DiskOk(job, job.Start(leftover))
  {
    assert WrittenOver(job.was, map[]) == job.was;
  }

  /** A backup that nothing was taken from yet suits either mode. */
  lemma WholeSuits(job: Job, d: Disk, t: Tree, hardlinked: bool)
    requires Keeps(job, d, t) && t.data.Keys == job.was.Keys
    ensures ShuffleInv(job.Planned(hardlinked), d.spoilt, d.Around(t))
  {
    var p, q := job.Planned(hardlinked), job.Planned(false);
    forall dp ensures FileInv(p, d.spoilt, d.Around(t), dp) {
      assert FileInv(q, d.spoilt, d.Around(t), dp) && p.Goal(dp) == q.Goal(dp);
    }
  }

  /** Hardlinked mode keeps more: the old directory stays whole. */
  lemma HardlinkedKeepsWhole(job: Job, spoilt: Dir, dirs: Dirs)
    requires ShuffleInv(job.Planned(true), spoilt, dirs)
    ensures ShuffleInv(job.Planned(false), spoilt, dirs) && dirs.cur.Keys == job.was.Keys
  {
    var p, q := job.Planned(true), job.Planned(false);
    forall dp ensures FileInv(q, spoilt, dirs, dp) && (dp in dirs.cur <==> dp in job.was) {
      assert FileInv(p, spoilt, dirs, dp) && p.Goal(dp) == q.Goal(dp);
    }
  }

  /** The directory that is not shuffled stays as it was, but for what is written
      over; once all is in place nothing is any more. */
  lemma OtherKept(job: Job, d: Disk, d': Disk, t: Tree, t': Tree)
    requires Keeps(job, d, t) && Keeps(job, d', t') && d.spoilt.Keys <= d'.spoilt.Keys
    requires (d'.fin == d.fin && d'.spoilt == d.spoilt) || Untouched(job, d, t)
    ensures Keeps(job, d', t.(data := WrittenOver(t.data, d'.spoilt)))
    ensures Untouched(job, d, t) ==> Untouched(job, d', t.(data := WrittenOver(t.data, d'.spoilt)))
    ensures d'.spoilt == d.spoilt ==> WrittenOver(t.data, d'.spoilt) == t.data
  {
    var u := t.(data := WrittenOver(t.data, d'.spoilt));
    if d'.spoilt == d.spoilt { NothingNew(job, d, t); }
    if Untouched(job, d, t) { assert u.data == WrittenOver(job.was, d'.spoilt); }
    forall dp ensures FileInv(job.Planned(false), d'.spoilt, d'.Around(u), dp) {
      OtherFileKept(job, d, d', t, t', dp);
    }
    hide FileInv;
  }

  lemma NothingNew(job: Job, d: Disk, t: Tree)
    requires Keeps(job, d, t)
    ensures WrittenOver(t.data, d.spoilt) == t.data
  {
    forall dp | dp in t.data ensures WrittenOver(t.data, d.spoilt)[dp] == t.data[dp] {
      assert FileInv(job.Planned(false), d.spoilt, d.Around(t), dp);
    }
  }

  lemma OtherFileKept(job: Job, d: Disk, d': Disk, t: Tree, t': Tree, dp: string)
    requires Keeps(job, d, t) && Keeps(job, d', t') && d.spoilt.Keys <= d'.spoilt.Keys
    requires (d'.fin == d.fin && d'.spoilt == d.spoilt) || Untouched(job, d, t)
    ensures FileInv(job.Planned(false), d'.spoilt, d'.Around(t.(data := WrittenOver(t.data, d'.spoilt))), dp)
  {
    assert FileInv(job.Planned(false), d.spoilt, d.Around(t), dp);
    assert FileInv(job.Planned(false), d'.spoilt, d'.Around(t'), dp);
    hide Plan.Goal, Plan.Sound, ShuffleInv;
  }

  // ----- The renames -----

  /** The directories move, what is in them does not. */
  predicate SameFiles(d: Disk, d': Disk) {
    && d'.tmp == d.tmp && d'.fwd == d.fwd && d'.fin == d.fin && d'.inflate == d.inflate && d'.spoilt == d.spoilt
    && d'.deletions == d.deletions && d'.manifest == d.manifest
  }

  lemma SameFilesKept(job: Job, d: Disk, d': Disk)
    requires SameFiles(d, d')
    ensures (BooksOk(job, d) <==> BooksOk(job, d')) && (AllIn(d) <==> AllIn(d'))
    ensures forall t :: (Keeps(job, d, t) <==> Keeps(job, d', t)) && (Untouched(job, d, t) <==> Untouched(job, d', t))
    ensures Shuffled(d) == Shuffled(d') ==> (LinksOk(job, d) <==> LinksOk(job, d'))
  {
    assert forall t :: d.Around(t) == d'.Around(t);
    hide ShuffleInv, Sorted, Trimmed, AllSent, LogOk, LogTrue, FromManifest, Covered, InflateOk, Careful, LinkBehind;
    hide Job.Ok;
  }

  lemma DuplicatedOk(job: Job, d: Disk)
    requires DiskOk(job, d) && d.dup.None?
    ensures DiskOk(job, d.Duplicated()) && forall t :: DiskOk(job, d.(dupTmp := t))
  {
    hide BooksOk, LinksOk, AllIn, Keeps, Untouched, Honest, Shuffled;
    assert Shuffled(d) == Shuffled(d.Duplicated()) == d.prev by { WhatIsShuffled(d); WhatIsShuffled(d.Duplicated()); }
    SameFilesKept(job, d, d.Duplicated());
    assert Honest(job, d.prev.value) || AllIn(d) by { UntouchedIsHonest(job, d, d.prev.value); }
    forall t ensures DiskOk(job, d.(dupTmp := t)) {
      WhatIsShuffled(d.(dupTmp := t));
      SameFilesKept(job, d, d.(dupTmp := t));
    }
  }

  lemma DuplicateOrPrevious(job: Job, d: Disk)
    requires DiskOk(job, d)
    ensures d.dup.Some? || d.prev.Some?
  {
  }

  lemma WhatIsShuffled(d: Disk)
    ensures Shuffled(d) == if d.dup.Some? then d.dup else d.prev
  {
  }

  lemma UntouchedIsHonest(job: Job, d: Disk, t: Tree)
    ensures Untouched(job, d, t) ==> Honest(job, t)
  {
  }

  lemma SetAsideOk(job: Job, d: Disk)
    requires DiskOk(job, d) && d.dup.Some? && AllIn(d) && d.prev.Some?
    ensures DiskOk(job, d.SetAside())
  {
    hide BooksOk, LinksOk, AllIn, Keeps, Untouched, Honest, Shuffled;
    WhatIsShuffled(d);
    WhatIsShuffled(d.SetAside());
    SameFilesKept(job, d, d.SetAside());
  }

  lemma SwappedOk(job: Job, d: Disk)
    requires DiskOk(job, d) && d.dup.Some? && d.prev.None?
    ensures forall t, current :: DiskOk(job, d.Swapped().(deleteme := t, current := current))
    ensures DiskOk(job, d.Swapped())
  {
    hide BooksOk, LinksOk, AllIn, Keeps, Untouched, Honest, Shuffled;
    WhatIsShuffled(d);
    WhatIsShuffled(d.Swapped());
    SameFilesKept(job, d, d.Swapped());
    forall t, current ensures DiskOk(job, d.Swapped().(deleteme := t, current := current)) {
      var d' := d.Swapped().(deleteme := t, current := current);
      WhatIsShuffled(d');
      SameFilesKept(job, d, d');
    }
  }

  class Finisher {
    const job: Job
    var disk: Disk

    ghost predicate Valid()
      reads this
    {
      DiskOk(job, disk)
    }

    constructor (job: Job, leftover: Option<Tree>)
      requires job.Ok()
      ensures Valid() && this.job == job && disk == job.Start(leftover)
    {
      StartIsOk(job, leftover);
      this.job, disk := job, job.Start(leftover);
    }

    /** `recursive_hardlink` into `currentdup.tmp`, then the rename. */
    method Duplicate(mayCrash: bool) returns (r: Outcome)
      requires Valid() && disk.dup.None?
      modifies this
      ensures Valid() && (r.Done? || (r.Crashed? && mayCrash))
      ensures r.Done? ==> disk == old(disk).Duplicated()
      ensures r.Crashed? ==> disk == old(disk).(dupTmp := disk.dupTmp) || disk == old(disk).Duplicated()
    {
      hide DiskOk;
      DuplicatedOk(job, disk);
      disk := disk.(dupTmp := None);
      if mayCrash { if * { return Crashed; } }
      var partial: Option<Tree> := *;
      disk := disk.(dupTmp := partial);
      if mayCrash { if * { return Crashed; } }
      disk := disk.Duplicated();
      if mayCrash { if * { return Crashed; } }
      return Done;
    }

    /** The mode of this attempt: what the duplicate was started out as, or for a
        new one what the configuration says; the `hardlinked` file then tells. */
    method ChooseMode(newdup: bool, mayCrash: bool) returns (r: Outcome, hardlinked: bool)
      requires Valid() && disk.dup.Some? && (newdup ==> disk.dup == disk.prev)
      modifies this
      ensures Valid() && (r.Done? || (r.Crashed? && mayCrash))
      ensures r.Done? ==> hardlinked == (if newdup then job.wantsHardlinks else old(disk).dup.value.hardlinked)
      ensures r.Done? ==> disk == old(disk).Marked(hardlinked)
      ensures r.Crashed? ==> disk == old(disk) || (newdup && disk == old(disk).Marked(job.wantsHardlinks))
    {
      hide DiskOk;
      hardlinked := if newdup then job.wantsHardlinks else disk.dup.value.hardlinked;
      if mayCrash { if * { return Crashed, hardlinked; } }
      MarkKeeps(job, disk, hardlinked);
      disk := disk.Marked(hardlinked);
      if mayCrash { if * { return Crashed, hardlinked; } }
      return Done, hardlinked;
    }

    /** `atomic_data_jiggle` on the duplicate. */
    method ShuffleDuplicate(hardlinked: bool, mayCrash: bool) returns (r: Outcome)
      requires Valid() && disk.dup.Some? && disk.dup.value.hardlinked == hardlinked
      modifies this
      ensures Valid() && disk.dup.Some? && OnlyShuffled(old(disk), disk)
      ensures Honest(job, disk.dup.value) <==> Honest(job, old(disk).dup.value)
      ensures r.Done? ==> AllIn(disk) && ListsKept(job, disk)
      ensures r.Crashed? ==> mayCrash
      ensures r.Failed? ==> ShuffleFails(job, old(disk)) || disk.spoilt != map[]
      ensures !old(disk).inflate.LinkTo? ==> disk.spoilt == old(disk).spoilt && (!r.Crashed? ==> !disk.inflate.LinkTo?)
    {
      hide DiskOk, BooksOk, LinksOk, Going, AllSent, Covered, Honest;
      hide Findable, DeltasCompressed, WrittenOver, Job.Ok, ListsWhatIsKept, ShuffleInv, InflateOk;
      var t := disk.dup.value;
      ghost var plan := job.Planned(hardlinked && t.data.Keys == job.was.Keys);
      CanBeShuffled(job, disk, t);
      var s := new Shuffle.Resume(job.lib, job.serverGz, hardlinked, disk.Around(t), disk.inflate, disk.deletions,
                                  disk.spoilt, plan);
      GoesOn(job, disk, s);
      var m;
      r, m := AtomicDataJiggle(s, job.platform, job.scanned, disk.manifest, mayCrash);
      ghost var before := disk;
      disk := disk.(dup := Some(t.(data := s.cur, delta := s.rev)), prev := Shared(disk.prev, s.spoilt),
                    tmp := s.tmp, fwd := s.fwd, fin := s.fin, inflate := s.inflate, spoilt := s.spoilt,
                    deletions := s.deletions, manifest := m);
      LeftBehind(job, before, disk, s);
      ModesAgree(job, plan.hardlinked, before);
      ModesAgree(job, plan.hardlinked, disk);
    }

    /** The previous backup is set aside, which fails if `current` is dangling or
        if an earlier `deleteme` that still has something in it is in the way. */
    method SetAside() returns (r: Outcome)
      requires Valid() && disk.dup.Some? && AllIn(disk)
      modifies this
      ensures Valid() && (r.Done? || r.Failed?)
      ensures disk == if r.Done? then old(disk).SetAside() else old(disk)
      ensures r.Done? ==> old(disk).prev.Some?
      ensures r.Failed? ==> old(disk).prev.None? || old(disk).deleteme.Some?
    {
      hide DiskOk;
      if disk.prev.None? { return Failed; }
      if disk.deleteme.Some? { if * { return Failed; } }
      SetAsideOk(job, disk);
      disk := disk.SetAside();
      return Done;
    }

    /** The duplicate takes its place, what was set aside goes, and the new backup
        becomes the current one. */
    method SwapIn(mayCrash: bool) returns (r: Outcome)
      requires Valid() && disk.dup.Some? && disk.prev.None? && !disk.current
      modifies this
      ensures Valid() && (r.Done? || (r.Crashed? && mayCrash))
      ensures SameFiles(old(disk), disk)
      ensures r.Done? ==> disk.current && disk.prev == old(disk).dup && disk.deleteme.None?
      ensures r.Crashed? ==> !disk.current
      ensures if disk.dup.Some? then disk == old(disk)
              else disk.prev == old(disk).dup && disk.Around(disk.prev.value) == old(disk).Around(disk.prev.value)
    {
      hide DiskOk;
      SwappedOk(job, disk);
      if mayCrash { if * { return Crashed; } }
      disk := disk.Swapped();
      if mayCrash { if * { return Crashed; } }
      var partial: Option<Tree> := *;
      disk := disk.(deleteme := partial);
      if mayCrash { if * { return Crashed; } }
      disk := disk.(deleteme := None);
      if mayCrash { if * { return Crashed; } }
      disk := disk.(current := true);
      return Done;
    }

    /** The duplicate that is to be shuffled, made or found, and marked. */
    method Prepare(mayCrash: bool) returns (r: Outcome)
      requires Valid()
      modifies this
      ensures Valid() && (r.Done? || (r.Crashed? && mayCrash))
      ensures Prepared(job, old(disk), disk, r.Done?)
    {
      hide DiskOk;
      var newdup := disk.dup.None?;
      DuplicateOrPrevious(job, disk);
      if newdup {
        r := Duplicate(mayCrash);
        if !r.Done? { return; }
      }
      var hardlinked;
      r, hardlinked := ChooseMode(newdup, mayCrash);
    }

    /** The shuffled duplicate and the new backup go into place. */
    method Conclude(mayCrash: bool) returns (r: Outcome)
      requires Valid() && disk.dup.Some? && AllIn(disk) && !disk.current
      modifies this
      ensures Valid() && (r.Crashed? ==> mayCrash) && (r.Done? <==> disk.current)
      ensures Concluded(old(disk), disk)
      ensures r.Failed? ==> disk == old(disk) && (disk.prev.None? || disk.deleteme.Some?)
      ensures r.Done? ==> disk.dup.None? && disk.deleteme.None?
    {
      hide DiskOk, AllIn;
      if mayCrash { if * { return Crashed; } }
      r := SetAside();
      if !r.Done? { return; }
      r := SwapIn(mayCrash);
    }

    /** `backup_phase4_server`, when there is a previous backup. */
    method BackupPhase4Server(mayCrash: bool) returns (r: Outcome)
      requires Valid() && !disk.current
      modifies this
      ensures Valid() && (r.Crashed? ==> mayCrash) && (r.Done? <==> disk.current)
      ensures MarksKept(job, old(disk), disk)
      ensures r.Done? ==> Completed(job, old(disk), disk)
      ensures r.Failed? ==> Hindered(job, old(disk)) || disk.spoilt != map[]
      ensures r.Failed? ==> FailedSafely(job, old(disk), disk)
      ensures !old(disk).inflate.LinkTo? ==> disk.spoilt == old(disk).spoilt && (!r.Crashed? ==> !disk.inflate.LinkTo?)
    {
      hide DiskOk, ShuffleFails, ListsKept, AllIn, MarksKept, Completed, Prepared, OnlyShuffled, Concluded, Honest;
      hide FailedSafely;
      ghost var d0 := disk;
      r := Prepare(mayCrash);
      ghost var d1 := disk;
      PreparedMarks(job, d0, d1, r.Done?);
      if !r.Done? { return; }
      r := ShuffleDuplicate(disk.dup.value.hardlinked, mayCrash);
      ghost var d2 := disk;
      ShuffledMarks(job, d0, d1, d2);
      FailedMarks(job, d0, d1, d2);
      if !r.Done? { return; }
      r := Conclude(mayCrash);
      ConcludedMarks(job, d0, d1, d2, disk);
    }

    /** `check_for_rubble` has phase 4 tried again on every connection until it is done:
        here for a number of attempts, of which so many at most are killed. The others
        may fail. `last` is what the last attempt started from. */
    method Finish(attempts: nat, crashes: nat) returns (r: Outcome, ghost last: Disk)
      requires Valid() && attempts > 0 && disk == job.Start(disk.deleteme)
      modifies this
      ensures Valid() && (r.Done? <==> disk.current) && (r.Crashed? ==> crashes > 0)
      ensures r.Done? ==> disk.prev.Some? && AllIn(disk) && ListsKept(job, disk)
      ensures Careful(job.Planned(false), job.scanned) || crashes == 0 ==> disk.spoilt == map[]
      // The mark tells the truth exactly if the last attempt had a true one to go by.
      ensures r.Done? ==> (Honest(job, disk.prev.value) <==> MarkIsTrue(job, last))
      ensures r.Done? && (crashes <= 1 || !job.wantsHardlinks) ==> Honest(job, disk.prev.value)
      ensures r.Failed? ==> Hindered(job, last) || disk.spoilt != map[]
      ensures r.Done? && disk.spoilt == map[] ==> Findable(job.Planned(false), job.scanned)
      ensures (crashes == 0 && old(disk).deleteme.None? ==>
                 (r.Done? <==> Findable(job.Planned(false), job.scanned)))
    {
      hide Hindered, ListsKept, Fresh, FailedSafely, MarksKept, Completed, DiskOk;
      KeptIsFindable(job);
      StartIsClear(job);
      StartIsFresh(job, disk);
      r := Failed;
      last := disk;
      var n, crashed := 0, 0;
      while n < attempts && !r.Done?
        invariant n <= attempts && crashed <= crashes && Valid() && (disk.current <==> r.Done?)
        invariant r.Crashed? ==> crashes > 0
        invariant n == 0 ==> disk == old(disk) && !r.Done?
        invariant r.Done? ==> disk.prev.Some? && AllIn(disk) && ListsKept(job, disk)
        invariant r.Done? ==> (Honest(job, disk.prev.value) <==> MarkIsTrue(job, last))
        invariant r.Done? && crashed <= 1 ==> Honest(job, disk.prev.value)
        invariant !r.Done? && crashed <= 1 ==> MarkIsTrue(job, disk)
        invariant !r.Done? && crashed == 0 ==> Fresh(job, disk) && !disk.inflate.LinkTo?
        invariant crashed == 0 ==> disk.spoilt == map[]
        invariant r.Failed? && n > 0 ==> Hindered(job, last) || disk.spoilt != map[]
        invariant (n > 0 && crashed == 0 && old(disk).deleteme.None? ==>
                     (r.Done? <==> Findable(job.Planned(false), job.scanned)))
        invariant !job.wantsHardlinks ==> Unmarked(disk)
        decreases attempts - n
      {
        last := disk;
        r := BackupPhase4Server(crashed < crashes);
        AfterAttempt(job, last, disk, r);
        if r.Crashed? { crashed := crashed + 1; }
        n := n + 1;
      }
      if r.Done? { UnmarkedIsHonest(job, disk); }
      SpoiltIfCareless(job, disk);
    }
  }

  lemma SpoiltIfCareless(job: Job, d: Disk)
    requires DiskOk(job, d)
    ensures Careful(job.Planned(false), job.scanned) ==> d.spoilt == map[]
  {
    hide BooksOk, Keeps, AllIn, InflateOk, LinkBehind, Careful, Honest, Untouched;
  }

  lemma UnmarkedIsHonest(job: Job, d: Disk)
    requires d.prev.Some?
    ensures Unmarked(d) ==> Honest(job, d.prev.value)
  {
  }

  /** What an attempt leaves, however it ends. */
  lemma AfterAttempt(job: Job, d: Disk, d': Disk, r: Outcome)
    requires MarksKept(job, d, d') && (r.Done? ==> Completed(job, d, d'))
    requires r.Failed? ==> FailedSafely(job, d, d')
    ensures Fresh(job, d) ==> MarkIsTrue(job, d')
    ensures r.Failed? ==> (MarkIsTrue(job, d') <==> MarkIsTrue(job, d)) && (Fresh(job, d) ==> Fresh(job, d'))
    ensures r.Done? ==> d'.prev.Some? && AllIn(d') && ListsKept(job, d')
    ensures r.Done? ==> (Honest(job, d'.prev.value) <==> MarkIsTrue(job, d))
    ensures !job.wantsHardlinks && Unmarked(d) ==> Unmarked(d')
  {
    hide MarkIsTrue, Honest, Fresh, Unmarked, AllIn, ListsKept;
  }

  lemma StartIsFresh(job: Job, d: Disk)
    requires d == job.Start(d.deleteme)
    ensures Fresh(job, d) && MarkIsTrue(job, d) && Unmarked(d) && d.spoilt == map[] && !d.inflate.LinkTo? && !d.current
  {
    assert WrittenOver(job.was, map[]) == job.was;
  }

  lemma KeptIsFindable(job: Job)
    ensures forall d :: ListsKept(job, d) && d.spoilt == map[] ==> Findable(job.Planned(false), job.scanned)
  {
  }

  lemma StartIsClear(job: Job)
    ensures Findable(job.Planned(false), job.scanned) ==> !Hindered(job, job.Start(None))
  {
  }

  // ----- The first backup -----

  /** What is on disk of a first backup: the data where it was received or in its
      place, and whether `finishing` has become `current`. */
  datatype FirstDisk = FirstDisk(tmp: Option<Dir>, data: Option<Dir>, current: bool)

  /** `backup_phase4_server`, when there is no previous backup. */
  method PutInPlace(disk: FirstDisk, mayCrash: bool) returns (r: Outcome, d: FirstDisk)
    ensures r.Failed? <==> disk.tmp.None?
    ensures r.Failed? ==> d == disk
    ensures r.Crashed? ==> mayCrash && (d == disk || d == disk.(tmp := None, data := disk.tmp))
    ensures r.Done? ==> d == FirstDisk(None, disk.tmp, true)
  {
    d := disk;
    if d.tmp.None? { return Failed, d; }              // do_rename(datadirtmp, datadir)
    if mayCrash { if * { return Crashed, d; } }
    d := d.(tmp := None, data := d.tmp);
    if mayCrash { if * { return Crashed, d; } }
    d := d.(current := true);
    r := Done;
  }

  /** The same, tried again on every connection. A kill between the two renames is the
      end of it: the first of them cannot be made again. */
  method FinishFirst(received: Dir, attempts: nat, crashes: nat) returns (r: Outcome, d: FirstDisk)
    requires attempts > 0
    ensures r.Done? <==> d.current
    ensures r.Done? ==> d.data == Some(received)
    ensures r.Failed? ==> crashes > 0 && d == FirstDisk(None, Some(received), false)
    ensures r.Crashed? ==> crashes > 0
    ensures crashes == 0 ==> r.Done?
  {
    r, d := Failed, FirstDisk(Some(received), None, false);
    var n, crashed := 0, 0;
    while n < attempts && !r.Done?
      invariant n <= attempts && crashed <= crashes && (d.current <==> r.Done?)
      invariant r.Done? ==> d.data == Some(received)
      invariant !r.Done? ==> d == FirstDisk(Some(received), None, false) || d == FirstDisk(None, Some(received), false)
      invariant d.tmp.None? && !r.Done? ==> crashed > 0
      invariant n > 0 && r.Failed? ==> d.tmp.None?
      invariant n > 0 && crashed == 0 ==> r.Done?
      invariant r.Crashed? ==> crashed > 0
      decreases attempts - n
    {
      r, d := PutInPlace(d, crashed < crashes);
      if r.Crashed? { crashed := crashed + 1; }
      n := n + 1;
    }
  }

  // ----- What becomes of the mark -----

  /** Whether a duplicate was started out hardlinked stays until it is in place. */
  predicate KeepsMark(d: Disk, d': Disk) {
    && (d.dup.Some? && d'.dup.Some? ==> d'.dup.value.hardlinked == d.dup.value.hardlinked)
    && (d.dup.Some? && d'.dup.None? ==> d'.prev.Some? && d'.prev.value.hardlinked == d.dup.value.hardlinked)
  }

  /** A new one is marked by the configuration before the first file moves. */
  predicate MarkedFirst(job: Job, d: Disk, d': Disk) {
    d.dup.None? && d.prev.Some? && d'.dup.Some? && d'.Around(d'.dup.value) != d.Around(d.prev.value) ==>
      d'.dup.value.hardlinked == job.wantsHardlinks
  }

  /** Nothing has become of the mark yet: the previous backup is untouched, or its
      duplicate is marked by the configuration, and that is true. */
  ghost predicate Fresh(job: Job, d: Disk) {
    if d.dup.Some? then Honest(job, d.dup.value) && d.dup.value.hardlinked == job.wantsHardlinks
    else d.prev.Some? && Untouched(job, d, d.prev.value)
  }

  ghost predicate TrueIfFresh(job: Job, d: Disk, d': Disk) { Fresh(job, d) ==> MarkIsTrue(job, d') }

  /** An attempt that failed leaves a duplicate whose mark is as true as it was. */
  ghost predicate FailedSafely(job: Job, d: Disk, d': Disk) {
    && d'.dup.Some? && (MarkIsTrue(job, d') <==> MarkIsTrue(job, d)) && (Fresh(job, d) ==> Fresh(job, d'))
  }

  lemma FailedMarks(job: Job, d: Disk, d1: Disk, d2: Disk)
    requires Prepared(job, d, d1, true)
    requires d2.dup.Some? && OnlyShuffled(d1, d2) && (Honest(job, d2.dup.value) <==> Honest(job, d1.dup.value))
    ensures FailedSafely(job, d, d2)
  {
    PreparedIsTrue(job, d, d1, true);
    hide Honest, WrittenOver;
  }

  predicate StaysUnmarked(job: Job, d: Disk, d': Disk) {
    !job.wantsHardlinks && Unmarked(d) ==> Unmarked(d')
  }

  ghost predicate MarksKept(job: Job, d: Disk, d': Disk) {
    KeepsMark(d, d') && MarkedFirst(job, d, d') && TrueIfFresh(job, d, d') && StaysUnmarked(job, d, d')
  }

  /** The duplicate is made, if there was none, and marked. */
  predicate Prepared(job: Job, d: Disk, d': Disk, done: bool) {
    && SameFiles(d, d') && d'.prev == d.prev && d'.deleteme == d.deleteme && d'.current == d.current
    && (d.dup.Some? ==> d'.dup == d.dup)
    && (d.dup.None? ==>
          && d.prev.Some?
          && (|| d'.dup.None? || d'.dup == d.prev
              || d'.dup == Some(d.prev.value.(hardlinked := job.wantsHardlinks))))
    && (done ==> d'.dup.Some? && d'.dup.value.hardlinked == FinalMark(job, d))
  }

  predicate Concluded(d: Disk, d': Disk) {
    && SameFiles(d, d')
    && (d'.dup == d.dup || (d'.dup.None? && d'.prev == d.dup))
    && (d'.dup.Some? ==> d'.prev == d.prev || d'.prev.None?)
  }

  lemma PreparedMarks(job: Job, d: Disk, d1: Disk, done: bool)
    requires Prepared(job, d, d1, done)
    ensures MarksKept(job, d, d1) && SameFiles(d, d1)
    ensures done ==> d1.dup.Some? && d1.dup.value.hardlinked == FinalMark(job, d)
    ensures d1.prev == d.prev && d1.deleteme == d.deleteme && d1.current == d.current
    ensures ShuffleFails(job, d1) <==> ShuffleFails(job, d)
  {
    PreparedIsTrue(job, d, d1, done);
    PreparedFiles(job, d, d1, done);
    PreparedKeeps(job, d, d1, done);
    hide Prepared, KeepsMark, MarkedFirst, TrueIfFresh, StaysUnmarked, Findable, DeltasCompressed;
  }

  lemma PreparedFiles(job: Job, d: Disk, d1: Disk, done: bool)
    requires Prepared(job, d, d1, done)
    ensures SameFiles(d, d1) && d1.prev == d.prev && d1.deleteme == d.deleteme && d1.current == d.current
    ensures done ==> d1.dup.Some? && d1.dup.value.hardlinked == FinalMark(job, d)
    ensures d1.dup == d.dup || (d.prev.Some? && d1.dup.Some? && d1.Around(d1.dup.value) == d.Around(d.prev.value))
    ensures (d1.dup != d.dup ==>
               d.dup.None? && (d1.dup.value.hardlinked ==> d.prev.value.hardlinked || job.wantsHardlinks))
  {
  }

  lemma PreparedKeeps(job: Job, d: Disk, d1: Disk, done: bool)
    requires Prepared(job, d, d1, done)
    ensures KeepsMark(d, d1) && MarkedFirst(job, d, d1) && StaysUnmarked(job, d, d1)
  {
    PreparedFiles(job, d, d1, done);
    hide Prepared;
  }

  lemma PreparedIsTrue(job: Job, d: Disk, d1: Disk, done: bool)
    requires Prepared(job, d, d1, done)
    ensures TrueIfFresh(job, d, d1)
    ensures done ==> (Honest(job, d1.dup.value) <==> MarkIsTrue(job, d))
    ensures Fresh(job, d) ==> MarkIsTrue(job, d)
  {
  }

  lemma ShuffledMarks(job: Job, d: Disk, d1: Disk, d2: Disk)
    requires Prepared(job, d, d1, true)
    requires d2.dup.Some? && OnlyShuffled(d1, d2) && (Honest(job, d2.dup.value) <==> Honest(job, d1.dup.value))
    ensures MarksKept(job, d, d2) && d2.current == d.current
    ensures (d2.prev.None? ==> d.prev.None?) && (d2.deleteme.Some? ==> d.deleteme.Some?)
  {
    PreparedIsTrue(job, d, d1, true);
    PreparedFiles(job, d, d1, true);
    hide Prepared, Honest, Untouched, WrittenOver;
  }

  lemma ConcludedMarks(job: Job, d: Disk, d1: Disk, d2: Disk, d3: Disk)
    requires Prepared(job, d, d1, true)
    requires d2.dup.Some? && OnlyShuffled(d1, d2) && (Honest(job, d2.dup.value) <==> Honest(job, d1.dup.value))
    requires Concluded(d2, d3)
    ensures MarksKept(job, d, d3) && d3.spoilt == d2.spoilt && d3.inflate == d2.inflate
    ensures ListsKept(job, d2) && AllIn(d2) && d3.dup.None? && d3.deleteme.None? ==> Completed(job, d, d3)
  {
    PreparedIsTrue(job, d, d1, true);
    PreparedFiles(job, d, d1, true);
    ConcludedIsTrue(job, d, d1, d2, d3);
    hide Prepared, Covered, ListsWhatIsKept, TrueIfFresh, WrittenOver;
  }

  lemma ConcludedIsTrue(job: Job, d: Disk, d1: Disk, d2: Disk, d3: Disk)
    requires Prepared(job, d, d1, true)
    requires d2.dup.Some? && OnlyShuffled(d1, d2) && (Honest(job, d2.dup.value) <==> Honest(job, d1.dup.value))
    requires Concluded(d2, d3)
    ensures TrueIfFresh(job, d, d3)
  {
    ShuffledMarks(job, d, d1, d2);
    hide Untouched, WrittenOver;
  }

  predicate Unmarked(d: Disk) {
    (d.dup.Some? ==> !d.dup.value.hardlinked) && (d.prev.Some? ==> !d.prev.value.hardlinked)
  }

  /** The mark the finished duplicate must carry. */
  function FinalMark(job: Job, d: Disk): bool {
    if d.dup.Some? then d.dup.value.hardlinked else job.wantsHardlinks
  }

  /** Whether an attempt that starts from `d` leaves a mark that is true: it takes
      over the one on the duplicate it finds; a duplicate that it makes itself it
      marks by the configuration, even if it is a copy of a shuffled one. */
  ghost predicate MarkIsTrue(job: Job, d: Disk) {
    if d.dup.Some? then Honest(job, d.dup.value)
    else d.prev.Some? && (job.wantsHardlinks ==> d.prev.value.data.Keys == job.was.Keys)
  }

  ghost predicate ListsKept(job: Job, d: Disk) {
    ListsWhatIsKept(job.Planned(false), d.spoilt, job.scanned, d.manifest)
  }

  /** The new backup is current and complete, and the previous one in its place. */
  ghost predicate Completed(job: Job, d: Disk, d': Disk) {
    && d'.prev.Some? && d'.dup.None? && d'.deleteme.None? && ListsKept(job, d') && AllIn(d')
    && d'.prev.value.hardlinked == FinalMark(job, d)
    && (Honest(job, d'.prev.value) <==> MarkIsTrue(job, d))
  }

  /** What can stop a shuffle: a file that is not there or does not inflate, and
      `inflate`, left by a crash, in the way of an uncompressed one. */
  ghost predicate ShuffleFails(job: Job, d: Disk) {
    var plan := job.Planned(false);
    !Findable(plan, d.manifest) || (!DeltasCompressed(plan, d.manifest) && !d.inflate.Absent?)
  }

  /** What can stop an attempt that is not interrupted. */
  ghost predicate Hindered(job: Job, d: Disk) {
    d.prev.None? || d.deleteme.Some? || ShuffleFails(job, d)
  }

  function Shared(t: Option<Tree>, spoilt: Dir): Option<Tree> {
    if t.None? then None else Some(t.value.(data := WrittenOver(t.value.data, spoilt)))
  }

  /** The shuffle works on the duplicate and the new data only, but for the old
      files that it writes over. */
  predicate OnlyShuffled(d: Disk, d': Disk)
    requires d.dup.Some? && d'.dup.Some?
  {
    && d'.prev == Shared(d.prev, d'.spoilt) && d'.deleteme == d.deleteme && d'.dupTmp == d.dupTmp
    && d'.current == d.current && d'.dup.value.hardlinked == d.dup.value.hardlinked
  }

  /** What should become of a file does not depend on the mode. */
  lemma ModesAgree(job: Job, hardlinked: bool, d: Disk)
    ensures var p, q := job.Planned(hardlinked), job.Planned(false);
            && (forall m :: Trimmed(p, d.spoilt, job.scanned, m) <==> Trimmed(q, d.spoilt, job.scanned, m))
            && (LogTrue(p, d.spoilt, d.deletions) <==> LogTrue(q, d.spoilt, d.deletions))
            && (FlagsOk(p, job.scanned) <==> FlagsOk(q, job.scanned))
            && (Findable(p, d.manifest) <==> Findable(q, d.manifest))
            && (DeltasCompressed(p, d.manifest) <==> DeltasCompressed(q, d.manifest))
            && (Careful(p, job.scanned) <==> Careful(q, job.scanned))
            && (LinkBehind(p, d.fin, job.scanned, d.inflate) <==> LinkBehind(q, d.fin, job.scanned, d.inflate))
            && (ListsWhatIsKept(p, d.spoilt, job.scanned, d.manifest) <==>
                ListsWhatIsKept(q, d.spoilt, job.scanned, d.manifest))
  {
    hide NewKeysRise, Before, Sorted;
    var p, q := job.Planned(hardlinked), job.Planned(false);
    forall dp ensures p.Goal(dp) == q.Goal(dp) && (Reachable(p, dp) <==> Reachable(q, dp)) {}
    forall e ensures (Lost(p, e) <==> Lost(q, e)) && (Fails(p, e) <==> Fails(q, e)) {}
    hide Plan.Goal, Lost, Reachable, Fails;
    forall e, f ensures Clash(p, e, f) <==> Clash(q, e, f) {}
    hide Clash;
    forall m ensures Settled(p, d.fin, m) <==> Settled(q, d.fin, m) {}
    hide Settled;
  }

  /** The shuffle can be taken up in the mode the duplicate is marked with. */
  lemma ModeFits(job: Job, d: Disk, t: Tree)
    requires DiskOk(job, d) && d.dup == Some(t)
    ensures ShuffleInv(job.Planned(t.hardlinked && t.data.Keys == job.was.Keys), d.spoilt, d.Around(t))
  {
    if t.hardlinked && t.data.Keys == job.was.Keys { WholeSuits(job, d, t, true); }
  }

  lemma MarkKeeps(job: Job, d: Disk, hardlinked: bool)
    requires DiskOk(job, d) && d.dup.Some?
    requires d.dup == d.prev || d.dup.value.hardlinked == hardlinked
    ensures DiskOk(job, d.Marked(hardlinked))
  {
    var d' := d.Marked(hardlinked);
    if d.dup.value.hardlinked == hardlinked {
      assert d' == d;
    } else {
      assert d'.Around(d'.dup.value) == d.Around(d.dup.value);
      assert d'.Around(d.prev.value) == d.Around(d.prev.value);
    }
  }

  /** The shuffle takes the duplicate up as it finds it. */
  lemma CanBeShuffled(job: Job, d: Disk, t: Tree)
    requires DiskOk(job, d) && d.dup == Some(t)
    ensures var plan := job.Planned(t.hardlinked && t.data.Keys == job.was.Keys);
            ShuffleInv(plan, d.spoilt, d.Around(t)) && InflateOk(plan, d.inflate, d.Around(t))
    ensures AllSent(job.platform, d.manifest)
  {
    ModeFits(job, d, t);
  }

  lemma GoesOn(job: Job, d: Disk, s: Shuffle)
    requires DiskOk(job, d) && d.dup.Some? && s.Inv()
    requires var t := d.dup.value;
             && s.plan == job.Planned(t.hardlinked && t.data.Keys == job.was.Keys) && s.hardlinked == t.hardlinked
             && s.fin == d.fin && s.inflate == d.inflate && s.deletions == d.deletions && s.spoilt == d.spoilt
    ensures Going(s, job.scanned, d.manifest, 0)
  {
    ModesAgree(job, s.plan.hardlinked, d);
    hide ShuffleInv, InflateOk, LogOk, LogTrue, FromManifest, Trimmed, FlagsOk, Careful, LinkBehind, Covered, Sorted;
  }

  /** And what it leaves behind is in order. */
  lemma LeftBehind(job: Job, d: Disk, d': Disk, s: Shuffle)
    requires DiskOk(job, d) && d.dup.Some? && d'.dup.Some? && OnlyShuffled(d, d')
    requires s.plan == job.Planned(d.dup.value.hardlinked && d.dup.value.data.Keys == job.was.Keys)
    requires Going(s, job.scanned, d'.manifest, 0) && AllSent(job.platform, d'.manifest)
    requires s.Now() == d'.Around(d'.dup.value) && s.inflate == d'.inflate && s.deletions == d'.deletions
    requires s.spoilt == d'.spoilt && d.spoilt.Keys <= s.spoilt.Keys
    requires forall e :: e in d'.manifest ==> e in d.manifest
    requires AllIn(d) ==> d'.fin == d.fin && d'.dup.value.data == d.dup.value.data && d'.spoilt == d.spoilt
    ensures DiskOk(job, d') && (Honest(job, d'.dup.value) <==> Honest(job, d.dup.value))
  {
    ModesAgree(job, s.plan.hardlinked, d');
    assert s.fin == d'.fin;
    assert BooksOk(job, d') && LinksOk(job, d') by {
      hide ShuffleInv, LogOk, LogTrue, FromManifest, Trimmed, FlagsOk, Careful, LinkBehind, Covered, Sorted, Keeps;
    }
    assert ShuffleInv(s.plan, d'.spoilt, d'.Around(d'.dup.value)) by { hide ShuffleInv; }
    assert AllIn(d) ==> AllIn(d');
    hide Going, BooksOk, LinksOk, DiskOk, OnlyShuffled;
    ShuffledKeeps(job, d, d', s.plan);
  }

  lemma ShuffledKeeps(job: Job, d: Disk, d': Disk, plan: Plan)
    requires DiskOk(job, d) && d.dup.Some? && d'.dup.Some? && OnlyShuffled(d, d')
    requires plan == job.Planned(d.dup.value.hardlinked && d.dup.value.data.Keys == job.was.Keys)
    requires ShuffleInv(plan, d'.spoilt, d'.Around(d'.dup.value)) && BooksOk(job, d') && LinksOk(job, d')
    requires AllIn(d) ==> AllIn(d') && d'.fin == d.fin && d'.dup.value.data == d.dup.value.data
    requires AllIn(d) ==> d'.spoilt == d.spoilt
    requires d.spoilt.Keys <= d'.spoilt.Keys
    ensures DiskOk(job, d')
    ensures Honest(job, d'.dup.value) <==> Honest(job, d.dup.value)
  {
    var t := d'.dup.value;
    if plan.hardlinked { HardlinkedKeepsWhole(job, d'.spoilt, d'.Around(t)); }
    assert Keeps(job, d', t);
    if d.prev.Some? {
      OtherKept(job, d, d', d.prev.value, t);
    } else {
      OtherKept(job, d, d', d.deleteme.value, t);
    }
  }

  // ----- What a false mark does -----

  /** The finished directories are a step of the store, and one that keeps it good,
      exactly if the mark is true. */
  lemma GoodStepExactly(job: Job, d: Disk, vs: seq<Version>)
    requires DiskOk(job, d) && d.prev.Some? && AllIn(d) && d.spoilt == map[] && FlagsAre(d.manifest, job.gz)
    requires StoreOk(job.lib, vs) && vs != [] && JobFits(job, vs[|vs| - 1])
    requires d.prev.value.hardlinked || AllSound(job)
    ensures var t := d.prev.value;
            var vs' := Finished(vs, d.manifest, t.hardlinked, d.Around(t), job.gz);
            && (Honest(job, t) ==> Happens(job.lib, Next(d.manifest, job.Planned(t.hardlinked), d.Around(t)), vs, vs'))
            && (Honest(job, t) <==> StoreOk(job.lib, vs'))
  {
    var t, n := d.prev.value, |vs| - 1;
    var vs' := Finished(vs, d.manifest, t.hardlinked, d.Around(t), job.gz);
    if Honest(job, t) {
      if t.hardlinked { WholeSuits(job, d, t, true); }
      NextKeepsStore(job.lib, vs, d.manifest, job.Planned(t.hardlinked), d.Around(t));
    }
    if StoreOk(job.lib, vs') && t.hardlinked { GoodIfWhole(job, d, t, vs', n); }
  }

  /** The job is one on top of backup `last`. */
  predicate JobFits(job: Job, last: Version) { last.data == last.held == job.was && last.gz == job.wasGz }

  /** Whatever is turned back, is turned back by what it was stored by. */
  ghost predicate AllSound(job: Job) { forall dp :: dp in job.was ==> job.Planned(false).Sound(dp) }

  /** A backup that leans on nothing has all its files itself. */
  lemma GoodIfWhole(job: Job, d: Disk, t: Tree, vs: seq<Version>, n: nat)
    requires Keeps(job, d, t) && t.hardlinked
    requires VersionsOk(job.lib, vs) && n < |vs| && vs[n].held == job.was
    requires vs[n].data == t.data && vs[n].hardlinked
    ensures t.data.Keys == job.was.Keys
  {
    assert VersionOk(job.lib, vs[n], NextOf(vs, n));
    forall dp ensures dp in t.data <==> dp in job.was {
      assert FileInv(job.Planned(false), d.spoilt, d.Around(t), dp);
      if dp in vs[n].held { assert Has(job.lib, vs[n], NextOf(vs, n), dp); }
    }
  }

  /** One file whose delta turns it into `new`; the configuration wants hard links. */
  ghost predicate OneFile(job: Job, e: Sbuf) {
    && e == Sbuf(CMD_FILE, "/f", None, Some("t/f"), "", Stat(false, 0, 0, 0), None)
    && job == Job(SampleCodec(), false, map["t/f" := "was"], {}, map[], map["t/f" := "dnew"], {}, Unix, [e], true)
  }

  /** Its duplicate shuffled with a reverse delta. */
  function ShuffledOne(job: Job): Disk {
    job.Start(None).Duplicated().(dup := Some(Tree(map[], map["t/f" := "dwas"], false)),
                              fwd := map[], fin := map["t/f" := "new"])
  }

  /** Two crashes can leave a false mark: one before the mark of a new duplicate is
      written, so that it is shuffled with reverse deltas after all, and one after
      it has taken its place, so that it is duplicated and marked again. */
  lemma TwoCrashesLeaveAFalseMark(job: Job, e: Sbuf)
    requires OneFile(job, e)
    ensures var unmarked := job.Start(None).Duplicated();
            var inPlace := ShuffledOne(job).SetAside().Swapped().(deleteme := None);
            && DiskOk(job, unmarked) && DiskOk(job, ShuffledOne(job)) && OnlyShuffled(unmarked, ShuffledOne(job))
            && DiskOk(job, inPlace) && !MarkIsTrue(job, inPlace)
  {
    SampleIsValid();
    StartIsOk(job, None);
    DuplicatedOk(job, job.Start(None));
    ShuffledOneOk(job, e);
    assert WrittenOver(job.was, map[]) == job.was;
    hide DiskOk, SampleCodec;
    SetAsideOk(job, ShuffledOne(job));
    SwappedOk(job, ShuffledOne(job).SetAside());
    var inPlace := ShuffledOne(job).SetAside().Swapped().(deleteme := None);
    assert inPlace == ShuffledOne(job).SetAside().Swapped().(deleteme := None, current := false);
  }

  lemma ShuffledOneOk(job: Job, e: Sbuf)
    requires OneFile(job, e) && job.lib.Valid()
    ensures DiskOk(job, ShuffledOne(job)) && AllIn(ShuffledOne(job))
  {
    assert job.Planned(false).Goal("t/f") == Some("new");
    assert WrittenOver(job.was, map[]) == job.was;
    ShuffledOneKeeps(job, e);
    hide Keeps, SampleCodec;
  }

  lemma ShuffledOneKeeps(job: Job, e: Sbuf)
    requires OneFile(job, e) && job.lib.Valid() && job.Planned(false).Goal("t/f") == Some("new")
    ensures var d := ShuffledOne(job); Keeps(job, d, d.dup.value) && Keeps(job, d, d.prev.value)
  {
    var d := ShuffledOne(job);
    assert TurnsBack(job.Planned(false), d.Around(d.dup.value), "t/f");
    hide Plan.Goal, SampleCodec, TurnsBack;
  }
}
