/** A whole backup, from the client's scan to the server's store
    (`do_backup_server` in src/server.c and the phases it calls). */
module WholeBackup {
  import opened Wrappers
  import opened Librsync
  import opened Records
  import opened Protocol
  import opened Phase2
  import opened Phase3
  import opened Pipeline
  import opened Jiggle
  import opened ShuffleRun
  import opened Store
  import opened Retention
  import opened Phase4
  import opened BackupStore

  // ----- What is taken for granted of the two machines -----

  /** What a file on the client holds, by the kind of record and the path. */
  type Contents = (char, string) -> Bytes

  /** The record that comes with a file sent whole. */
  function NewRecord(env: Env, cmd: char, path: string): Sbuf {
    var a := env.answer(cmd, path);
    Sbuf(cmd, path, None, Some(env.newPath(cmd, path)), a.stat, env.decode(a.stat), Some(a.endfile))
  }

  /** The client sends its files' contents, deflated if its record says so, or as
      librsync's deltas against the signature that the server made of the old file,
      which it reads by the old record. */
  ghost predicate Faithful(env: Env, lib: Codec, was: Dir, wasGz: set<string>, content: Contents) {
    && lib.Valid()
    && (forall cmd, path ::
          lib.Inflated(Gz(NewRecord(env, cmd, path)), Flatten(env.whole(cmd, path))) == Some(content(cmd, path)))
    && (forall dp, path :: dp in was ==>
          Flatten(env.delta(path, env.signature(dp))) ==
          lib.delta(lib.ReadAs(dp in wasGz, was[dp]), content(CMD_FILE, path)))
  }

  /** No scanned file's data path is given to another file: new ones come from a
      counter or are the file's own path behind a `t`. */
  ghost predicate OwnPaths(env: Env, cman: seq<Sbuf>, p1: seq<Sbuf>) {
    && (forall e, f :: e in p1 && f in p1 && env.newPath(e.cmd, e.path) == env.newPath(f.cmd, f.path) ==>
          KeyOf(e) == KeyOf(f))
    && (forall e, cb :: e in p1 && cb in cman && cb.datapth == Some(env.newPath(e.cmd, e.path)) ==>
          KeyOf(cb) == KeyOf(e))
  }

  /** The times by which a file is judged: that of its content, and for records that
      are sent again with any change that of its attributes too. */
  predicate SameTimes(e: Sbuf, cb: Sbuf) {
    e.statp.mtime == cb.statp.mtime && (NoAttribsOnly(e.cmd) ==> e.statp.ctime == cb.statp.ctime)
  }

  /** A file that has the times of its old record is the file that was backed up. */
  ghost predicate Undisturbed(lib: Codec, cman: seq<Sbuf>, p1: seq<Sbuf>, was: Dir, content: Contents) {
    forall e, cb :: e in p1 && cb in cman && KeyOf(e) == KeyOf(cb) && e.cmd == cb.cmd && FileData(e.cmd) &&
                    SameTimes(e, cb) && cb.datapth.Some? && cb.datapth.value in was ==>
      lib.Inflated(Gz(cb), was[cb.datapth.value]) == Some(content(e.cmd, e.path))
  }

  // ----- What is kept from backup to backup -----

  /** A manifest fit to be the next one's old manifest: its data is all there, no two
      records share it, and it reads by what they say of its compression. */
  ghost predicate OwnsData(p: Platform, lib: Codec, m: seq<Sbuf>, data: Dir, gz: set<string>) {
    && Sorted(m) && AllSent(p, m) && OldOk(m) && Covered(m, data) && FlagsAre(m, gz)
    && (forall e, f :: e in m && f in m && e.datapth.Some? && e.datapth == f.datapth ==> e == f)
    && (forall dp :: dp in data ==> lib.Inflated(dp in gz, data[dp]).Some?)
  }

  ghost predicate ScanList(p: Platform, p1: seq<Sbuf>) {
    Sorted(p1) && AllSent(p, p1) && forall e :: e in p1 ==> e.datapth.None?
  }

  // ----- Where a record's data comes from -----

  lemma {:induction false} ArrivalHasRequest(env: Env, rs: seq<Request>, a: Arrival) returns (r: Request)
    requires a in ExpectedAll(env, rs)
    ensures r in rs && a in Expected(env, r)
  {
    var n := |rs| - 1;
    if a in Expected(env, rs[n]) {
      r := rs[n];
    } else {
      r := ArrivalHasRequest(env, rs[..n], a);
    }
  }

  lemma {:induction false} RequestHasRecord(conf: Conf, cman: seq<Sbuf>, p1: seq<Sbuf>, r: Request) returns (e: Sbuf)
    requires r in RequestsOf(conf, cman, p1)
    ensures e in p1 && ItemFor(conf, cman, e) == Ask(r)
  {
    hide ItemFor;
    var n := |p1| - 1;
    var item := ItemFor(conf, cman, p1[n]);
    if item == Ask(r) {
      e := p1[n];
    } else {
      e := RequestHasRecord(conf, cman, p1[..n], r);
    }
  }

  lemma {:induction false} LoggedHasRecord(conf: Conf, cman: seq<Sbuf>, p1: seq<Sbuf>, cb: Sbuf) returns (e: Sbuf)
    requires cb in UnchangedOf(conf, cman, p1)
    ensures e in p1 && ItemFor(conf, cman, e) == Log(cb)
  {
    hide ItemFor;
    var n := |p1| - 1;
    var item := ItemFor(conf, cman, p1[n]);
    if item == Log(cb) {
      e := p1[n];
    } else {
      e := LoggedHasRecord(conf, cman, p1[..n], cb);
    }
  }

  /** A file stands in its directory with the content that its arrivals agree on. */
  lemma {:induction false} FileIs(arr: seq<Arrival>, deltas: bool, dp: string, content: string)
    requires forall a :: a in arr && a.isDelta == deltas && a.entry.datapth == Some(dp) ==> a.content == content
    ensures dp in Files(arr, deltas) ==> Files(arr, deltas)[dp] == content
    ensures dp in Files(arr, deltas) <==> exists a :: a in arr && a.isDelta == deltas && a.entry.datapth == Some(dp)
  {
    if arr != [] {
      var n := |arr| - 1;
      FileIs(arr[..n], deltas, dp, content);
      assert arr == arr[..n] + [arr[n]];
    }
  }

  lemma {:induction false} FileThere(arr: seq<Arrival>, deltas: bool, dp: string)
    ensures dp in Files(arr, deltas) <==> exists a :: a in arr && a.isDelta == deltas && a.entry.datapth == Some(dp)
  {
    if arr != [] {
      var n := |arr| - 1;
      FileThere(arr[..n], deltas, dp);
      assert arr == arr[..n] + [arr[n]];
    }
  }

  /** One backup: the two programs, the old manifest and its data, the scan list. */
  datatype Setting = Setting(env: Env, conf: Conf, lib: Codec, platform: Platform, cman: seq<Sbuf>, was: Dir,
                             wasGz: set<string>, p1: seq<Sbuf>)
  {
    ghost predicate Ok(content: Contents) {
      && Faithful(env, lib, was, wasGz, content) && OwnPaths(env, cman, p1) && Undisturbed(lib, cman, p1, was, content)
      && OwnsData(platform, lib, cman, was, wasGz) && ScanList(platform, p1)
    }

    ghost function Arrivals(): seq<Arrival> { ExpectedAll(env, RequestsOf(conf, cman, p1)) }

    /** Both logs together, as phase 3 merges them. */
    ghost predicate Listed(e: Sbuf) {
      e in P2Of(env, conf, cman, p1) || e in UnchangedOf(conf, cman, p1)
    }

    /** Deltas are stored by the server's setting. */
    ghost predicate Deltas(patches: Dir) {
      var fwd := Files(Arrivals(), true);
      patches.Keys == fwd.Keys && forall dp :: dp in fwd ==> patches[dp] == lib.Stored(conf.compression, fwd[dp])
    }

    /** The shuffle that follows. */
    ghost predicate PlanFor(plan: Plan) {
      && plan.lib == lib && plan.serverGz == conf.compression && plan.was == was && plan.wasGz == wasGz
      && plan.received == Files(Arrivals(), false) && Deltas(plan.patches)
      && (forall e :: Listed(e) && e.datapth.Some? ==> (Gz(e) <==> e.datapth.value in plan.gz))
      && forall dp :: (dp in plan.gz <==> dp in wasGz) || exists e :: Listed(e) && e.datapth == Some(dp)
    }

    /** A delta was asked for, which is only done of files that are stored by the
        server's setting; the answer is a record of the other kind. */
    ghost predicate Mismatched(e: Sbuf) {
      var item := ItemFor(conf, cman, e);
      && item.Ask? && item.request.datapth.Some? && Answers(env, item.request.cmd, item.request.path)
      && Gz(Expected(env, item.request)[0].entry) != conf.compression
    }

    ghost function MismatchedKeys(): set<Key> { set i | 0 <= i < |p1| && Mismatched(p1[i]) :: KeyOf(p1[i]) }

    /** Old files of such deltas that are not compressed do not look as if they were. */
    ghost predicate Clear() {
      forall e :: e in p1 && Mismatched(e) && !conf.compression ==>
        var dp := ItemFor(conf, cman, e).request.datapth.value;
        dp in was ==> lib.Inflated(true, was[dp]).None?
    }

    /** There are none, or they are sure to be found out. */
    ghost predicate Decided() { MismatchedKeys() == {} || (Clear() && lib.RefusesGzip()) }
  }

  lemma AskedRecord(conf: Conf, cman: seq<Sbuf>, e: Sbuf, r: Request)
    requires ItemFor(conf, cman, e) == Ask(r)
    ensures r.cmd == e.cmd && r.path == e.path && FileData(r.cmd)
    ensures r.datapth.Some? ==>
              var former := Lookup(cman, KeyOf(e));
              && former.Some? && former.value in cman && KeyOf(former.value) == KeyOf(e)
              && former.value.datapth == r.datapth && r.cmd == CMD_FILE
  {
  }

  lemma LoggedRecord(conf: Conf, cman: seq<Sbuf>, e: Sbuf, cb: Sbuf)
    requires ItemFor(conf, cman, e) == Log(cb)
    ensures cb == e || (cb in cman && Lookup(cman, KeyOf(e)) == Some(cb))
    ensures KeyOf(cb) == KeyOf(e) && cb.cmd == e.cmd
    ensures FileData(e.cmd) ==> cb in cman && Lookup(cman, KeyOf(e)) == Some(cb) && SameTimes(e, cb)
  {
  }

  /** Two requests against the same old data are for the same file. */
  lemma SameOldData(w: Setting, content: Contents, e: Sbuf, r: Request, f: Sbuf, q: Request)
    requires w.Ok(content) && ItemFor(w.conf, w.cman, e) == Ask(r) && ItemFor(w.conf, w.cman, f) == Ask(q)
    requires r.datapth.Some? && r.datapth == q.datapth
    ensures KeyOf(e) == KeyOf(f) && r.path == q.path && r.cmd == q.cmd == CMD_FILE
  {
    hide ItemFor, Lookup;
    AskedRecord(w.conf, w.cman, e, r);
    AskedRecord(w.conf, w.cman, f, q);
  }

  /** What came in is found: a file sent whole under its new path, a delta under the
      old one. Either gives what the client has, but for a mismatched delta. */
  lemma ArrivedGoal(w: Setting, content: Contents, plan: Plan, a: Arrival, r: Request, e: Sbuf)
    requires w.Ok(content) && w.PlanFor(plan) && a in Expected(w.env, r) && e in w.p1
    requires ItemFor(w.conf, w.cman, e) == Ask(r) && a in w.Arrivals()
    ensures a.entry.datapth.Some? && a.entry.cmd == r.cmd == e.cmd && a.entry.path == r.path == e.path
    ensures !w.Mismatched(e) ==> Obtains(w, plan, a.entry, content(e.cmd, e.path))
    ensures w.Mismatched(e) && w.Clear() && w.lib.RefusesGzip() ==> LostFor(w, plan, a.entry)
    ensures a.entry.datapth.value in plan.patches <==> r.datapth.Some?
    ensures r.datapth.Some? ==> (w.Mismatched(e) <==> !(a.entry.datapth.value in plan.gz <==> w.conf.compression))
  {
    AskedRecord(w.conf, w.cman, e, r);
    EntryIsListed(w, a);
    hide ItemFor, Lookup, RequestsOf, ExpectedAll, Files, OwnsData, Undisturbed, Plan.Goal, Setting.Mismatched;
    hide OwnPaths, Faithful, Obtains, LostFor, Setting.Listed;
    if r.datapth.Some? {
      DeltaArrived(w, content, a, r, e);
      DeltaGoal(w, content, plan, e, r, a);
    } else {
      NotADelta(w, e, r);
      WholeArrived(w, content, a, r, e);
      WholeGoal(w, content, plan, r, a);
    }
  }

  lemma NotADelta(w: Setting, e: Sbuf, r: Request)
    requires ItemFor(w.conf, w.cman, e) == Ask(r) && r.datapth.None?
    ensures !w.Mismatched(e)
  {
  }

  /** All deltas under one old data path are the same. */
  lemma DeltaArrived(w: Setting, content: Contents, a: Arrival, r: Request, e: Sbuf)
    requires w.Ok(content) && a in Expected(w.env, r) && e in w.p1 && r.datapth.Some?
    requires ItemFor(w.conf, w.cman, e) == Ask(r) && a in w.Arrivals()
    ensures var dp, fwd := r.datapth.value, Files(w.Arrivals(), true);
            && dp in w.was && dp in fwd && a.entry.datapth == r.datapth
            && fwd[dp] == w.lib.delta(w.lib.ReadAs(dp in w.wasGz, w.was[dp]), content(CMD_FILE, r.path))
  {
    hide ItemFor, Lookup, RequestsOf, ExpectedAll, Files, OwnsData, Undisturbed, OwnPaths;
    var dp, arr := r.datapth.value, w.Arrivals();
    OldDataIsThere(w, content, e, r);
    var delta := w.lib.delta(w.lib.ReadAs(dp in w.wasGz, w.was[dp]), content(CMD_FILE, r.path));
    forall b | b in arr && b.isDelta && b.entry.datapth == Some(dp) ensures b.content == delta {
      var q := ArrivalHasRequest(w.env, RequestsOf(w.conf, w.cman, w.p1), b);
      var f := RequestHasRecord(w.conf, w.cman, w.p1, q);
      SameOldData(w, content, e, r, f, q);
    }
    FileIs(arr, true, dp, delta);
  }

  /** Nothing else arrives under a new data path. */
  lemma WholeArrived(w: Setting, content: Contents, a: Arrival, r: Request, e: Sbuf)
    requires w.Ok(content) && a in Expected(w.env, r) && e in w.p1 && r.datapth.None?
    requires ItemFor(w.conf, w.cman, e) == Ask(r) && a in w.Arrivals()
    ensures a.entry.datapth.Some?
    ensures var dp, tmp := a.entry.datapth.value, Files(w.Arrivals(), false);
            dp in tmp && tmp[dp] == a.content && dp !in Files(w.Arrivals(), true)
  {
    hide ItemFor, Lookup, RequestsOf, ExpectedAll, Files, OwnsData, Undisturbed, Faithful;
    var arr := w.Arrivals();
    AskedRecord(w.conf, w.cman, e, r);
    forall b | b in arr && b.entry.datapth == a.entry.datapth ensures b == a {
      var q := ArrivalHasRequest(w.env, RequestsOf(w.conf, w.cman, w.p1), b);
      var f := RequestHasRecord(w.conf, w.cman, w.p1, q);
      AskedRecord(w.conf, w.cman, f, q);
      SameKeySameRecord(w.p1, e, f);
    }
    FileIs(arr, false, a.entry.datapth.value, a.content);
    FileIs(arr, true, a.entry.datapth.value, "");
  }

  /** The record's data can be had, and inflates by its flag to what it should be. */
  ghost predicate Obtains(w: Setting, plan: Plan, e: Sbuf, content: Bytes)
    requires e.datapth.Some?
  {
    var dp := e.datapth.value;
    Reachable(plan, dp) && plan.Goal(dp).Some? && w.lib.Inflated(Gz(e), plan.Goal(dp).value) == Some(content)
  }

  ghost predicate Reads(w: Setting, plan: Plan, e: Sbuf)
    requires e.datapth.Some?
  {
    var dp := e.datapth.value;
    Reachable(plan, dp) && plan.Goal(dp).Some? && w.lib.Inflated(Gz(e), plan.Goal(dp).value).Some?
  }

  /** It cannot be had; that stops the server that does not compress. */
  ghost predicate LostFor(w: Setting, plan: Plan, e: Sbuf) {
    Lost(plan, e) && (Reachable(plan, e.datapth.value) <==> w.conf.compression)
  }

  lemma EntryIsListed(w: Setting, a: Arrival)
    requires a in w.Arrivals()
    ensures w.Listed(a.entry)
  {
    var arr := w.Arrivals();
    var i :| 0 <= i < |arr| && arr[i] == a;
    assert Entries(arr)[i] == a.entry;
  }

  lemma WholeGoal(w: Setting, content: Contents, plan: Plan, r: Request, a: Arrival)
    requires Faithful(w.env, w.lib, w.was, w.wasGz, content) && w.PlanFor(plan)
    requires a in Expected(w.env, r) && r.datapth.None?
    requires var dp := a.entry.datapth.value;
             dp in plan.received && plan.received[dp] == a.content && dp !in plan.patches
    ensures Obtains(w, plan, a.entry, content(r.cmd, r.path))
  {
    assert a.entry == NewRecord(w.env, r.cmd, r.path);
  }

  /** Of a delta old record and server are at one; the new record decides. */
  lemma DeltaGoal(w: Setting, content: Contents, plan: Plan, e: Sbuf, r: Request, a: Arrival)
    requires w.Ok(content) && w.PlanFor(plan) && e in w.p1 && ItemFor(w.conf, w.cman, e) == Ask(r)
    requires a in Expected(w.env, r) && r.datapth.Some? && w.Listed(a.entry)
    requires var dp := r.datapth.value;
             && dp in w.was && dp in Files(w.Arrivals(), true)
             && Files(w.Arrivals(), true)[dp] ==
                w.lib.delta(w.lib.ReadAs(dp in w.wasGz, w.was[dp]), content(CMD_FILE, r.path))
    ensures a.entry.cmd == CMD_FILE && (r.datapth.value in w.wasGz <==> w.conf.compression)
    ensures !w.Mismatched(e) ==> Obtains(w, plan, a.entry, content(CMD_FILE, r.path))
    ensures w.Mismatched(e) && w.Clear() && w.lib.RefusesGzip() ==> LostFor(w, plan, a.entry)
    ensures w.Mismatched(e) <==> !(r.datapth.value in plan.gz <==> w.conf.compression)
  {
    AskedRecord(w.conf, w.cman, e, r);
    AskedByServer(w, content, e, r);
    DeltaReads(w, content, plan, e, r, a);
    hide ItemFor, Lookup, RequestsOf, ExpectedAll, Files, Undisturbed, Setting.Listed, Faithful, OwnPaths, OwnsData;
    hide Plan.Goal, Reachable;
    var dp, g := r.datapth.value, w.conf.compression;
    AgreedDelta(plan, dp, content(CMD_FILE, r.path));
    DisagreedDelta(plan, dp, content(CMD_FILE, r.path));
  }

  /** The delta that came in is the one from what the old file reads as. */
  ghost predicate IsDeltaTo(plan: Plan, dp: string, content: Bytes) {
    && plan.lib.Valid() && dp in plan.was && dp in plan.patches
    && (dp in plan.wasGz <==> plan.serverGz) && plan.lib.Inflated(plan.serverGz, plan.was[dp]).Some?
    && plan.patches[dp] ==
       plan.lib.Stored(plan.serverGz, plan.lib.delta(plan.lib.ReadAs(plan.serverGz, plan.was[dp]), content))
  }

  lemma DeltaReads(w: Setting, content: Contents, plan: Plan, e: Sbuf, r: Request, a: Arrival)
    requires w.Ok(content) && w.PlanFor(plan) && e in w.p1 && ItemFor(w.conf, w.cman, e) == Ask(r)
    requires a in Expected(w.env, r) && r.datapth.Some? && w.Listed(a.entry)
    requires var dp := r.datapth.value;
             && dp in w.was && dp in Files(w.Arrivals(), true)
             && Files(w.Arrivals(), true)[dp] ==
                w.lib.delta(w.lib.ReadAs(dp in w.wasGz, w.was[dp]), content(CMD_FILE, r.path))
    ensures IsDeltaTo(plan, r.datapth.value, content(CMD_FILE, r.path))
    ensures a.entry.datapth == r.datapth && (Gz(a.entry) <==> r.datapth.value in plan.gz)
    ensures w.Mismatched(e) <==> Gz(a.entry) != w.conf.compression
    ensures (w.Mismatched(e) && w.Clear() && !w.conf.compression ==>
               w.lib.Inflated(true, w.was[r.datapth.value]).None?)
  {
    AskedByServer(w, content, e, r);
    hide ItemFor, Lookup, RequestsOf, ExpectedAll, Files, Undisturbed, Setting.Listed, OwnPaths;
  }

  /** If the new record agrees the delta gives what the client has. */
  lemma AgreedDelta(plan: Plan, dp: string, content: Bytes)
    requires IsDeltaTo(plan, dp, content)
    ensures (dp in plan.gz <==> plan.serverGz) ==>
              && Reachable(plan, dp) && plan.Goal(dp) == Some(plan.lib.Stored(plan.serverGz, content))
              && plan.lib.Inflated(plan.serverGz, plan.lib.Stored(plan.serverGz, content)) == Some(content)
  {
    var g := plan.serverGz;
    plan.lib.StoredReads(g, plan.lib.delta(plan.lib.ReadAs(g, plan.was[dp]), content));
    plan.lib.StoredReads(g, content);
    ReadsAlike(plan.lib, g, plan.was[dp]);
  }

  /** If not, it is read the wrong way, and so is the old file. */
  lemma DisagreedDelta(plan: Plan, dp: string, content: Bytes)
    requires IsDeltaTo(plan, dp, content)
    ensures dp !in plan.gz && plan.serverGz && plan.lib.RefusesGzip() ==> plan.Goal(dp).None? && Reachable(plan, dp)
    ensures (dp in plan.gz && !plan.serverGz && plan.lib.Inflated(true, plan.was[dp]).None? ==>
               plan.Goal(dp).None? && !Reachable(plan, dp))
  {
  }

  lemma ReadsAlike(lib: Codec, gz: bool, stored: Bytes)
    requires lib.Valid() && lib.Inflated(gz, stored).Some?
    ensures lib.ReadAs(gz, stored) == lib.Inflated(gz, stored).value
  {
  }

  /** A delta is asked for only if the old file is stored by the server's setting. */
  lemma AskedByServer(w: Setting, content: Contents, e: Sbuf, r: Request)
    requires w.Ok(content) && ItemFor(w.conf, w.cman, e) == Ask(r) && r.datapth.Some?
    ensures r.datapth.value in w.wasGz <==> w.conf.compression
  {
  }

  lemma OldDataIsThere(w: Setting, content: Contents, e: Sbuf, r: Request)
    requires w.Ok(content) && ItemFor(w.conf, w.cman, e) == Ask(r) && r.datapth.Some?
    ensures r.datapth.value in w.was
  {
    hide ItemFor, Lookup;
    AskedRecord(w.conf, w.cman, e, r);
  }

  /** There are deltas only of old data. */
  lemma NoDeltaFor(w: Setting, content: Contents, dp: string)
    requires w.Ok(content) && dp !in w.was
    ensures dp !in Files(w.Arrivals(), true)
  {
    hide ItemFor, Lookup, RequestsOf, ExpectedAll, Files;
    var arr := w.Arrivals();
    forall b | b in arr && b.isDelta && b.entry.datapth == Some(dp) ensures false {
      var q := ArrivalHasRequest(w.env, RequestsOf(w.conf, w.cman, w.p1), b);
      var f := RequestHasRecord(w.conf, w.cman, w.p1, q);
      OldDataIsThere(w, content, f, q);
    }
    FileIs(arr, true, dp, "");
  }

  /** An unchanged record's data stays as it is: nothing came in under its path. */
  lemma LoggedGoal(w: Setting, content: Contents, plan: Plan, e: Sbuf, cb: Sbuf)
    requires w.Ok(content) && w.PlanFor(plan)
    requires e in w.p1 && ItemFor(w.conf, w.cman, e) == Log(cb) && cb.datapth.Some?
    ensures cb in w.cman && cb.datapth.value in w.was && cb.cmd == e.cmd && cb.path == e.path
    ensures cb.datapth.value !in plan.patches && plan.Goal(cb.datapth.value) == Some(w.was[cb.datapth.value])
    ensures Reads(w, plan, cb) && (FileData(e.cmd) ==> Obtains(w, plan, cb, content(cb.cmd, cb.path)))
  {
    hide ItemFor, Lookup, RequestsOf, ExpectedAll, Files;
    LoggedRecord(w.conf, w.cman, e, cb);
    var dp, arr := cb.datapth.value, w.Arrivals();
    forall b | b in arr && b.entry.datapth == Some(dp) ensures false {
      var q := ArrivalHasRequest(w.env, RequestsOf(w.conf, w.cman, w.p1), b);
      var f := RequestHasRecord(w.conf, w.cman, w.p1, q);
      AskedRecord(w.conf, w.cman, f, q);
      SameKeySameRecord(w.p1, e, f);
    }
    FileIs(arr, true, dp, "");
    FileIs(arr, false, dp, "");
  }

  /** Where a listed record keeps its data: under a new name, or its old one. */
  lemma ListedNames(w: Setting, content: Contents, e: Sbuf) returns (s: Sbuf)
    requires w.Ok(content) && w.Listed(e)
    ensures s in w.p1 && s.cmd == e.cmd && s.path == e.path
    ensures FileData(e.cmd) ==> e.datapth.Some?
    ensures e.datapth.Some? ==>
              (e.datapth.value == w.env.newPath(s.cmd, s.path) ||
               exists cb :: cb in w.cman && cb.datapth == e.datapth && KeyOf(cb) == KeyOf(e))
  {
    hide ItemFor, Lookup, RequestsOf, ExpectedAll, UnchangedOf;
    if e in UnchangedOf(w.conf, w.cman, w.p1) {
      s := LoggedHasRecord(w.conf, w.cman, w.p1, e);
      LoggedRecord(w.conf, w.cman, s, e);
    } else {
      var i :| 0 <= i < |w.Arrivals()| && w.Arrivals()[i].entry == e;
      var r := ArrivalHasRequest(w.env, RequestsOf(w.conf, w.cman, w.p1), w.Arrivals()[i]);
      s := RequestHasRecord(w.conf, w.cman, w.p1, r);
      AskedRecord(w.conf, w.cman, s, r);
    }
  }

  /** The scanned record that a listed one comes from, and what it came to. */
  lemma ListedFrom(w: Setting, content: Contents, plan: Plan, e: Sbuf) returns (s: Sbuf)
    requires w.Ok(content) && w.PlanFor(plan) && w.Listed(e)
    ensures s in w.p1 && KeyOf(s) == KeyOf(e) && s.cmd == e.cmd
    ensures FileData(e.cmd) ==> e.datapth.Some?
    ensures e.datapth.Some? && !w.Mismatched(s) ==> Reads(w, plan, e)
    ensures (IsDelta(plan, e) ==>
               (w.Mismatched(s) <==> !(e.datapth.value in plan.gz <==> w.conf.compression)))
    ensures FileData(e.cmd) && !w.Mismatched(s) ==> Obtains(w, plan, e, content(e.cmd, e.path))
    ensures w.Mismatched(s) ==> e.datapth.Some? && e.datapth.value in plan.patches
    ensures w.Mismatched(s) && w.Clear() && w.lib.RefusesGzip() ==> LostFor(w, plan, e)
  {
    hide ItemFor, Lookup, RequestsOf, ExpectedAll, UnchangedOf, Files, Plan.Goal;
    if e in UnchangedOf(w.conf, w.cman, w.p1) {
      s := LoggedHasRecord(w.conf, w.cman, w.p1, e);
      LoggedRecord(w.conf, w.cman, s, e);
      if e.datapth.Some? { LoggedGoal(w, content, plan, s, e); }
    } else {
      var i :| 0 <= i < |w.Arrivals()| && w.Arrivals()[i].entry == e;
      var a := w.Arrivals()[i];
      var r := ArrivalHasRequest(w.env, RequestsOf(w.conf, w.cman, w.p1), a);
      s := RequestHasRecord(w.conf, w.cman, w.p1, r);
      ArrivedGoal(w, content, plan, a, r, s);
      AskedRecord(w.conf, w.cman, s, r);
    }
  }

  /** Every listed record's data can be had, and is what the client has, unless its
      delta is mismatched; then it is lost. */
  lemma ListedGoal(w: Setting, content: Contents, plan: Plan, e: Sbuf)
    requires w.Ok(content) && w.PlanFor(plan) && w.Listed(e)
    ensures FileData(e.cmd) ==> e.datapth.Some?
    ensures KeyOf(e) !in w.MismatchedKeys() ==>
              && (e.datapth.Some? ==> Reads(w, plan, e))
              && (FileData(e.cmd) ==> Obtains(w, plan, e, content(e.cmd, e.path)))
    ensures KeyOf(e) in w.MismatchedKeys() ==> IsDelta(plan, e)
    ensures (IsDelta(plan, e) ==>
               (KeyOf(e) in w.MismatchedKeys() <==> !(e.datapth.value in plan.gz <==> w.conf.compression)))
    ensures KeyOf(e) in w.MismatchedKeys() && w.Clear() && w.lib.RefusesGzip() ==> LostFor(w, plan, e)
  {
    var s := ListedFrom(w, content, plan, e);
    hide Setting.Ok, Setting.Listed, Setting.PlanFor, Setting.Mismatched, Obtains, Reads, LostFor, Plan.Goal;
    ScannedOnce(w, s);
  }

  lemma ScannedOnce(w: Setting, s: Sbuf)
    requires Sorted(w.p1) && s in w.p1
    ensures KeyOf(s) in w.MismatchedKeys() <==> w.Mismatched(s)
  {
    hide Setting.Mismatched;
    var k :| 0 <= k < |w.p1| && w.p1[k] == s;
    forall i | 0 <= i < |w.p1| && KeyOf(w.p1[i]) == KeyOf(s) ensures i == k {
      BeforeTotal(KeyOf(w.p1[i]), KeyOf(s));
    }
  }

  lemma SettingIsSound(w: Setting, content: Contents)
    requires w.Ok(content)
    ensures Sorted(w.p1) && Sorted(w.cman) && AllSent(w.platform, w.p1) && AllSent(w.platform, w.cman) && OldOk(w.cman)
  {
  }

  /** No two listed records share their data. */
  lemma ListedApart(w: Setting, content: Contents, e: Sbuf, f: Sbuf)
    requires w.Ok(content) && w.Listed(e) && w.Listed(f) && e.datapth.Some? && e.datapth == f.datapth
    ensures KeyOf(e) == KeyOf(f)
  {
    hide Setting.Listed;
    var s := ListedNames(w, content, e);
    var t := ListedNames(w, content, f);
  }

  /** The merged manifest, which lists just what the logs do. */
  ghost predicate Merges(w: Setting, m: seq<Sbuf>) {
    AllSent(w.platform, m) && IsMerge(UnchangedOf(w.conf, w.cman, w.p1), P2Of(w.env, w.conf, w.cman, w.p1), false, m)
  }

  lemma MergeLists(w: Setting, m: seq<Sbuf>)
    requires Merges(w, m) && Sorted(w.p1)
    ensures Sorted(m) && forall e :: e in m <==> w.Listed(e)
  {
    var uc, p2 := UnchangedOf(w.conf, w.cman, w.p1), P2Of(w.env, w.conf, w.cman, w.p1);
    LogKeys(w.env, w.conf, w.cman, w.p1);
    hide P2Of, UnchangedOf;
    forall e | e in uc ensures KeyOf(e) !in Keys(p2) {
      assert KeyOf(e) in Keys(uc);
    }
  }

  /** Phase 4 is given what it needs. */
  lemma MergeIsOk(w: Setting, content: Contents, m: seq<Sbuf>, patches: Dir)
    requires w.Ok(content) && Merges(w, m) && w.Deltas(patches)
    ensures ManifestOk(m, patches)
  {
    SettingIsSound(w, content);
    hide Setting.Ok, Setting.Listed, Merges, ExpectedAll, RequestsOf, Files;
    MergeLists(w, m);
    forall e, f | e in m && f in m && e.datapth.Some? && e.datapth == f.datapth ensures Gz(e) == Gz(f) {
      ListedApart(w, content, e, f);
      SameKeySameRecord(m, e, f);
    }
    forall e | e in m && e.datapth.Some? && e.datapth.value in patches ensures !SentAsIs(e.cmd) {
      DeltasArePlain(w, content, m, e);
    }
  }

  lemma DeltasArePlain(w: Setting, content: Contents, m: seq<Sbuf>, e: Sbuf)
    requires w.Ok(content) && Merges(w, m) && Sorted(m) && (forall f :: f in m <==> w.Listed(f)) && e in m
    requires e.datapth.Some? && e.datapth.value in Files(w.Arrivals(), true)
    ensures e.cmd == CMD_FILE
  {
    hide Setting.Ok, Setting.Listed, Merges, ExpectedAll, RequestsOf, Files, Sorted;
    FileThere(w.Arrivals(), true, e.datapth.value);
    var b :| b in w.Arrivals() && b.isDelta && b.entry.datapth == e.datapth;
    EntryIsListed(w, b);
    ListedApart(w, content, e, b.entry);
    SameKeySameRecord(m, e, b.entry);
    var r := ArrivalHasRequest(w.env, RequestsOf(w.conf, w.cman, w.p1), b);
    var s := RequestHasRecord(w.conf, w.cman, w.p1, r);
    AskedRecord(w.conf, w.cman, s, r);
  }

  /** The job that phase 4 is given is the shuffle of this setting. */
  lemma JobIsPlan(w: Setting, content: Contents, m: seq<Sbuf>, job: Job)
    requires w.Ok(content) && Merges(w, m) && ManifestOk(m, job.patches)
    requires job.lib == w.lib && job.serverGz == w.conf.compression && job.was == w.was && job.wasGz == w.wasGz
    requires job.received == Files(w.Arrivals(), false) && w.Deltas(job.patches)
    requires job.gz == CompressedIn(m, w.wasGz)
    ensures w.PlanFor(job.Planned(false)) && FlagsAre(m, job.gz)
  {
    SettingIsSound(w, content);
    hide Setting.Ok, Setting.Listed, Setting.Deltas, Merges, Files;
    MergeLists(w, m);
    forall e | e in m && e.datapth.Some? ensures Gz(e) <==> e.datapth.value in job.gz {}
    forall dp ensures (dp in job.gz <==> dp in job.wasGz) || exists e :: w.Listed(e) && e.datapth == Some(dp) {}
  }

  /** Every old file can be turned back to: if its delta applies at all, old record,
      new record and server are at one. */
  lemma AllTurnBack(w: Setting, content: Contents, plan: Plan, dp: string)
    requires w.Ok(content) && w.PlanFor(plan) && w.Decided() && dp in w.was
    ensures plan.Sound(dp)
  {
    hide ItemFor, Lookup, RequestsOf, ExpectedAll, Files, Setting.Listed, Setting.Mismatched;
    var arr := w.Arrivals();
    FileThere(arr, true, dp);
    FileThere(arr, false, dp);
    if dp in plan.patches {
      var b :| b in arr && b.isDelta && b.entry.datapth == Some(dp);
      DeltaTurnsBack(w, content, plan, b);
    } else if dp !in plan.received && !(dp in plan.gz <==> dp in w.wasGz) {
      var e :| w.Listed(e) && e.datapth == Some(dp);
      ListedUnchanged(w, content, plan, e);
    }
  }

  lemma DeltaTurnsBack(w: Setting, content: Contents, plan: Plan, b: Arrival)
    requires w.Ok(content) && w.PlanFor(plan) && w.Decided() && b in w.Arrivals() && b.isDelta
    requires b.entry.datapth.Some? && b.entry.datapth.value in plan.patches
    ensures plan.Sound(b.entry.datapth.value)
  {
    hide ItemFor, Lookup, RequestsOf, ExpectedAll, Files, Plan.Goal;
    var r := ArrivalHasRequest(w.env, RequestsOf(w.conf, w.cman, w.p1), b);
    var e := RequestHasRecord(w.conf, w.cman, w.p1, r);
    ArrivedGoal(w, content, plan, b, r, e);
    AskedByServer(w, content, e, r);
    ScannedOnce(w, e);
    EntryIsListed(w, b);
  }

  /** A listed record whose file did not come in is an old one. */
  lemma ListedUnchanged(w: Setting, content: Contents, plan: Plan, e: Sbuf)
    requires w.Ok(content) && w.PlanFor(plan) && w.Listed(e) && e.datapth.Some?
    requires e.datapth.value !in plan.patches && e.datapth.value !in plan.received
    ensures e in w.cman && (Gz(e) <==> e.datapth.value in w.wasGz)
  {
    hide ItemFor, Lookup, RequestsOf, ExpectedAll, UnchangedOf, Files;
    var arr := w.Arrivals();
    if e in UnchangedOf(w.conf, w.cman, w.p1) {
      var s := LoggedHasRecord(w.conf, w.cman, w.p1, e);
      LoggedRecord(w.conf, w.cman, s, e);
    } else {
      var i :| 0 <= i < |arr| && arr[i].entry == e;
      assert arr[i] in arr;
      FileThere(arr, arr[i].isDelta, e.datapth.value);
    }
  }

  // ----- The whole of it -----

  function PreviousManifest(vs: seq<Version>): seq<Sbuf> {
    if vs == [] then [] else vs[|vs| - 1].manifest
  }

  function PreviousGz(vs: seq<Version>): set<string> {
    if vs == [] then {} else vs[|vs| - 1].gz
  }

  /** The newest backup holds, for each file it lists, what the client had. */
  ghost predicate HoldsFiles(lib: Codec, vs: seq<Version>, content: Contents) {
    vs != [] &&
    var v := vs[|vs| - 1];
    forall e :: e in v.manifest && FileData(e.cmd) ==>
      e.datapth.Some? && e.datapth.value in v.held &&
      lib.Inflated(Gz(e), v.held[e.datapth.value]) == Some(content(e.cmd, e.path))
  }

  /** All that is listed can be found, unless a mismatched delta is compressed; such
      a delta is lost, and nothing else is. */
  lemma WhatIsLost(w: Setting, content: Contents, m: seq<Sbuf>, plan: Plan)
    requires w.Ok(content) && Merges(w, m) && w.PlanFor(plan) && w.Decided()
    ensures forall e :: e in m ==> (Lost(plan, e) <==> KeyOf(e) in w.MismatchedKeys())
    ensures Findable(plan, m) <==> w.conf.compression || w.MismatchedKeys() == {}
  {
    SettingIsSound(w, content);
    MergeLists(w, m);
    forall e | e in m
      ensures Lost(plan, e) <==> KeyOf(e) in w.MismatchedKeys()
      ensures e.datapth.Some? ==>
                (Reachable(plan, e.datapth.value) <==> KeyOf(e) !in w.MismatchedKeys() || w.conf.compression)
    {
      OneLost(w, content, plan, e);
    }
    if w.MismatchedKeys() != {} {
      var k :| k in w.MismatchedKeys();
      var e := MismatchedIsListed(w, m, k);
      ListedGoal(w, content, plan, e);
    }
  }

  lemma OneLost(w: Setting, content: Contents, plan: Plan, e: Sbuf)
    requires w.Ok(content) && w.PlanFor(plan) && w.Decided() && w.Listed(e)
    ensures Lost(plan, e) <==> KeyOf(e) in w.MismatchedKeys()
    ensures e.datapth.Some? ==>
              (Reachable(plan, e.datapth.value) <==> KeyOf(e) !in w.MismatchedKeys() || w.conf.compression)
  {
    ListedGoal(w, content, plan, e);
  }

  lemma MismatchedIsListed(w: Setting, m: seq<Sbuf>, k: Key) returns (e: Sbuf)
    requires Merges(w, m) && Sorted(w.p1) && k in w.MismatchedKeys()
    ensures e in m && KeyOf(e) == k
  {
    LogKeys(w.env, w.conf, w.cman, w.p1);
    MergeKeys(UnchangedOf(w.conf, w.cman, w.p1), P2Of(w.env, w.conf, w.cman, w.p1), m);
    assert k in KeptKeys(w.env, w.conf, w.cman, w.p1);
    var i :| 0 <= i < |m| && KeyOf(m[i]) == k;
    e := m[i];
  }

  /** A crash can cost an old file its data just if a mismatched delta comes before
      one that is not. */
  lemma CarefulExactly(w: Setting, content: Contents, m: seq<Sbuf>, plan: Plan)
    requires w.Ok(content) && Merges(w, m) && w.PlanFor(plan) && w.Decided()
    ensures Careful(plan, m) <==> MismatchedLast(w, plan, m)
  {
    SettingIsSound(w, content);
    MergeLists(w, m);
    hide Setting.Ok, Merges, Setting.PlanFor, Setting.Decided, Setting.MismatchedKeys, Setting.Listed;
    forall i, j | 0 <= i < j < |m|
      ensures Clash(plan, m[i], m[j]) <==> !InTurn(w, plan, m[i], m[j])
    {
      assert m[i] in m && m[j] in m;
      OneLost(w, content, plan, m[i]);
      ListedGoal(w, content, plan, m[i]);
      ListedGoal(w, content, plan, m[j]);
    }
  }

  ghost predicate InTurn(w: Setting, plan: Plan, d: Sbuf, e: Sbuf) {
    KeyOf(d) in w.MismatchedKeys() && IsDelta(plan, e) ==> KeyOf(e) in w.MismatchedKeys()
  }

  ghost predicate MismatchedLast(w: Setting, plan: Plan, m: seq<Sbuf>) {
    forall i, j :: 0 <= i < j < |m| ==> InTurn(w, plan, m[i], m[j])
  }

  /** A first backup has no deltas. */
  lemma FirstHasAll(w: Setting, content: Contents, m: seq<Sbuf>, plan: Plan)
    requires w.Ok(content) && Merges(w, m) && w.PlanFor(plan) && w.was == map[]
    ensures plan.patches == map[] && Covered(m, plan.received) && FromManifest(plan.received, m)
    ensures Findable(plan, m)
  {
    SettingIsSound(w, content);
    MergeLists(w, m);
    hide Setting.Ok, Setting.Listed, Files, ExpectedAll, RequestsOf, Merges;
    forall dp ensures dp !in Files(w.Arrivals(), true) { NoDeltaFor(w, content, dp); }
    forall e | e in m && e.datapth.Some? ensures e.datapth.value in plan.received {
      ListedGoal(w, content, plan, e);
    }
    forall dp | dp in plan.received ensures exists e :: e in m && e.datapth == Some(dp) {
      FileThere(w.Arrivals(), false, dp);
      var a :| a in w.Arrivals() && a.entry.datapth == Some(dp);
      EntryIsListed(w, a);
    }
  }

  /** What is left of the merged manifest holds what it should. */
  ghost predicate KeptWell(w: Setting, content: Contents, plan: Plan, e: Sbuf) {
    && (FileData(e.cmd) ==> e.datapth.Some? && Obtains(w, plan, e, content(e.cmd, e.path)))
    && (e.datapth.Some? ==> Reads(w, plan, e) && (Gz(e) <==> e.datapth.value in plan.gz))
  }

  lemma AllKeptWell(w: Setting, content: Contents, m: seq<Sbuf>, plan: Plan, kept: seq<Sbuf>)
    requires w.Ok(content) && Merges(w, m) && w.PlanFor(plan) && w.Decided()
    requires forall e :: e in kept <==> e in m && !Lost(plan, e)
    ensures forall e :: e in kept ==> w.Listed(e) && KeptWell(w, content, plan, e)
    ensures Keys(kept) == KeptKeys(w.env, w.conf, w.cman, w.p1) - w.MismatchedKeys()
  {
    WhatIsLost(w, content, m, plan);
    SettingIsSound(w, content);
    MergeLists(w, m);
    KeysKept(w, m, kept);
    FlagOf(w, plan);
    hide Setting.Ok, Setting.Listed, Setting.MismatchedKeys, Setting.PlanFor, Setting.Decided, Merges, Plan.Goal;
    hide Obtains, Reads, KeptKeys, Lost;
    forall e | e in kept ensures w.Listed(e) && KeptWell(w, content, plan, e) {
      ListedGoal(w, content, plan, e);
    }
  }

  lemma FlagOf(w: Setting, plan: Plan)
    requires w.PlanFor(plan)
    ensures forall e :: w.Listed(e) && e.datapth.Some? ==> (Gz(e) <==> e.datapth.value in plan.gz)
  {
  }

  /** What was intended is a backup of the client's files, fit to be built on. */
  lemma IntendedHoldsFiles(w: Setting, content: Contents, m: seq<Sbuf>, plan: Plan, vs: seq<Version>)
    requires w.Ok(content) && Merges(w, m) && w.PlanFor(plan) && w.Decided()
    requires Intended(vs, m, plan) && vs[|vs| - 1].gz == plan.gz
    ensures HoldsFiles(w.lib, vs, content)
    ensures OwnsData(w.platform, w.lib, PreviousManifest(vs), PreviousData(vs), PreviousGz(vs))
    ensures Keys(PreviousManifest(vs)) == KeptKeys(w.env, w.conf, w.cman, w.p1) - w.MismatchedKeys()
  {
    var v := vs[|vs| - 1];
    hide Setting.Ok, Setting.Listed, Setting.PlanFor, Setting.Decided, Setting.MismatchedKeys, KeptKeys, Plan.Goal;
    AllKeptWell(w, content, m, plan, v.manifest);
    IsSent(w, m);
    FewerSent(w.platform, m, v.manifest);
    hide Merges, Lost, KeptWell, Intended, OwnsData, HoldsFiles;
    KeptIsOwned(w, content, plan, m, vs, v);
    KeptIsHeld(w, content, plan, m, vs);
  }

  lemma IsSent(w: Setting, m: seq<Sbuf>)
    requires Merges(w, m)
    ensures AllSent(w.platform, m)
  {
  }

  lemma KeptIsHeld(w: Setting, content: Contents, plan: Plan, m: seq<Sbuf>, vs: seq<Version>)
    requires Intended(vs, m, plan)
    requires forall e :: e in PreviousManifest(vs) ==> KeptWell(w, content, plan, e)
    ensures HoldsFiles(w.lib, vs, content)
  {
    hide Plan.Goal, Lost, Reachable, Sorted;
    var v := vs[|vs| - 1];
    forall e | e in v.manifest && FileData(e.cmd)
      ensures e.datapth.Some? && e.datapth.value in v.held
      ensures w.lib.Inflated(Gz(e), v.held[e.datapth.value]) == Some(content(e.cmd, e.path))
    {
      assert KeptWell(w, content, plan, e);
    }
  }

  lemma KeptIsOwned(w: Setting, content: Contents, plan: Plan, m: seq<Sbuf>, vs: seq<Version>, v: Version)
    requires w.Ok(content) && Intended(vs, m, plan) && v == vs[|vs| - 1] && v.gz == plan.gz
    requires AllSent(w.platform, v.manifest)
    requires forall e :: e in v.manifest ==> w.Listed(e) && KeptWell(w, content, plan, e)
    ensures OwnsData(w.platform, w.lib, v.manifest, v.data, v.gz)
  {
    forall e, f | e in v.manifest && f in v.manifest && e.datapth.Some? && e.datapth == f.datapth ensures e == f {
      ListedApart(w, content, e, f);
      SameKeySameRecord(v.manifest, e, f);
    }
    hide Setting.Ok, Setting.Listed, Plan.Goal, Lost, Reachable, Sorted, AllSent, OwnsData;
    forall i | 0 <= i < |v.manifest| && FileData(v.manifest[i].cmd) ensures v.manifest[i].datapth.Some? {
      assert v.manifest[i] in v.manifest;
    }
    forall dp | dp in v.data ensures w.lib.Inflated(dp in plan.gz, v.data[dp]).Some? {
      var e :| e in v.manifest && e.datapth == Some(dp);
      assert KeptWell(w, content, plan, e);
    }
    InAll(w.platform, w.lib, v.manifest, v.data, v.gz);
  }

  lemma InAll(p: Platform, lib: Codec, m: seq<Sbuf>, data: Dir, gz: set<string>)
    requires Sorted(m) && AllSent(p, m) && OldOk(m) && Covered(m, data) && FlagsAre(m, gz)
    requires forall e, f :: e in m && f in m && e.datapth.Some? && e.datapth == f.datapth ==> e == f
    requires forall dp :: dp in data ==> lib.Inflated(dp in gz, data[dp]).Some?
    ensures OwnsData(p, lib, m, data, gz)
  {
  }

  lemma FewerSent(p: Platform, m: seq<Sbuf>, m': seq<Sbuf>)
    requires AllSent(p, m) && forall e :: e in m' ==> e in m
    ensures AllSent(p, m')
  {
    forall i | 0 <= i < |m'| ensures Sends(p, m'[i]) { assert m'[i] in m; }
  }

  lemma KeysKept(w: Setting, m: seq<Sbuf>, m': seq<Sbuf>)
    requires Merges(w, m) && Sorted(w.p1)
    requires forall e :: e in m' <==> e in m && KeyOf(e) !in w.MismatchedKeys()
    ensures Keys(m') == KeptKeys(w.env, w.conf, w.cman, w.p1) - w.MismatchedKeys()
  {
    var gone, kept := w.MismatchedKeys(), KeptKeys(w.env, w.conf, w.cman, w.p1);
    LogKeys(w.env, w.conf, w.cman, w.p1);
    MergeKeys(UnchangedOf(w.conf, w.cman, w.p1), P2Of(w.env, w.conf, w.cman, w.p1), m);
    hide Setting.MismatchedKeys, KeptKeys, Merges;
    forall k ensures k in Keys(m') <==> k in kept - gone {
      if k in kept - gone {
        var i :| 0 <= i < |m| && KeyOf(m[i]) == k;
        assert m[i] in m';
      }
      if k in Keys(m') {
        var i :| 0 <= i < |m'| && KeyOf(m'[i]) == k;
        assert m'[i] in m && KeyOf(m'[i]) in Keys(m);
      }
    }
  }

  /** What the next backup of a store starts from. */
  ghost function SettingOf(env: Env, conf: Conf, lib: Codec, p: Platform, vs: seq<Version>, p1: seq<Sbuf>): Setting {
    Setting(env, conf, lib, p, PreviousManifest(vs), PreviousData(vs), PreviousGz(vs), p1)
  }

  /** What phase 4 has to do, and what that foretells. */
  ghost predicate ReadyToFinish(w: Setting, job: Job) {
    && Merges(w, job.scanned) && w.PlanFor(job.Planned(false))
    && (w.Decided() ==> AllSound(job) && Foretold(w, job))
  }

  ghost predicate Foretold(w: Setting, job: Job) {
    && (Findable(job.Planned(false), job.scanned) <==> w.conf.compression || w.MismatchedKeys() == {})
    && (Careful(job.Planned(false), job.scanned) <==> MismatchedLast(w, job.Planned(false), job.scanned))
  }

  /** Phases 2 and 3, up to what phase 4 has to do. */
  method BackupToPhase3(store: BackupStore, env: Env, conf: Conf, p: Platform, p1: seq<Sbuf>, ghost content: Contents,
                        steps: nat)
    returns (done: bool, manifest: seq<Sbuf>, received: Dir, stored: Dir, ghost job: Job)
    requires store.Valid() && conf.compression == store.conf.compression
    requires SettingOf(env, conf, store.lib, p, store.vs, p1).Ok(content)
    ensures job == NextJob(store.lib, store.conf, store.vs, p, manifest, received, stored)
    ensures done ==> ReadyToFinish(SettingOf(env, conf, store.lib, p, store.vs, p1), job)
    ensures done ==> Sorted(manifest) && AllSent(p, manifest) && ManifestOk(manifest, stored)
    ensures (done && store.vs == [] ==>
               && Covered(manifest, received) && FromManifest(received, manifest) && stored == map[]
               && Findable(job.Planned(false), job.scanned))
  {
    hide Setting.Ok, KeptKeys, ExpectedAll, RequestsOf, Files, IsMerge, Covered, FromManifest, Sorted, AllSent;
    hide Setting.PlanFor, Setting.Decided, Setting.MismatchedKeys, Setting.Deltas, OwnsData, ManifestOk, StoreOk;
    hide Foretold, Findable, KeepOk, DoHardlinkedArchive, CompressedIn, AllSound, Run;
    var cman := PreviousManifest(store.vs);
    ghost var w := SettingOf(env, conf, store.lib, p, store.vs, p1);
    SettingIsSound(w, content);
    var patches;
    done, manifest, received, patches := BackupPhases23(env, conf, p, p1, cman, store.vs != [], steps);
    stored := map dp | dp in patches :: store.lib.Stored(conf.compression, patches[dp]);
    job := NextJob(store.lib, store.conf, store.vs, p, manifest, received, stored);
    if done {
      StoredDeltas(w, received, patches, stored);
      MergeIsOk(w, content, manifest, stored);
      JobIsPlan(w, content, manifest, job);
      if store.vs == [] { FirstHasAll(w, content, manifest, job.Planned(false)); }
      if w.Decided() { Foreseen(w, content, manifest, job); }
    }
  }

  /** From a scan list to a backup in the store, whatever the interleaving of the two
      programs, and wherever and however often phase 4 is cut short. The new backup
      lists the scanned keys that the client was not asked for in vain and whose
      deltas are not mismatched, and holds for every file what the client had; it is
      fit to be built on by the next one. `job` is what phase 4 had to do, `d` what
      it left on disk, `from` what its last attempt started from. */
  method Backup(store: BackupStore, env: Env, conf: Conf, p: Platform, p1: seq<Sbuf>, ghost content: Contents,
                steps: nat, leftover: Option<Tree>, attempts: nat, crashes: nat)
    returns (done: bool, r: Outcome, ghost job: Job, ghost d: Disk, ghost from: Disk)
    requires store.Valid() && conf.compression == store.conf.compression && attempts > 0
    requires SettingOf(env, conf, store.lib, p, store.vs, p1).Ok(content)
    modifies store
    ensures (r.Done? ==> done) && (!r.Done? ==> store.Valid() && store.vs == old(store.vs))
    ensures done && old(store.vs) != [] ==> DiskOk(job, d) && Finishes(job, leftover, crashes, r, d, from)
    ensures r.Done? && old(store.vs) != [] ==> store.vs == AsOnDisk(old(store.vs), job, d)
    ensures (done ==> Merges(SettingOf(env, conf, store.lib, p, old(store.vs), p1), job.scanned) &&
                      SettingOf(env, conf, store.lib, p, old(store.vs), p1).PlanFor(job.Planned(false)))
    ensures var w := SettingOf(env, conf, store.lib, p, old(store.vs), p1);
            done && w.Decided() ==>
              // It is held up only by mismatched deltas on a server that does not compress.
              && (crashes == 0 && leftover.None? ==> (r.Done? <==> conf.compression || w.MismatchedKeys() == {}))
              && (r.Done? && d.spoilt == map[] ==>
                    && HoldsFiles(store.lib, store.vs, content)
                    && Keys(PreviousManifest(store.vs)) == KeptKeys(env, conf, w.cman, p1) - w.MismatchedKeys()
                    && OwnsData(p, store.lib, PreviousManifest(store.vs), PreviousData(store.vs), PreviousGz(store.vs)))
              // Nothing is written over but if a mismatched delta comes before another one.
              && (crashes == 0 || MismatchedLast(w, job.Planned(false), job.scanned) ==> d.spoilt == map[])
              // The step is one of the store unless the mark is false.
              && (r.Done? && d.spoilt == map[] ==> (store.Valid() <==> old(store.vs) == [] || MarkIsTrue(job, from)))
    ensures r.Done? && store.Valid() ==> |store.past| == |old(store.past)| + 1 && old(store.trace) <= store.trace
  {
    hide Setting.Ok, HoldsFiles, Happens, Intended, StoreOk, KeptKeys, Merges, Foretold, Run, Covered, FromManifest;
    hide Setting.PlanFor, Setting.Decided, Setting.MismatchedKeys, OwnsData, ManifestOk, DiskOk, Sorted, AllSent;
    hide MismatchedLast, Careful, Findable, KeepOk, DoHardlinkedArchive, CompressedIn, AllSound, MarkIsTrue;
    ghost var w := SettingOf(env, conf, store.lib, p, store.vs, p1);
    var manifest, received, stored;
    done, manifest, received, stored, job := BackupToPhase3(store, env, conf, p, p1, content, steps);
    r := Failed;
    d, from := job.Start(leftover), job.Start(leftover);
    if done {
      r, d, from := store.FinishBackup(p, manifest, received, stored, leftover, attempts, crashes);
      if r.Done? && d.spoilt == map[] && w.Decided() {
        IntendedHoldsFiles(w, content, manifest, job.Planned(false), store.vs);
      }
      if w.Decided() { AsForetold(w, job); }
    }
  }

  lemma AsForetold(w: Setting, job: Job)
    requires Foretold(w, job)
    ensures Findable(job.Planned(false), job.scanned) <==> w.conf.compression || w.MismatchedKeys() == {}
    ensures Careful(job.Planned(false), job.scanned) <==> MismatchedLast(w, job.Planned(false), job.scanned)
  {
    hide Findable, Careful, MismatchedLast, Setting.MismatchedKeys;
  }

  lemma StoredDeltas(w: Setting, received: Dir, patches: Dir, stored: Dir)
    requires received == Files(w.Arrivals(), false) && patches == Files(w.Arrivals(), true)
    requires stored == map dp | dp in patches :: w.lib.Stored(w.conf.compression, patches[dp])
    ensures w.Deltas(stored)
  {
  }

  lemma Foreseen(w: Setting, content: Contents, m: seq<Sbuf>, job: Job)
    requires w.Ok(content) && Merges(w, m) && w.Decided()
    requires w.PlanFor(job.Planned(false)) && job.was == w.was && job.scanned == m
    ensures AllSound(job) && Foretold(w, job)
  {
    WhatIsLost(w, content, m, job.Planned(false));
    CarefulExactly(w, content, m, job.Planned(false));
    hide Setting.Ok, Setting.PlanFor, Setting.Decided, Merges, Plan.Sound;
    forall dp | dp in job.was ensures job.Planned(false).Sound(dp) { AllTurnBack(w, content, job.Planned(false), dp); }
  }

  /** For instance: a file that was stored compressed has changed, and its client has
      stopped compressing it, as it does when the suffix is added to `exclude_comp`. */
  function StoppedCompressing(): Setting {
    var env := Env((cmd: char, path: string) => Answer(false, false, "2", "3:"), (cmd: char, path: string) => ["new"],
                   (path: string, sig: seq<string>) => ["dnew"], (dp: string) => [],
                   (cmd: char, path: string) => ['t', cmd] + path, (stat: string) => Stat(false, 2, 2, 0));
    var was := Sbuf(CMD_FILE, "/f", None, Some("0.gz"), "1", Stat(false, 1, 1, 9), Some("3:"));
    var scanned := Sbuf(CMD_FILE, "/f", None, None, "2", Stat(false, 2, 2, 0), None);
    Setting(env, Conf(true, true), SampleCodec(), Unix, [was], map["0.gz" := "zold"], {"0.gz"}, [scanned])
  }

  /** The file is asked for, answered, and not in the new backup. */
  lemma MismatchLosesTheFile(w: Setting, content: Contents)
    requires w == StoppedCompressing() && content == ((cmd, path) => "new")
    ensures w.Ok(content) && w.Decided()
    ensures Key("/f", 1) in KeptKeys(w.env, w.conf, w.cman, w.p1) && Key("/f", 1) in w.MismatchedKeys()
  {
    StoppedIsFaithful(w, content);
    StoppedHasOwnPaths(w);
    StoppedIsOrderly(w, content);
    StoppedIsMismatched(w);
    assert KeyOf(w.p1[0]) == Key("/f", 1) && w.conf.compression;
    hide StoppedCompressing, SampleCodec, Faithful, OwnPaths, Undisturbed, OwnsData, ScanList;
    hide Setting.Mismatched, Silent, Lookup, ItemFor;
  }

  lemma StoppedIsOrderly(w: Setting, content: Contents)
    requires w == StoppedCompressing() && w.lib.Inflated(true, "zold") == Some("old")
    ensures Undisturbed(w.lib, w.cman, w.p1, w.was, content) && ScanList(w.platform, w.p1)
    ensures OwnsData(w.platform, w.lib, w.cman, w.was, w.wasGz)
  {
    hide SampleCodec, Codec.Inflated, Before;
  }

  lemma StoppedIsFaithful(w: Setting, content: Contents)
    requires w == StoppedCompressing() && content == ((cmd, path) => "new")
    ensures Faithful(w.env, w.lib, w.was, w.wasGz, content) && w.lib.RefusesGzip()
    ensures w.lib.Inflated(true, "zold") == Some("old")
  {
    SampleIsValid();
    assert "zold"[1..] == "old";
    FlattenOne("new");
    FlattenOne("dnew");
    hide Flatten, Codec.Valid, Codec.RefusesGzip;
    forall cmd, path ensures !Gz(NewRecord(w.env, cmd, path)) && w.env.whole(cmd, path) == ["new"] {}
    hide NewRecord, Gz;
    forall dp, path | dp in w.was ensures
      w.env.delta(path, w.env.signature(dp)) == ["dnew"] && w.lib.delta(w.lib.ReadAs(true, w.was[dp]), "new") == "dnew"
    {
    }
  }

  lemma FlattenOne(s: string)
    ensures Flatten([s]) == s
  {
    assert Flatten([s][..0]) == "";
  }

  lemma StoppedHasOwnPaths(w: Setting)
    requires w == StoppedCompressing()
    ensures OwnPaths(w.env, w.cman, w.p1)
  {
    hide SampleCodec;
  }

  lemma StoppedIsMismatched(w: Setting)
    requires w == StoppedCompressing()
    ensures w.Mismatched(w.p1[0]) && !Silent(w.env, w.conf, w.cman, w.p1[0])
  {
    hide SampleCodec, Lookup;
    LookupIs(w.cman, 0);
    var r := Request(CMD_FILE, "/f", Some("0.gz"), "2");
    assert KeyOf(w.cman[0]) == KeyOf(w.p1[0]);
    assert ItemFor(w.conf, w.cman, w.p1[0]) == Ask(r);
    assert Answers(w.env, CMD_FILE, "/f");
    assert !Gz(Expected(w.env, r)[0].entry);
    assert w.Mismatched(w.p1[0]);
  }

  /** And as long as that backup is there, whatever is backed up or removed later,
      restoring it gives the client its files back. */
  lemma ClientFilesComeBack(lib: Codec, evs: seq<Event>, t: seq<seq<Version>>, j: nat, k: nat, i: nat,
                            content: Contents, e: Sbuf)
    requires Run(lib, evs, t) && j <= k < |t|
    requires HoldsFiles(lib, t[j], content) && e in PreviousManifest(t[j]) && FileData(e.cmd)
    requires i < |t[k]| && t[k][i].index == TopIndex(t[j])
    ensures e.datapth.Some? &&
            var got := Restore(lib, t[k], i, e.datapth.value, Gz(e));
            got.Some? && got.value.Opened(lib, Gz(e)) == Some(content(e.cmd, e.path))
  {
    hide Run, Restore;
    var n := |t[j]| - 1;
    assert t[j][n] in t[j];
    RunKeepsStore(lib, evs, t, j);
    assert VersionOk(lib, t[j][n], NextOf(t[j], n));
    EverySurvivorRestores(lib, evs, t, j, k, t[j][n], i, e.datapth.value);
  }
}
