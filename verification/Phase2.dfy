/** Phase 2 on the server: the scan list merged with the old manifest into requests
    and unchanged records, while answers come in (src/backup_phase2_server.c). */
module Phase2 {
  import opened Wrappers
  import opened Records
  import opened Protocol

  datatype Conf = Conf(librsync: bool, compression: bool)

  // ----- What becomes of one scanned record -----

  datatype Item = Log(entry: Sbuf) | Ask(request: Request)

  function NewItem(p1b: Sbuf): Item {
    if FileData(p1b.cmd) then Ask(Request(p1b.cmd, p1b.path, None, p1b.statbuf)) else Log(p1b)
  }

  /** Records that are sent again whenever anything about them changes. */
  predicate NoAttribsOnly(cmd: char) {
    IsMeta(cmd) || IsVss(cmd) || IsVssT(cmd) || cmd == CMD_EFS_FILE
  }

  predicate NoDelta(cmd: char) { cmd == CMD_ENC_FILE || NoAttribsOnly(cmd) }

  /** The record against its own record of the last backup, if there is one. */
  function ItemOf(conf: Conf, p1b: Sbuf, prev: Option<Sbuf>): Item {
    if prev.None? then NewItem(p1b)
    else
      var cb := prev.value;
      if cb.cmd != p1b.cmd then NewItem(p1b)
      else if cb.statp.mtime == p1b.statp.mtime then
        if cb.statp.ctime != p1b.statp.ctime && NoAttribsOnly(cb.cmd) then NewItem(p1b) else Log(cb)
      else if !conf.librsync || NoDelta(cb.cmd) || WasCompressed(cb) != conf.compression then NewItem(p1b)
      else if FileData(p1b.cmd) then Ask(Request(p1b.cmd, p1b.path, cb.datapth, p1b.statbuf))
      else Log(p1b)
  }

  predicate WasCompressed(cb: Sbuf) {
    cb.datapth.Some? && DpthIsCompressed(cb.statp.compression, cb.datapth.value)
  }

  ghost function Lookup(cman: seq<Sbuf>, k: Key): Option<Sbuf> {
    if i :| 0 <= i < |cman| && KeyOf(cman[i]) == k then Some(cman[i]) else None
  }

  lemma LookupIs(cman: seq<Sbuf>, i: nat)
    requires Sorted(cman) && i < |cman|
    ensures Lookup(cman, KeyOf(cman[i])) == Some(cman[i])
  {
    forall j | 0 <= j < |cman| && KeyOf(cman[j]) == KeyOf(cman[i]) ensures i == j {
      BeforeTotal(KeyOf(cman[i]), KeyOf(cman[j]));
    }
  }

  ghost function ItemFor(conf: Conf, cman: seq<Sbuf>, p1b: Sbuf): Item {
    ItemOf(conf, p1b, Lookup(cman, KeyOf(p1b)))
  }

  /** Each scanned record goes one of two ways, by itself and its old record alone. */
  ghost function UnchangedOf(conf: Conf, cman: seq<Sbuf>, p1: seq<Sbuf>): seq<Sbuf> {
    if p1 == [] then []
    else
      var item := ItemFor(conf, cman, p1[|p1| - 1]);
      UnchangedOf(conf, cman, p1[..|p1| - 1]) + if item.Log? then [item.entry] else []
  }

  ghost function RequestsOf(conf: Conf, cman: seq<Sbuf>, p1: seq<Sbuf>): seq<Request> {
    if p1 == [] then []
    else
      var item := ItemFor(conf, cman, p1[|p1| - 1]);
      RequestsOf(conf, cman, p1[..|p1| - 1]) + if item.Ask? then [item.request] else []
  }

  /** Files of the old manifest have data, so only plain files are asked for as deltas. */
  predicate OldOk(cman: seq<Sbuf>) {
    forall i :: 0 <= i < |cman| && FileData(cman[i].cmd) ==> cman[i].datapth.Some?
  }

  /** Old records, of the first `o`, that were not scanned again. */
  ghost function Unmatched(cman: seq<Sbuf>, ks: set<Key>, o: nat): nat
    requires o <= |cman|
  {
    if o == 0 then 0 else Unmatched(cman, ks, o - 1) + if KeyOf(cman[o - 1]) in ks then 0 else 1
  }

  lemma OneMore(conf: Conf, cman: seq<Sbuf>, p1: seq<Sbuf>, n: nat)
    requires n < |p1|
    ensures var item := ItemFor(conf, cman, p1[n]);
            if item.Log? then
              UnchangedOf(conf, cman, p1[..n + 1]) == UnchangedOf(conf, cman, p1[..n]) + [item.entry] &&
              RequestsOf(conf, cman, p1[..n + 1]) == RequestsOf(conf, cman, p1[..n])
            else
              UnchangedOf(conf, cman, p1[..n + 1]) == UnchangedOf(conf, cman, p1[..n]) &&
              RequestsOf(conf, cman, p1[..n + 1]) == RequestsOf(conf, cman, p1[..n]) + [item.request]
  {
    assert p1[..n + 1][..n] == p1[..n];
    var u, r := UnchangedOf(conf, cman, p1[..n]), RequestsOf(conf, cman, p1[..n]);
    assert u + [] == u && r + [] == r;
  }

  // ----- The merge with the old manifest -----

  /** `n` scanned and `o` old records are done with. Old ones done with lie below
      the scanned ones left, and the other way round; those that were not scanned
      again have been counted. */
  ghost predicate Cursor(cman: seq<Sbuf>, p1: seq<Sbuf>, n: nat, o: nat, deleted: nat) {
    && n <= |p1| && o <= |cman|
    && AllBelow(cman[..o], p1[n..]) && AllBelow(p1[..n], cman[o..])
    && deleted == Unmatched(cman, Keys(p1), o)
  }

  ghost predicate AllBelow(s: seq<Sbuf>, t: seq<Sbuf>) {
    forall i, x :: 0 <= i < |s| && 0 <= x < |t| ==> Before(KeyOf(s[i]), KeyOf(t[x]))
  }

  lemma BelowMore(s: seq<Sbuf>, e: Sbuf, t: seq<Sbuf>)
    requires AllBelow(s, t) && Sorted(t) && (t != [] ==> Before(KeyOf(e), KeyOf(t[0])))
    ensures AllBelow(s + [e], t)
  {
    forall x | 0 <= x < |t| ensures Before(KeyOf(e), KeyOf(t[x])) {
      if x > 0 { BeforeTransitive(KeyOf(e), KeyOf(t[0]), KeyOf(t[x])); }
    }
  }

  lemma BelowLess(s: seq<Sbuf>, t: seq<Sbuf>)
    requires AllBelow(s, t) && t != []
    ensures AllBelow(s, t[1..])
  {
  }

  /** No old record done with lies after the last scanned one done with. */
  ghost predicate NoneAhead(cman: seq<Sbuf>, p1: seq<Sbuf>, n: nat, o: nat) {
    n <= |p1| && o <= |cman| &&
    forall i :: 0 <= i < o ==> n > 0 && !Before(KeyOf(p1[n - 1]), KeyOf(cman[i]))
  }

  lemma BehindStep(cman: seq<Sbuf>, p1: seq<Sbuf>, n: nat, o: nat, deleted: nat)
    requires Sorted(p1) && Cursor(cman, p1, n, o, deleted)
    requires n < |p1| && o < |cman| && Before(KeyOf(cman[o]), KeyOf(p1[n]))
    ensures Cursor(cman, p1, n, o + 1, deleted + 1)
  {
    BelowMore(cman[..o], cman[o], p1[n..]);
    BelowLess(p1[..n], cman[o..]);
    assert cman[..o + 1] == cman[..o] + [cman[o]] && cman[o..][1..] == cman[o + 1..];
    NotIn(p1, n, cman[o]);
  }

  /** A key between what is done with and what is left is not in the list. */
  lemma NotIn(p1: seq<Sbuf>, n: nat, e: Sbuf)
    requires Sorted(p1) && n <= |p1| && AllBelow(p1[..n], [e]) && (n < |p1| ==> Before(KeyOf(e), KeyOf(p1[n])))
    ensures KeyOf(e) !in Keys(p1)
  {
    BeforeTotal(KeyOf(e), KeyOf(e));
    forall x | 0 <= x < |p1| ensures KeyOf(p1[x]) != KeyOf(e) {
      if x < n { assert Before(KeyOf(p1[..n][x]), KeyOf([e][0])); }
      if n < x { BeforeTransitive(KeyOf(e), KeyOf(p1[n]), KeyOf(p1[x])); }
    }
  }

  lemma EqualStep(cman: seq<Sbuf>, p1: seq<Sbuf>, n: nat, o: nat, deleted: nat)
    requires Sorted(p1) && Sorted(cman) && Cursor(cman, p1, n, o, deleted)
    requires n < |p1| && o < |cman| && KeyOf(cman[o]) == KeyOf(p1[n])
    ensures Cursor(cman, p1, n + 1, o + 1, deleted) && NoneAhead(cman, p1, n + 1, o + 1)
  {
    assert KeyOf(cman[o]) in Keys(p1);
    BelowLess(cman[..o], p1[n..]);
    BelowMore(cman[..o], cman[o], p1[n + 1..]);
    BelowLess(p1[..n], cman[o..]);
    BelowMore(p1[..n], p1[n], cman[o + 1..]);
    assert cman[..o + 1] == cman[..o] + [cman[o]] && cman[o..][1..] == cman[o + 1..];
    assert p1[..n + 1] == p1[..n] + [p1[n]] && p1[n..][1..] == p1[n + 1..];
    PassedStay(cman, p1, n, o);
    BeforeTotal(KeyOf(cman[o]), KeyOf(cman[o]));
  }

  lemma PassedStay(cman: seq<Sbuf>, p1: seq<Sbuf>, n: nat, o: nat)
    requires n < |p1| && o <= |cman| && AllBelow(cman[..o], p1[n..])
    ensures NoneAhead(cman, p1, n + 1, o)
  {
    forall i | 0 <= i < o ensures !Before(KeyOf(p1[n]), KeyOf(cman[i])) {
      assert Before(KeyOf(cman[..o][i]), KeyOf(p1[n..][0]));
      BeforeTotal(KeyOf(p1[n]), KeyOf(cman[i]));
    }
  }

  lemma CursorInRange(cman: seq<Sbuf>, p1: seq<Sbuf>, n: nat, o: nat, deleted: nat)
    requires Cursor(cman, p1, n, o, deleted)
    ensures n <= |p1| && o <= |cman|
  {
  }

  lemma AheadStep(cman: seq<Sbuf>, p1: seq<Sbuf>, n: nat, o: nat, deleted: nat)
    requires Sorted(p1) && Sorted(cman) && Cursor(cman, p1, n, o, deleted)
    requires n < |p1| && (o < |cman| ==> Before(KeyOf(p1[n]), KeyOf(cman[o])))
    ensures Cursor(cman, p1, n + 1, o, deleted) && NoneAhead(cman, p1, n + 1, o)
    ensures Lookup(cman, KeyOf(p1[n])) == None
  {
    BelowLess(cman[..o], p1[n..]);
    BelowMore(p1[..n], p1[n], cman[o..]);
    assert p1[..n + 1] == p1[..n] + [p1[n]] && p1[n..][1..] == p1[n + 1..];
    PassedStay(cman, p1, n, o);
    NotIn(cman, o, p1[n]);
    assert forall i :: 0 <= i < |cman| ==> KeyOf(cman[i]) in Keys(cman);
  }

  // ----- What has arrived -----

  function Entries(arr: seq<Arrival>): seq<Sbuf> { seq(|arr|, i requires 0 <= i < |arr| => arr[i].entry) }

  /** The files received whole, or the deltas, by data path; later ones win. */
  function Files(arr: seq<Arrival>, deltas: bool): map<string, string> {
    if arr == [] then map[]
    else
      var a := arr[|arr| - 1];
      var before := Files(arr[..|arr| - 1], deltas);
      if a.isDelta == deltas && a.entry.datapth.Some? then before[a.entry.datapth.value := a.content] else before
  }

  lemma ArrivedMore(arr: seq<Arrival>, a: Arrival, deltas: bool)
    ensures Entries(arr + [a]) == Entries(arr) + [a.entry]
    ensures Files(arr + [a], deltas) ==
            if a.isDelta == deltas && a.entry.datapth.Some? then Files(arr, deltas)[a.entry.datapth.value := a.content]
            else Files(arr, deltas)
  {
    assert (arr + [a])[..|arr|] == arr;
  }

  // ----- The server -----

  /** The record being asked for, by the parts that have still to be sent. */
  datatype Pending =
    | Nothing
    | Pending(request: Request, senddatapth: bool, sendstat: bool, sendpath: bool,
              sigjob: Option<seq<string>>, sendendofsig: bool)

  const END_OF_SIG := Msg(CMD_END_FILE, "endfile")

  function Unsent(p: Pending): seq<Msg>
    decreases if p.Pending?
              then (if p.senddatapth then 1 else 0) + (if p.sendstat then 1 else 0) + (if p.sendpath then 1 else 0)
              else 0
  {
    if p.Nothing? then []
    else if p.senddatapth && p.request.datapth.Some? then
      [Msg(CMD_DATAPTH, p.request.datapth.value)] + Unsent(p.(senddatapth := false))
    else if p.sendstat then [Msg(CMD_STAT, p.request.stat)] + Unsent(p.(sendstat := false))
    else if p.sendpath then [Msg(p.request.cmd, p.request.path)] + Unsent(p.(sendpath := false))
    else UnsentSignature(p.sigjob, p.sendendofsig)
  }

  lemma NextPart(p: Pending)
    ensures p.Nothing? ==> Unsent(p) == []
    ensures (p.Pending? && p.senddatapth && p.request.datapth.Some? ==>
               Unsent(p) == [Msg(CMD_DATAPTH, p.request.datapth.value)] + Unsent(p.(senddatapth := false)))
    ensures (p.Pending? && !(p.senddatapth && p.request.datapth.Some?) && p.sendstat ==>
               Unsent(p) == [Msg(CMD_STAT, p.request.stat)] + Unsent(p.(sendstat := false)))
    ensures (p.Pending? && !(p.senddatapth && p.request.datapth.Some?) && !p.sendstat && p.sendpath ==>
               Unsent(p) == [Msg(p.request.cmd, p.request.path)] + Unsent(p.(sendpath := false)))
  {
  }

  function UnsentSignature(sigjob: Option<seq<string>>, sendendofsig: bool): seq<Msg>
    decreases if sigjob.Some? then |sigjob.value| else 0
  {
    if sigjob.None? then if sendendofsig then [END_OF_SIG] else []
    else if sigjob.value == [] then [END_OF_SIG]
    else [Msg(CMD_APPEND, sigjob.value[0])] + UnsentSignature(Some(sigjob.value[1..]), sendendofsig)
  }

  /** `process_new` and `process_changed_file`: all parts flagged. */
  function PendingFor(env: Env, r: Request): Pending {
    Pending(r, r.datapth.Some?, true, true,
            if r.datapth.Some? then Some(env.signature(r.datapth.value)) else None, false)
  }

  lemma {:induction false} UnsentSignatureIs(blocks: seq<string>)
    ensures UnsentSignature(Some(blocks), false) == Appends(blocks) + [END_OF_SIG]
    decreases |blocks|
  {
    if blocks != [] {
      UnsentSignatureIs(blocks[1..]);
      assert Appends(blocks) == [Msg(CMD_APPEND, blocks[0])] + Appends(blocks[1..]);
    }
  }

  lemma UnsentRequest(env: Env, r: Request)
    ensures Unsent(PendingFor(env, r)) == RequestMsgs(env, r)
  {
    var p := PendingFor(env, r);
    var p1 := p.(senddatapth := false);
    var p2 := p1.(sendstat := false);
    var p3 := p2.(sendpath := false);
    assert Unsent(p3) == UnsentSignature(p.sigjob, false);
    if r.datapth.Some? { UnsentSignatureIs(env.signature(r.datapth.value)); }
    assert Unsent(p1) == [Msg(CMD_STAT, r.stat)] + ([Msg(r.cmd, r.path)] + Unsent(p3));
  }

  /** Nothing is lost on the way: what has arrived, and what will when all that is
      under way has been handled, answers every request made so far. */
  ghost predicate NothingLost(env: Env, c: Client, rb: Rb, toClient: seq<Msg>, toServer: seq<Msg>,
                              arrived: seq<Arrival>, open: bool, rs: seq<Request>)
  {
    var look := Ahead(env, c, rb, toClient, toServer);
    && arrived + look.arrivals == ExpectedAll(env, rs)
    && look.client == (if open then BLANK_CLIENT else Quit(false))
    && look.rb == (if open then BLANK_RB else Ended)
  }

  lemma AskedForNext(env: Env, c: Client, rb: Rb, toClient: seq<Msg>, toServer: seq<Msg>,
                     arrived: seq<Arrival>, rs: seq<Request>, r: Request)
    requires NothingLost(env, c, rb, toClient, toServer, arrived, true, rs) && RequestOk(r)
    ensures NothingLost(env, c, rb, toClient + Unsent(PendingFor(env, r)), toServer, arrived, true, rs + [r])
  {
    NewRequest(env, c, rb, toClient, toServer, r);
    UnsentRequest(env, r);
    var arrivals := Ahead(env, c, rb, toClient, toServer).arrivals;
    assert arrived + (arrivals + Expected(env, r)) == arrived + arrivals + Expected(env, r);
    assert (rs + [r])[..|rs|] == rs;
  }

  lemma EndAnnounced(env: Env, c: Client, rb: Rb, toClient: seq<Msg>, toServer: seq<Msg>,
                     arrived: seq<Arrival>, rs: seq<Request>)
    requires NothingLost(env, c, rb, toClient, toServer, arrived, true, rs)
    ensures NothingLost(env, c, rb, toClient + [PHASE2_END], toServer, arrived, false, rs)
  {
    EndRequest(env, c, rb, toClient, toServer);
  }

  class Phase2Server {
    const env: Env
    const conf: Conf
    const platform: Platform
    const p1: seq<Sbuf>              // the scan list
    const cman: seq<Sbuf>            // the old manifest
    const client: Phase2Client
    var n: nat                       // scanned records that are done with
    var p1zp: bool                   // the scan list is open
    var o: nat                       // old records that are done with
    var cb: bool                     // cman[o] is held
    var cmanfp: bool                 // the old manifest is open
    var pending: Pending             // p1b, as far as it is still to be sent
    var lastRequested: Option<string>
    var deleted: nat                 // the counter of deleted files
    var uc: seq<Sbuf>                // the unchanged log
    var p2: seq<Sbuf>                // the phase 2 log
    var tmp: map<string, string>     // data.tmp
    var fwd: map<string, string>     // deltas.forward
    var rb: Rb
    var toClient: seq<Msg>           // written and not read by the client yet
    var toServer: seq<Msg>
    ghost var arrived: seq<Arrival>

    constructor (env: Env, conf: Conf, platform: Platform, p1: seq<Sbuf>, cman: seq<Sbuf>, haveManifest: bool)
      requires Sorted(p1) && Sorted(cman) && AllSent(platform, p1) && AllSent(platform, cman) && OldOk(cman)
      requires !haveManifest ==> cman == []
      ensures Inv() && this.env == env && this.conf == conf && this.p1 == p1 && this.cman == cman
      ensures fresh(client) && !rb.Ended?
    {
      this.env, this.conf, this.platform, this.p1, this.cman := env, conf, platform, p1, cman;
      client := new Phase2Client(env);
      n, p1zp, o, cb, cmanfp := 0, true, 0, false, haveManifest;
      pending, lastRequested, deleted := Nothing, None, 0;
      uc, p2, tmp, fwd, rb := [], [], map[], map[], BLANK_RB;
      toClient, toServer := [], [];
      arrived := [];
    }

    /** The merge: old records that are done with lie below the scanned ones left. */
    ghost predicate MergeInv()
      reads this`n, this`p1zp, this`o, this`cb, this`cmanfp, this`deleted, this`uc
    {
      && Sorted(p1) && Sorted(cman) && AllSent(platform, p1) && AllSent(platform, cman) && OldOk(cman)
      && n <= |p1| && o <= |cman|
      && (cb ==> cmanfp && o < |cman|)
      && (!cmanfp ==> o == |cman|)
      && (!p1zp ==> n == |p1|)
      && Cursor(cman, p1, n, o, deleted) && NoneAhead(cman, p1, n, o)
      && uc == UnchangedOf(conf, cman, p1[..n])
    }

    /** What has been logged is what has arrived. */
    ghost predicate LogInv()
      reads this`p2, this`tmp, this`fwd, this`arrived
    {
      p2 == Entries(arrived) && tmp == Files(arrived, false) && fwd == Files(arrived, true)
    }

    ghost predicate LinkOk(rs: seq<Request>)
      reads this`rb, this`toClient, this`pending, this`toServer, this`arrived, this`p1zp, client
    {
      client.env == env &&
      NothingLost(env, client.state, rb, toClient + Unsent(pending), toServer, arrived, p1zp, rs)
    }

    ghost predicate LinkInv()
      reads this, client
    {
      n <= |p1| && LinkOk(RequestsOf(conf, cman, p1[..n]))
    }

    ghost predicate Inv()
      reads this, client
    {
      MergeInv() && LogInv() && LinkInv()
    }

    /** `async_append_all_to_write_buffer` for the next part; there may be no room. */
    method Append(m: Msg, next: Pending) returns (full: bool)
      requires Unsent(pending) == [m] + Unsent(next)
      modifies this`toClient, this`pending
      ensures toClient + Unsent(pending) == old(toClient + Unsent(pending))
      ensures pending == if full then old(pending) else next
    {
      if * { return true; }
      assert toClient + Unsent(pending) == (toClient + [m]) + Unsent(next);
      toClient := toClient + [m];
      pending := next;
      return false;
    }

    /** `do_stuff_to_send`: each part as room allows, in order; true if some is left. */
    method DoStuffToSend() returns (sts: bool)
      requires Inv()
      modifies this`toClient, this`pending, this`lastRequested
      ensures Inv()
      ensures toClient + Unsent(pending) == old(toClient + Unsent(pending))
      ensures !sts ==> Unsent(pending) == []
    {
      hide Phase2Server.MergeInv, Phase2Server.LogInv, NothingLost, UnchangedOf, RequestsOf, Unsent;
      sts := false;
      NextPart(pending);
      if pending.Nothing? { return; }
      var r := pending.request;
      if pending.senddatapth && r.datapth.Some? {
        sts := Append(Msg(CMD_DATAPTH, r.datapth.value), pending.(senddatapth := false));
        if sts { return; }
        NextPart(pending);
      }
      if pending.sendstat {
        sts := Append(Msg(CMD_STAT, r.stat), pending.(sendstat := false));
        if sts { return; }
        NextPart(pending);
      }
      if pending.sendpath {
        sts := Append(Msg(r.cmd, r.path), pending.(sendpath := false));
        if sts { return; }
        lastRequested := Some(r.path);
      }
      sts := SendSignature();
    }

    /** The signature, block by block, and its end. */
    method SendSignature() returns (sts: bool)
      requires pending.Pending? && !pending.sendstat && !pending.sendpath
      requires !(pending.senddatapth && pending.request.datapth.Some?)
      modifies this`toClient, this`pending
      ensures toClient + Unsent(pending) == old(toClient + Unsent(pending))
      ensures !sts ==> Unsent(pending) == []
    {
      sts := false;
      if pending.sigjob.Some? {
        while pending.sigjob.value != []
          invariant pending.Pending? && !pending.sendstat && !pending.sendpath && pending.sigjob.Some?
          invariant !(pending.senddatapth && pending.request.datapth.Some?)
          invariant toClient + Unsent(pending) == old(toClient + Unsent(pending))
          decreases |pending.sigjob.value|
        {
          var blocks := pending.sigjob.value;
          sts := Append(Msg(CMD_APPEND, blocks[0]), pending.(sigjob := Some(blocks[1..])));
          if sts { return; }
        }
        pending := pending.(sigjob := None, sendendofsig := true);
        assert Unsent(pending) == [END_OF_SIG];
      }
      if pending.sendendofsig {
        sts := Append(END_OF_SIG, pending.(sendendofsig := false));
        if sts { return; }
      }
    }

    /** One message taken in, by the branches of `do_stuff_to_receive`. */
    method Receive(m: Msg) returns (ret: int)
      requires LogInv() && !rb.Ended? && !rb.Broken?
      modifies this`rb, this`p2, this`tmp, this`fwd, this`arrived, this`lastRequested
      ensures LogInv()
      ensures rb == RxStep(env, old(rb), m).0
      ensures arrived == old(arrived) + RxStep(env, old(rb), m).1
      ensures ret == if rb.Broken? then -1 else if rb.Ended? then 1 else 0
    {
      ret := 0;
      if m.cmd == CMD_WARNING { return; }
      if rb.Writing? {
        if m.cmd == CMD_APPEND {
          rb := rb.(content := rb.content + m.body);
        } else if m.cmd == CMD_END_FILE {
          FinishFile(m.body);
        } else {
          rb := Broken;
          ret := -1;
        }
      } else if m.cmd == CMD_DATAPTH {
        rb := Expecting(Some(m.body), rb.statbuf);
      } else if m.cmd == CMD_STAT {
        rb := Expecting(rb.datapth, m.body);
      } else if FileData(m.cmd) {
        if rb.datapth.Some? {
          rb := Writing(m.cmd, m.body, rb.datapth.value, rb.statbuf, true, "");
        } else {
          rb := Writing(m.cmd, m.body, env.newPath(m.cmd, m.body), rb.statbuf, false, "");
        }
      } else if m.cmd == CMD_GEN && m.body == "okbackupphase2end" {
        rb := Ended;
        ret := 1;
      } else if m.cmd == CMD_INTERRUPT {
        if lastRequested == Some(m.body) { lastRequested := None; }
      } else {
        rb := Broken;
        ret := -1;
      }
    }

    /** The end of a file: it goes into place and its record into the log. */
    method FinishFile(endfile: string)
      requires LogInv() && rb.Writing?
      modifies this`rb, this`p2, this`tmp, this`fwd, this`arrived, this`lastRequested
      ensures LogInv()
      ensures rb == RxStep(env, old(rb), Msg(CMD_END_FILE, endfile)).0
      ensures arrived == old(arrived) + RxStep(env, old(rb), Msg(CMD_END_FILE, endfile)).1
    {
      hide Entries, Files;
      var entry := Sbuf(rb.cmd, rb.path, None, Some(rb.into), rb.statbuf, env.decode(rb.statbuf), Some(endfile));
      ghost var a := Arrival(entry, rb.content, rb.isDelta);
      if rb.isDelta {
        fwd := fwd[rb.into := rb.content];   // finish_delta
      } else {
        tmp := tmp[rb.into := rb.content];
      }
      p2 := p2 + [entry];
      if lastRequested == Some(rb.path) { lastRequested := None; }
      ArrivedMore(arrived, a, true);
      ArrivedMore(arrived, a, false);
      arrived := arrived + [a];
      rb := BLANK_RB;
    }

    /** `maybe_process_file`: what becomes of the scanned record, or nothing if the
        old one held is behind. */
    method MaybeProcessFile() returns (item: Option<Item>)
      requires cb && cmanfp && n < |p1| && o < |cman|
      requires Sorted(p1) && Sorted(cman) && AllSent(platform, p1) && AllSent(platform, cman)
      requires Cursor(cman, p1, n, o, deleted)
      modifies this`o, this`cb, this`deleted
      ensures item.None? ==> o == old(o) + 1 <= |cman| && !cb && Cursor(cman, p1, n, o, deleted)
      ensures item.Some? ==> item.value == ItemFor(conf, cman, p1[n]) && o <= |cman| && (cb ==> o < |cman|)
      ensures item.Some? ==> Cursor(cman, p1, n + 1, o, deleted) && NoneAhead(cman, p1, n + 1, o)
    {
      hide Sorted, AllSent, Cursor, NoneAhead, SbufPathCmp, Before, Lookup, Sends;
      var p1b := p1[n];
      SentAt(platform, p1, n);
      SentAt(platform, cman, o);
      SbufPathCmpIsKeyOrder(platform, cman[o], p1b);
      var pcmp := SbufPathCmp(cman[o], p1b);
      if pcmp == 0 {
        EqualStep(cman, p1, n, o, deleted);
        LookupIs(cman, o);
        item := Some(ItemOf(conf, p1b, Some(cman[o])));
        cb, o := false, o + 1;
      } else if pcmp > 0 {
        AheadStep(cman, p1, n, o, deleted);
        item := Some(NewItem(p1b));
      } else {
        BehindStep(cman, p1, n, o, deleted);
        item := None;
        deleted := deleted + 1;
        cb, o := false, o + 1;
      }
    }

    /** What becomes of the next scanned record: the old manifest is read on until
        the record is found there or passed. */
    method NextItem() returns (item: Item)
      requires MergeInv() && n < |p1|
      modifies this`o, this`cb, this`deleted, this`cmanfp
      ensures item == ItemFor(conf, cman, p1[n])
      ensures o <= |cman| && (cb ==> cmanfp && o < |cman|) && (!cmanfp ==> o == |cman|)
      ensures Cursor(cman, p1, n + 1, o, deleted) && NoneAhead(cman, p1, n + 1, o)
    {
      hide Sorted, AllSent, Cursor, NoneAhead, Lookup, UnchangedOf;
      CursorInRange(cman, p1, n, o, deleted);
      if !cmanfp {
        AheadStep(cman, p1, n, o, deleted);
        return NewItem(p1[n]);
      }
      var found: Option<Item> := None;
      if cb {
        found := MaybeProcessFile();
        if found.Some? { return found.value; }
      }
      while true
        invariant cmanfp && !cb && o <= |cman| && Cursor(cman, p1, n, o, deleted)
        decreases |cman| - o
      {
        if o == |cman| {
          cmanfp := false;
          AheadStep(cman, p1, n, o, deleted);
          return NewItem(p1[n]);
        }
        cb := true;
        found := MaybeProcessFile();
        if found.Some? { return found.value; }
      }
    }

    /** The part of the main loop that reads on in the scan list, when nothing is
        left to be sent. Past the last record the end is announced. */
    method Advance()
      requires Inv() && p1zp && Unsent(pending) == []
      modifies this
      ensures Inv() && rb == old(rb) && toServer == old(toServer)
    {
      hide Phase2Server.MergeInv, Phase2Server.LogInv, NothingLost, UnchangedOf, RequestsOf;
      pending := Nothing;
      if n == |p1| { AnnounceEnd(); } else { NextRecord(); }
    }

    method AnnounceEnd()
      requires Inv() && p1zp && pending == Nothing && n == |p1|
      modifies this`p1zp, this`toClient, this`cmanfp, this`cb
      ensures Inv()
    {
      hide Sorted, AllSent, OldOk, Cursor, NoneAhead, NothingLost, Files;
      assert toClient + Unsent(pending) == toClient;
      EndAnnounced(env, client.state, rb, toClient, toServer, arrived, RequestsOf(conf, cman, p1[..n]));
      p1zp := false;
      toClient := toClient + [PHASE2_END];
      assert toClient + Unsent(pending) == toClient;
      // With no record left to compare, one more old one is read at most.
      if cmanfp && !cb {
        if o == |cman| { cmanfp := false; } else { cb := true; }
      }
    }

    method NextRecord()
      requires Inv() && p1zp && pending == Nothing && n < |p1|
      modifies this`n, this`uc, this`pending, this`o, this`cb, this`deleted, this`cmanfp
      ensures Inv()
    {
      hide Sorted, AllSent, OldOk, Cursor, NoneAhead, NothingLost, Files, UnchangedOf, RequestsOf, ExpectedAll;
      ghost var rs := RequestsOf(conf, cman, p1[..n]);
      OneMore(conf, cman, p1, n);
      assert toClient + Unsent(pending) == toClient;
      var item := NextItem();
      n := n + 1;
      if item.Log? {
        uc := uc + [item.entry];
      } else {
        AskedForNext(env, client.state, rb, toClient, toServer, arrived, rs, item.request);
        pending := PendingFor(env, item.request);
      }
    }

    /** `do_stuff_to_receive`: take in one message if there is one. The client never
        says anything unexpected. */
    method DoStuffToReceive() returns (ret: int)
      requires Inv() && !rb.Ended?
      modifies this`rb, this`p2, this`tmp, this`fwd, this`arrived, this`lastRequested, this`toServer
      ensures Inv() && ret >= 0
      ensures ret == 1 <==> rb.Ended?
    {
      hide Phase2Server.MergeInv, NothingLost, RxStep, Files, UnchangedOf, RequestsOf;
      if toServer == [] { return 0; }
      if * { return 0; }                     // nothing has come through yet
      var m := toServer[0];
      ghost var rest := toServer[1..];
      assert toServer == [m] + rest;
      ReceivedNext(env, client.state, rb, toClient + Unsent(pending), m, rest, arrived, p1zp,
                   RequestsOf(conf, cman, p1[..n]));
      toServer := toServer[1..];
      ret := Receive(m);
    }

    /** The client, until it has quit, handles one message, if there is one. */
    method ClientTurn()
      requires Inv() && !rb.Ended?
      modifies this`toClient, this`toServer, client
      ensures Inv()
    {
      hide Phase2Server.MergeInv, Phase2Server.LogInv, NothingLost, ClientStep, Files, UnchangedOf, RequestsOf;
      if toClient == [] || client.state.Quit? { return; }
      var m := toClient[0];
      ghost var rest := toClient[1..] + Unsent(pending);
      assert toClient + Unsent(pending) == [m] + rest;
      ClientHandledNext(env, client.state, rb, m, rest, toServer, arrived, p1zp, RequestsOf(conf, cman, p1[..n]));
      var out := client.Handle(m);
      toClient := toClient[1..];
      toServer := toServer + out;
    }
  }

  lemma ReceivedNext(env: Env, c: Client, rb: Rb, toClient: seq<Msg>, m: Msg, toServer: seq<Msg>,
                     arrived: seq<Arrival>, open: bool, rs: seq<Request>)
    requires NothingLost(env, c, rb, toClient, [m] + toServer, arrived, open, rs)
    ensures NothingLost(env, c, RxStep(env, rb, m).0, toClient, toServer, arrived + RxStep(env, rb, m).1, open, rs)
    ensures !RxStep(env, rb, m).0.Broken? && !rb.Broken?
  {
    hide RxStep, ClientStep, ExpectedAll;
    ServerTurn(env, c, rb, toClient, m, toServer);
    var look := Ahead(env, c, RxStep(env, rb, m).0, toClient, toServer);
    assert arrived + (RxStep(env, rb, m).1 + look.arrivals) == arrived + RxStep(env, rb, m).1 + look.arrivals;
    var out := ClientRun(env, c, toClient).1;
    if RxStep(env, rb, m).0.Broken? { BrokenStays(env, RxStep(env, rb, m).0, toServer + out); }
    if rb.Broken? { BrokenStays(env, rb, [m] + toServer + out); }
  }

  lemma ClientHandledNext(env: Env, c: Client, rb: Rb, m: Msg, toClient: seq<Msg>, toServer: seq<Msg>,
                          arrived: seq<Arrival>, open: bool, rs: seq<Request>)
    requires NothingLost(env, c, rb, [m] + toClient, toServer, arrived, open, rs) && !rb.Ended?
    ensures var (c', out) := ClientStep(env, c, m);
            NothingLost(env, c', rb, toClient, toServer + out, arrived, open, rs)
  {
    Protocol.ClientTurn(env, c, rb, m, toClient, toServer);
  }

  /** Phase 2 under any interleaving: at every step either side may take a message
      in, and the server may send or read on in the scan list. When the client's
      last word is in, the two logs and the received files are what each scanned
      record asks for by itself: none is lost, doubled or out of order. */
  method RunPhase2(s: Phase2Server, steps: nat) returns (done: bool)
    requires s.Inv() && !s.rb.Ended?
    modifies s, s.client
    ensures s.Inv() && done == s.rb.Ended?
    ensures done ==> s.uc == UnchangedOf(s.conf, s.cman, s.p1)
    ensures done ==> var arrivals := ExpectedAll(s.env, RequestsOf(s.conf, s.cman, s.p1));
                     s.p2 == Entries(arrivals) && s.tmp == Files(arrivals, false) && s.fwd == Files(arrivals, true)
    ensures done ==> s.deleted == Unmatched(s.cman, Keys(s.p1), s.o) &&
                     forall i :: 0 <= i < |s.cman| ==> (i < s.o <==> Passed(s.cman, s.p1, i))
  {
    hide Phase2Server.Inv, ExpectedAll, RequestsOf, UnchangedOf, Files, Unmatched;
    done := false;
    for step := 0 to steps
      invariant s.Inv() && !s.rb.Ended?
    {
      if * {
        s.ClientTurn();
      } else {
        var writebuflen: nat := *;
        if s.lastRequested.Some? || !s.p1zp || writebuflen > 0 {
          var ret := s.DoStuffToReceive();
          if ret == 1 {
            AllIn(s);
            return true;
          }
        }
        var sts := s.DoStuffToSend();
        if !sts && s.p1zp { s.Advance(); }
      }
    }
  }

  /** `cman[i]` does not lie after the last scanned record. */
  predicate Passed(cman: seq<Sbuf>, p1: seq<Sbuf>, i: nat)
    requires i < |cman|
  {
    p1 != [] && !Before(KeyOf(p1[|p1| - 1]), KeyOf(cman[i]))
  }

  /** Once the end has come nothing is under way any more. */
  lemma AllIn(s: Phase2Server)
    requires s.Inv() && s.rb.Ended?
    ensures s.uc == UnchangedOf(s.conf, s.cman, s.p1)
    ensures var arrivals := ExpectedAll(s.env, RequestsOf(s.conf, s.cman, s.p1));
            s.p2 == Entries(arrivals) && s.tmp == Files(arrivals, false) && s.fwd == Files(arrivals, true)
    ensures s.deleted == Unmatched(s.cman, Keys(s.p1), s.o)
    ensures forall i :: 0 <= i < |s.cman| ==> (i < s.o <==> Passed(s.cman, s.p1, i))
  {
    hide RxStep, ClientStep, ExpectedAll, RequestsOf, UnchangedOf, Files;
    var look := Ahead(s.env, s.client.state, s.rb, s.toClient + Unsent(s.pending), s.toServer);
    var out := ClientRun(s.env, s.client.state, s.toClient + Unsent(s.pending)).1;
    AfterEnd(s.env, s.toServer + out);
    assert s.p1[..|s.p1|] == s.p1;
    assert s.arrived + [] == s.arrived == ExpectedAll(s.env, RequestsOf(s.conf, s.cman, s.p1));
    forall i | 0 <= i < |s.cman| ensures i < s.o <==> Passed(s.cman, s.p1, i) {
      if s.o <= i && s.p1 != [] {
        assert s.cman[s.o..][i - s.o] == s.cman[i] && s.p1[..s.n][s.n - 1] == s.p1[|s.p1| - 1];
      }
    }
  }

  /** After the end anything would be unexpected. */
  lemma AfterEnd(env: Env, ms: seq<Msg>)
    ensures RxRun(env, Ended, ms).0 == if ms == [] then Ended else Broken
    ensures ms == [] ==> RxRun(env, Ended, ms).1 == []
  {
    if ms != [] {
      assert ms == [ms[0]] + ms[1..];
      RxRunAppend(env, Ended, [ms[0]], ms[1..]);
      RxOne(env, Ended, ms[0]);
      BrokenStays(env, Broken, ms[1..]);
    }
  }
}
