/** What goes over the link in phase 2: the client answering one request after the
    other (src/backup_phase2_client.c), and the server taking the answers in
    (`do_stuff_to_receive`, src/backup_phase2_server.c). */
module Protocol {
  import opened Wrappers
  import opened Records
  import opened Transducers

  datatype Msg = Msg(cmd: char, body: string)

  const PHASE2_END := Msg(CMD_GEN, "backupphase2end")
  const OK_PHASE2_END := Msg(CMD_GEN, "okbackupphase2end")

  /** What the client finds when it comes to a path. */
  datatype Answer = Answer(vanished: bool, noMeta: bool, stat: string, endfile: string)

  /** Everything the two programs take from outside: the client's files, its
      deltas against a signature, the server's signatures and fresh data paths. */
  datatype Env = Env(
    answer: (char, string) -> Answer,
    whole: (char, string) -> seq<string>,
    delta: (string, seq<string>) -> seq<string>,
    signature: string -> seq<string>,
    newPath: (char, string) -> string,
    decode: string -> Stat)

  /** A file the client is asked for, against the old data if there is some. */
  datatype Request = Request(cmd: char, path: string, datapth: Option<string>, stat: string)

  predicate RequestOk(r: Request) { FileData(r.cmd) && (r.datapth.Some? ==> r.cmd == CMD_FILE) }

  /** A file or delta that came in completely, with its phase 2 record. */
  datatype Arrival = Arrival(entry: Sbuf, content: string, isDelta: bool)

  function Flatten(chunks: seq<string>): string {
    if chunks == [] then "" else Flatten(chunks[..|chunks| - 1]) + chunks[|chunks| - 1]
  }

  function Appends(chunks: seq<string>): seq<Msg> {
    seq(|chunks|, i requires 0 <= i < |chunks| => Msg(CMD_APPEND, chunks[i]))
  }

  // ----- The client -----

  /** Idle with perhaps a data path noted, or in the middle of a signature, which
      it answers with a delta of `path` or just takes in. */
  datatype Client =
    | Idle(datapth: Option<string>)
    | Signature(path: string, forget: bool, blocks: seq<string>)
    | Quit(failed: bool)

  const BLANK_CLIENT := Idle(None)

  /** The client has a record for this request to send. */
  predicate Answers(env: Env, cmd: char, path: string) {
    !env.answer(cmd, path).vanished &&
    !(env.answer(cmd, path).noMeta && (IsMeta(cmd) || IsVss(cmd)))
  }

  /** One message handled: the next state and what is written. */
  function ClientStep(env: Env, c: Client, m: Msg): (Client, seq<Msg>) {
    match c
    case Quit(_) => (c, [])
    case Signature(path, forget, blocks) =>
      if m.cmd == CMD_APPEND then (Signature(path, forget, blocks + [m.body]), [])
      else if m.cmd != CMD_END_FILE then (Quit(true), [])
      else if forget then (BLANK_CLIENT, [])
      else (BLANK_CLIENT, Appends(env.delta(path, blocks)) + [Msg(CMD_END_FILE, env.answer(CMD_FILE, path).endfile)])
    case Idle(datapth) =>
      if m.cmd == CMD_DATAPTH then (Idle(Some(m.body)), [])
      else if m.cmd == CMD_STAT || m.cmd == CMD_WARNING then (c, [])
      else if FileData(m.cmd) then
        var a := env.answer(m.cmd, m.body);
        var against := m.cmd == CMD_FILE && datapth.Some?;
        if a.vanished then
          (if against then Signature(m.body, true, []) else BLANK_CLIENT,
           [Msg(CMD_WARNING, m.body), Msg(CMD_INTERRUPT, m.body)])
        else if a.noMeta && (IsMeta(m.cmd) || IsVss(m.cmd)) then
          (BLANK_CLIENT, [Msg(CMD_WARNING, m.body)])
        else if against then
          (Signature(m.body, false, []),
           [Msg(CMD_DATAPTH, datapth.value), Msg(CMD_STAT, a.stat), Msg(CMD_FILE, m.body)])
        else
          (BLANK_CLIENT,
           [Msg(CMD_STAT, a.stat), m] + Appends(env.whole(m.cmd, m.body)) + [Msg(CMD_END_FILE, a.endfile)])
      else if m == PHASE2_END then (Quit(false), [OK_PHASE2_END])
      else (Quit(true), [])
  }

  /** `do_backup_phase2_client`: the loop's state, one message at a time. */
  class Phase2Client {
    const env: Env
    var state: Client

    constructor (env: Env)
      ensures this.env == env && state == BLANK_CLIENT
    {
      this.env, state := env, BLANK_CLIENT;
    }

    /** One round of the loop: a message read, handled and answered. */
    method Handle(m: Msg) returns (out: seq<Msg>)
      requires !state.Quit?
      modifies this
      ensures (state, out) == ClientStep(env, old(state), m)
    {
      out := [];
      if state.Signature? {
        out := LoadSignature(m);
        return;
      }
      var datapth := state.datapth;
      if m.cmd == CMD_DATAPTH {
        state := Idle(Some(m.body));
      } else if m.cmd == CMD_STAT {
        // It is filled in again, to be as recent as possible.
      } else if FileData(m.cmd) {
        var a := env.answer(m.cmd, m.body);
        state := BLANK_CLIENT;
        if a.vanished {
          out := [Msg(CMD_WARNING, m.body), Msg(CMD_INTERRUPT, m.body)];
          // forget_file: the server will be sending a signature.
          if m.cmd == CMD_FILE && datapth.Some? { state := Signature(m.body, true, []); }
          return;
        }
        if IsMeta(m.cmd) || IsVss(m.cmd) {
          if a.noMeta { return [Msg(CMD_WARNING, m.body)]; }
        }
        if m.cmd == CMD_FILE && datapth.Some? {
          out := [Msg(CMD_DATAPTH, datapth.value), Msg(CMD_STAT, a.stat), Msg(CMD_FILE, m.body)];
          state := Signature(m.body, false, []);
        } else {
          out := [Msg(CMD_STAT, a.stat), Msg(m.cmd, m.body)];
          out := out + Appends(env.whole(m.cmd, m.body)) + [Msg(CMD_END_FILE, a.endfile)];
        }
      } else if m.cmd == CMD_WARNING {
      } else if m.cmd == CMD_GEN && m.body == "backupphase2end" {
        out := [OK_PHASE2_END];
        state := Quit(false);
      } else {
        state := Quit(true);
      }
    }

    /** Take in a signature; at its end, send the delta if one is wanted. */
    method LoadSignature(m: Msg) returns (out: seq<Msg>)
      requires state.Signature?
      modifies this
      ensures (state, out) == ClientStep(env, old(state), m)
    {
      out := [];
      if m.cmd == CMD_APPEND {
        state := state.(blocks := state.blocks + [m.body]);
      } else if m.cmd == CMD_END_FILE {
        if !state.forget {
          out := Appends(env.delta(state.path, state.blocks));
          out := out + [Msg(CMD_END_FILE, env.answer(CMD_FILE, state.path).endfile)];
        }
        state := BLANK_CLIENT;
      } else {
        state := Quit(true);
      }
    }
  }

  function ClientRun(env: Env, c: Client, ms: seq<Msg>): (Client, seq<Msg>) {
    Run((c: Client, m: Msg) => ClientStep(env, c, m), c, ms)
  }

  lemma ClientRunAppend(env: Env, c: Client, a: seq<Msg>, b: seq<Msg>)
    ensures ClientRun(env, c, a + b).0 == ClientRun(env, ClientRun(env, c, a).0, b).0
    ensures ClientRun(env, c, a + b).1 == ClientRun(env, c, a).1 + ClientRun(env, ClientRun(env, c, a).0, b).1
  {
    RunAppend((c: Client, m: Msg) => ClientStep(env, c, m), c, a, b);
  }

  lemma ClientOne(env: Env, c: Client, m: Msg)
    ensures ClientRun(env, c, [m]) == ClientStep(env, c, m)
  {
    RunOne((c: Client, m: Msg) => ClientStep(env, c, m), c, m);
  }

  // ----- The server taking answers in -----

  /** The receiving `sbuf`: what was said of the next file, or the file being written. */
  datatype Rb =
    | Expecting(datapth: Option<string>, statbuf: string)
    | Writing(cmd: char, path: string, into: string, statbuf: string, isDelta: bool, content: string)
    | Ended
    | Broken

  const BLANK_RB := Expecting(None, "")

  function RxStep(env: Env, rb: Rb, m: Msg): (Rb, seq<Arrival>) {
    if rb.Ended? || rb.Broken? then (Broken, [])
    else if m.cmd == CMD_WARNING then (rb, [])
    else match rb
      case Writing(cmd, path, into, statbuf, isDelta, content) =>
        if m.cmd == CMD_APPEND then (rb.(content := content + m.body), [])
        else if m.cmd == CMD_END_FILE then
          (BLANK_RB,
           [Arrival(Sbuf(cmd, path, None, Some(into), statbuf, env.decode(statbuf), Some(m.body)), content, isDelta)])
        else (Broken, [])
      case Expecting(datapth, statbuf) =>
        if m.cmd == CMD_DATAPTH then (Expecting(Some(m.body), statbuf), [])
        else if m.cmd == CMD_STAT then (Expecting(datapth, m.body), [])
        else if FileData(m.cmd) then
          (match datapth
           case Some(dp) => (Writing(m.cmd, m.body, dp, statbuf, true, ""), [])
           case None => (Writing(m.cmd, m.body, env.newPath(m.cmd, m.body), statbuf, false, ""), []))
        else if m == OK_PHASE2_END then (Ended, [])
        else if m.cmd == CMD_INTERRUPT then (rb, [])
        else (Broken, [])
      case _ => (Broken, [])
  }

  function RxRun(env: Env, rb: Rb, ms: seq<Msg>): (Rb, seq<Arrival>) {
    Run((rb: Rb, m: Msg) => RxStep(env, rb, m), rb, ms)
  }

  lemma RxRunAppend(env: Env, rb: Rb, a: seq<Msg>, b: seq<Msg>)
    ensures RxRun(env, rb, a + b).0 == RxRun(env, RxRun(env, rb, a).0, b).0
    ensures RxRun(env, rb, a + b).1 == RxRun(env, rb, a).1 + RxRun(env, RxRun(env, rb, a).0, b).1
  {
    RunAppend((rb: Rb, m: Msg) => RxStep(env, rb, m), rb, a, b);
  }

  lemma RxOne(env: Env, rb: Rb, m: Msg)
    ensures RxRun(env, rb, [m]) == RxStep(env, rb, m)
  {
    RunOne((rb: Rb, m: Msg) => RxStep(env, rb, m), rb, m);
  }

  // ----- One request, all the way there and back -----

  /** What the server sends for a request. */
  function RequestMsgs(env: Env, r: Request): seq<Msg> {
    (if r.datapth.Some? then [Msg(CMD_DATAPTH, r.datapth.value)] else []) +
    [Msg(CMD_STAT, r.stat), Msg(r.cmd, r.path)] +
    (if r.datapth.Some? then Appends(env.signature(r.datapth.value)) + [Msg(CMD_END_FILE, "endfile")] else [])
  }

  /** What it should get for it: nothing from a client that has nothing to send. */
  function Expected(env: Env, r: Request): seq<Arrival> {
    if !Answers(env, r.cmd, r.path) then []
    else
      var a := env.answer(r.cmd, r.path);
      match r.datapth
      case Some(dp) =>
        [Arrival(Sbuf(r.cmd, r.path, None, Some(dp), a.stat, env.decode(a.stat), Some(a.endfile)),
                 Flatten(env.delta(r.path, env.signature(dp))), true)]
      case None =>
        var dp := env.newPath(r.cmd, r.path);
        [Arrival(Sbuf(r.cmd, r.path, None, Some(dp), a.stat, env.decode(a.stat), Some(a.endfile)),
                 Flatten(env.whole(r.cmd, r.path)), false)]
  }

  function ExpectedAll(env: Env, rs: seq<Request>): seq<Arrival> {
    if rs == [] then [] else ExpectedAll(env, rs[..|rs| - 1]) + Expected(env, rs[|rs| - 1])
  }

  lemma NothingRun(env: Env, c: Client, rb: Rb)
    ensures ClientRun(env, c, []) == (c, []) && RxRun(env, rb, []) == (rb, [])
  {
  }

  lemma {:induction false} SignatureRun(env: Env, c: Client, blocks: seq<string>)
    requires c.Signature?
    ensures ClientRun(env, c, Appends(blocks)) == (c.(blocks := c.blocks + blocks), [])
    decreases |blocks|
  {
    NothingRun(env, c, BLANK_RB);
    hide ClientRun;
    if blocks == [] {
      assert c.blocks + blocks == c.blocks;
    } else {
      var n := |blocks| - 1;
      var m := Msg(CMD_APPEND, blocks[n]);
      assert Appends(blocks) == Appends(blocks[..n]) + [m];
      ClientRunAppend(env, c, Appends(blocks[..n]), [m]);
      SignatureRun(env, c, blocks[..n]);
      ClientOne(env, c.(blocks := c.blocks + blocks[..n]), m);
      assert c.blocks + blocks[..n] + [blocks[n]] == c.blocks + blocks;
    }
  }

  lemma {:induction false} WritingRun(env: Env, rb: Rb, chunks: seq<string>)
    requires rb.Writing?
    ensures RxRun(env, rb, Appends(chunks)) == (rb.(content := rb.content + Flatten(chunks)), [])
    decreases |chunks|
  {
    NothingRun(env, BLANK_CLIENT, rb);
    hide RxRun;
    if chunks == [] {
      assert rb.content + "" == rb.content;
    } else {
      var n := |chunks| - 1;
      var m := Msg(CMD_APPEND, chunks[n]);
      assert Appends(chunks) == Appends(chunks[..n]) + [m];
      RxRunAppend(env, rb, Appends(chunks[..n]), [m]);
      WritingRun(env, rb, chunks[..n]);
      RxOne(env, rb.(content := rb.content + Flatten(chunks[..n])), m);
      assert rb.content + Flatten(chunks[..n]) + chunks[n] == rb.content + Flatten(chunks);
    }
  }

  /** The server takes in a file's chunks and its end. */
  lemma FileRun(env: Env, rb: Rb, chunks: seq<string>, endfile: string)
    requires rb.Writing?
    ensures RxRun(env, rb, Appends(chunks) + [Msg(CMD_END_FILE, endfile)]) ==
            (BLANK_RB, [Arrival(
              Sbuf(rb.cmd, rb.path, None, Some(rb.into), rb.statbuf, env.decode(rb.statbuf), Some(endfile)),
              rb.content + Flatten(chunks), rb.isDelta)])
  {
    hide ClientRun, RxRun;
    WritingRun(env, rb, chunks);
    RxRunAppend(env, rb, Appends(chunks), [Msg(CMD_END_FILE, endfile)]);
    RxOne(env, rb.(content := rb.content + Flatten(chunks)), Msg(CMD_END_FILE, endfile));
    var last := RxStep(env, rb.(content := rb.content + Flatten(chunks)), Msg(CMD_END_FILE, endfile));
    assert [] + last.1 == last.1;
  }

  /** The client's answer to a whole-file request. */
  lemma WholeRequest(env: Env, r: Request)
    requires RequestOk(r) && r.datapth.None?
    ensures ClientRun(env, BLANK_CLIENT, RequestMsgs(env, r)).0 == BLANK_CLIENT
    ensures RxRun(env, BLANK_RB, ClientRun(env, BLANK_CLIENT, RequestMsgs(env, r)).1) == (BLANK_RB, Expected(env, r))
  {
    hide ClientRun, RxRun;
    var s, m := Msg(CMD_STAT, r.stat), Msg(r.cmd, r.path);
    assert RequestMsgs(env, r) == [s] + [m];
    ClientRunAppend(env, BLANK_CLIENT, [s], [m]);
    ClientOne(env, BLANK_CLIENT, s);
    ClientOne(env, BLANK_CLIENT, m);
    var out := ClientStep(env, BLANK_CLIENT, m).1;
    assert ClientRun(env, BLANK_CLIENT, RequestMsgs(env, r)).1 == out;
    var a := env.answer(r.cmd, r.path);
    if Answers(env, r.cmd, r.path) {
      var st := Msg(CMD_STAT, a.stat);
      var rest := Appends(env.whole(r.cmd, r.path)) + [Msg(CMD_END_FILE, a.endfile)];
      assert out == [st] + ([m] + rest);
      RxRunAppend(env, BLANK_RB, [st], [m] + rest);
      RxOne(env, BLANK_RB, st);
      RxRunAppend(env, Expecting(None, a.stat), [m], rest);
      RxOne(env, Expecting(None, a.stat), m);
      FileRun(env, Writing(r.cmd, r.path, env.newPath(r.cmd, r.path), a.stat, false, ""),
              env.whole(r.cmd, r.path), a.endfile);
      assert "" + Flatten(env.whole(r.cmd, r.path)) == Flatten(env.whole(r.cmd, r.path));
      assert [] + ([] + Expected(env, r)) == Expected(env, r);
    } else {
      NothingSent(env, r.path, a.vanished, out);
    }
  }

  /** A warning, and an interrupt if the path has gone, log nothing. */
  lemma NothingSent(env: Env, path: string, vanished: bool, out: seq<Msg>)
    requires out == [Msg(CMD_WARNING, path)] + if vanished then [Msg(CMD_INTERRUPT, path)] else []
    ensures RxRun(env, BLANK_RB, out) == (BLANK_RB, [])
  {
    NothingRun(env, BLANK_CLIENT, BLANK_RB);
    hide ClientRun, RxRun;
    var w, i := Msg(CMD_WARNING, path), Msg(CMD_INTERRUPT, path);
    RxOne(env, BLANK_RB, w);
    RxOne(env, BLANK_RB, i);
    RxRunAppend(env, BLANK_RB, [w], if vanished then [i] else []);
  }

  /** The client's answer to a request for a delta; it takes in the signature even
      if it has no file to compare it with. */
  lemma DeltaRequest(env: Env, r: Request)
    requires RequestOk(r) && r.datapth.Some?
    ensures ClientRun(env, BLANK_CLIENT, RequestMsgs(env, r)).0 == BLANK_CLIENT
    ensures RxRun(env, BLANK_RB, ClientRun(env, BLANK_CLIENT, RequestMsgs(env, r)).1) == (BLANK_RB, Expected(env, r))
  {
    hide ClientRun, RxRun;
    var dp := r.datapth.value;
    var d, s, m, e := Msg(CMD_DATAPTH, dp), Msg(CMD_STAT, r.stat), Msg(r.cmd, r.path), Msg(CMD_END_FILE, "endfile");
    var sig := env.signature(dp);
    assert RequestMsgs(env, r) == [d] + ([s] + ([m] + (Appends(sig) + [e])));
    ClientRunAppend(env, BLANK_CLIENT, [d], [s] + ([m] + (Appends(sig) + [e])));
    ClientOne(env, BLANK_CLIENT, d);
    ClientRunAppend(env, Idle(Some(dp)), [s], [m] + (Appends(sig) + [e]));
    ClientOne(env, Idle(Some(dp)), s);
    ClientRunAppend(env, Idle(Some(dp)), [m], Appends(sig) + [e]);
    ClientOne(env, Idle(Some(dp)), m);
    var a := env.answer(CMD_FILE, r.path);
    var c := Signature(r.path, a.vanished, []);
    ClientRunAppend(env, c, Appends(sig), [e]);
    SignatureRun(env, c, sig);
    assert c.blocks + sig == sig;
    ClientOne(env, c.(blocks := sig), e);
    var out := ClientRun(env, BLANK_CLIENT, RequestMsgs(env, r)).1;
    if a.vanished {
      assert out == [Msg(CMD_WARNING, r.path), Msg(CMD_INTERRUPT, r.path)];
      NothingSent(env, r.path, true, out);
    } else {
      DeltaReply(env, r, out);
    }
  }

  lemma DeltaReply(env: Env, r: Request, out: seq<Msg>)
    requires RequestOk(r) && r.datapth.Some? && Answers(env, r.cmd, r.path)
    requires var a := env.answer(CMD_FILE, r.path); var dp := r.datapth.value;
             out == [Msg(CMD_DATAPTH, dp), Msg(CMD_STAT, a.stat), Msg(CMD_FILE, r.path)] +
                    (Appends(env.delta(r.path, env.signature(dp))) + [Msg(CMD_END_FILE, a.endfile)])
    ensures RxRun(env, BLANK_RB, out) == (BLANK_RB, Expected(env, r))
  {
    hide ClientRun, RxRun;
    var a, dp := env.answer(CMD_FILE, r.path), r.datapth.value;
    var d, st, m := Msg(CMD_DATAPTH, dp), Msg(CMD_STAT, a.stat), Msg(CMD_FILE, r.path);
    var chunks := env.delta(r.path, env.signature(dp));
    var rest := Appends(chunks) + [Msg(CMD_END_FILE, a.endfile)];
    assert out == [d] + ([st] + ([m] + rest));
    RxRunAppend(env, BLANK_RB, [d], [st] + ([m] + rest));
    RxOne(env, BLANK_RB, d);
    RxRunAppend(env, Expecting(Some(dp), ""), [st], [m] + rest);
    RxOne(env, Expecting(Some(dp), ""), st);
    RxRunAppend(env, Expecting(Some(dp), a.stat), [m], rest);
    RxOne(env, Expecting(Some(dp), a.stat), m);
    FileRun(env, Writing(CMD_FILE, r.path, dp, a.stat, true, ""), chunks, a.endfile);
    assert "" + Flatten(chunks) == Flatten(chunks);
    assert [] + ([] + ([] + Expected(env, r))) == Expected(env, r);
  }

  /** A request through an idle client into a blank server. */
  lemma OneRequest(env: Env, r: Request)
    requires RequestOk(r)
    ensures ClientRun(env, BLANK_CLIENT, RequestMsgs(env, r)).0 == BLANK_CLIENT
    ensures RxRun(env, BLANK_RB, ClientRun(env, BLANK_CLIENT, RequestMsgs(env, r)).1) == (BLANK_RB, Expected(env, r))
  {
    if r.datapth.None? { WholeRequest(env, r); } else { DeltaRequest(env, r); }
  }

  // ----- What is still on its way -----

  /** Where the client and the server will be, and what will have been logged, once
      the messages `toClient` and then all of `toServer` have been handled. */
  datatype Outlook = Outlook(client: Client, rb: Rb, arrivals: seq<Arrival>)

  function Ahead(env: Env, c: Client, rb: Rb, toClient: seq<Msg>, toServer: seq<Msg>): Outlook {
    var (c', out) := ClientRun(env, c, toClient);
    var (rb', arrivals) := RxRun(env, rb, toServer + out);
    Outlook(c', rb', arrivals)
  }

  lemma ClientTurn(env: Env, c: Client, rb: Rb, m: Msg, toClient: seq<Msg>, toServer: seq<Msg>)
    ensures Ahead(env, c, rb, [m] + toClient, toServer) ==
            Ahead(env, ClientStep(env, c, m).0, rb, toClient, toServer + ClientStep(env, c, m).1)
  {
    hide ClientRun, RxRun, ClientStep, RxStep;
    ClientRunAppend(env, c, [m], toClient);
    ClientOne(env, c, m);
    var o1 := ClientStep(env, c, m).1;
    var o2 := ClientRun(env, ClientStep(env, c, m).0, toClient).1;
    assert toServer + (o1 + o2) == toServer + o1 + o2;
  }

  lemma ServerTurn(env: Env, c: Client, rb: Rb, toClient: seq<Msg>, m: Msg, toServer: seq<Msg>)
    ensures var a := Ahead(env, c, rb, toClient, [m] + toServer);
            var b := Ahead(env, c, RxStep(env, rb, m).0, toClient, toServer);
            a.client == b.client && a.rb == b.rb && a.arrivals == RxStep(env, rb, m).1 + b.arrivals
  {
    hide ClientRun, RxRun, ClientStep, RxStep;
    var out := ClientRun(env, c, toClient).1;
    assert [m] + toServer + out == [m] + (toServer + out);
    RxRunAppend(env, rb, [m], toServer + out);
    RxOne(env, rb, m);
  }

  lemma MoreToSend(env: Env, c: Client, rb: Rb, toClient: seq<Msg>, toServer: seq<Msg>, more: seq<Msg>)
    ensures var a := Ahead(env, c, rb, toClient, toServer);
            var b := Ahead(env, a.client, a.rb, more, []);
            Ahead(env, c, rb, toClient + more, toServer) == Outlook(b.client, b.rb, a.arrivals + b.arrivals)
  {
    hide ClientRun, RxRun, ClientStep, RxStep;
    var a := Ahead(env, c, rb, toClient, toServer);
    ClientRunAppend(env, c, toClient, more);
    var o1, o2 := ClientRun(env, c, toClient).1, ClientRun(env, a.client, more).1;
    assert toServer + (o1 + o2) == (toServer + o1) + o2;
    assert [] + o2 == o2;
    RxRunAppend(env, rb, toServer + o1, o2);
  }

  lemma NewRequest(env: Env, c: Client, rb: Rb, toClient: seq<Msg>, toServer: seq<Msg>, r: Request)
    requires RequestOk(r)
    requires Ahead(env, c, rb, toClient, toServer).client == BLANK_CLIENT
    requires Ahead(env, c, rb, toClient, toServer).rb == BLANK_RB
    ensures Ahead(env, c, rb, toClient + RequestMsgs(env, r), toServer) ==
            Outlook(BLANK_CLIENT, BLANK_RB, Ahead(env, c, rb, toClient, toServer).arrivals + Expected(env, r))
  {
    hide ClientRun, RxRun;
    MoreToSend(env, c, rb, toClient, toServer, RequestMsgs(env, r));
    OneRequest(env, r);
    var out := ClientRun(env, BLANK_CLIENT, RequestMsgs(env, r)).1;
    assert [] + out == out;
  }

  lemma EndRequest(env: Env, c: Client, rb: Rb, toClient: seq<Msg>, toServer: seq<Msg>)
    requires Ahead(env, c, rb, toClient, toServer).client == BLANK_CLIENT
    requires Ahead(env, c, rb, toClient, toServer).rb == BLANK_RB
    ensures Ahead(env, c, rb, toClient + [PHASE2_END], toServer) ==
            Outlook(Quit(false), Ended, Ahead(env, c, rb, toClient, toServer).arrivals)
  {
    hide ClientRun, RxRun;
    MoreToSend(env, c, rb, toClient, toServer, [PHASE2_END]);
    ClientOne(env, BLANK_CLIENT, PHASE2_END);
    RxOne(env, BLANK_RB, OK_PHASE2_END);
    assert [] + [OK_PHASE2_END] == [OK_PHASE2_END];
    var arr := Ahead(env, c, rb, toClient, toServer).arrivals;
    assert arr + [] == arr;
  }

  /** A server that has broken off stays so. */
  lemma {:induction false} BrokenStays(env: Env, rb: Rb, ms: seq<Msg>)
    requires rb.Broken?
    ensures RxRun(env, rb, ms).0.Broken?
    decreases |ms|
  {
    NothingRun(env, BLANK_CLIENT, rb);
    hide ClientRun, RxRun;
    if ms != [] {
      assert ms == [ms[0]] + ms[1..];
      RxRunAppend(env, rb, [ms[0]], ms[1..]);
      RxOne(env, rb, ms[0]);
      BrokenStays(env, rb, ms[1..]);
    }
  }
}
