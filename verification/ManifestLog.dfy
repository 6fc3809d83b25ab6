/** The manifest and its logs as text: one message to a line, a few lines to a
    record (src/msg.c, src/sbuf.c, src/asyncio.c). */
module ManifestLog {
  import opened Wrappers
  import opened Records
  import opened Framing
  import opened StatCodec

  // ----- Writing -----

  function Line(m: Message): string { Header(m.cmd, |m.payload|) + m.payload + "\n" }

  function Lines(ms: seq<Message>): string {
    if ms == [] then "" else Line(ms[0]) + Lines(ms[1..])
  }

  /** The messages of a record; phase 1 leaves out the end of the file. */
  function MessagesOf(sb: Sbuf, phase1: bool): seq<Message> {
    (if sb.datapth.Some? then [Message(CMD_DATAPTH, sb.datapth.value)] else []) +
    [Message(CMD_STAT, sb.statbuf), Message(sb.cmd, sb.path)] +
    (if sb.linkto.Some? then [Message(sb.cmd, sb.linkto.value)] else []) +
    if !phase1 && FileData(sb.cmd)
    then [Message(CMD_END_FILE, if sb.endfile.Some? then sb.endfile.value else "")] else []
  }

  function Print(es: seq<Sbuf>, phase1: bool): string {
    if es == [] then ""
    else
      var n := |es| - 1;
      Print(es[..n], phase1) + Lines(MessagesOf(es[n], phase1))
  }

  predicate Short(m: Message) { |m.payload| <= 0xFFFF }

  ghost predicate AllShort(ms: seq<Message>) { forall i :: 0 <= i < |ms| ==> Short(ms[i]) }

  class LogFile {
    var text: string

    constructor (text: string)
      ensures this.text == text
    {
      this.text := text;
    }

    /** `send_msg_fp`: an error, with the header already written, if the length does
        not fit its four digits. */
    method SendMsg(m: Message) returns (ok: bool)
      modifies this
      ensures ok <==> Short(m)
      ensures text == old(text) + if ok then Line(m) else Header(m.cmd, |m.payload|)
    {
      var header := Header(m.cmd, |m.payload|);
      HeaderIsFive(m.cmd, |m.payload|);
      text := text + header;
      if |header| != 5 { return false; }
      text := text + m.payload + "\n";
      assert text == old(text) + Line(m);
      return true;
    }

    /** `sbuf_to_fp`: all lines of a record, or an error part way. */
    method SbufToLog(sb: Sbuf, phase1: bool) returns (ok: bool)
      modifies this
      ensures ok <==> AllShort(MessagesOf(sb, phase1))
      ensures ok ==> text == old(text) + Lines(MessagesOf(sb, phase1))
      ensures old(text) <= text
    {
      hide Line, MessagesOf, Short;
      var ms := MessagesOf(sb, phase1);
      for i := 0 to |ms|
        invariant AllShort(ms[..i]) && text == old(text) + Lines(ms[..i])
      {
        ok := SendMsg(ms[i]);
        if !ok { return; }
        assert ms[..i + 1] == ms[..i] + [ms[i]];
        LinesMore(ms[..i], ms[i]);
      }
      assert ms[..|ms|] == ms;
      return true;
    }
  }

  lemma {:induction false} LinesMore(ms: seq<Message>, m: Message)
    ensures Lines(ms + [m]) == Lines(ms) + Line(m)
  {
    hide Line;
    if ms == [] {
      assert [m][1..] == [] && [] + [m] == [m];
    } else {
      LinesMore(ms[1..], m);
      assert (ms + [m])[1..] == ms[1..] + [m];
    }
  }

  // ----- Reading -----

  /** The answers of the reading functions: 0 with what was read, 1 and -1. */
  datatype Answer<T> = Read(value: T, rest: string) | Ended | Error

  /** `async_read_fp`: the header, then the payload and one character more. */
  function ReadLine(s: string): (a: Answer<Message>)
    ensures a.Read? ==> |a.rest| < |s|
  {
    if |s| < 5 then Ended
    else
      var n := ScanHex(s[1..5]);
      if n.None? then Error
      else if |s| < n.value + 6 then Ended
      else Read(Message(s[0], s[5..n.value + 5]), s[n.value + 6..])
  }

  predicate EndsPhase(m: Message) {
    m.cmd == CMD_GEN &&
    m.payload in ["backupend", "restoreend", "phase1end", "backupphase2", "estimateend"]
  }

  /** `async_read_stat`: the data path if there is one, then the stat record. */
  function ReadStat(s: string, d: Option<string>): (a: Answer<(Option<string>, string)>)
    ensures a.Read? ==> |a.rest| < |s|
    decreases |s|
  {
    match ReadLine(s)
    case Ended => Ended
    case Error => Error
    case Read(m, rest) =>
      if m.cmd == CMD_DATAPTH then ReadStat(rest, Some(m.payload))
      else if m.cmd == CMD_STAT then Read((d, m.payload), rest)
      else if EndsPhase(m) then Ended
      else Error
  }

  /** What the server makes of a stat record. */
  function StatOf(statbuf: string): Stat {
    match Meaning(statbuf)
    case None => Stat(false, 0, 0, -1)
    case Some(d) => Stat((d.st.mode / 0x1000) % 0x10 == 4, d.st.mtime, d.st.ctime, d.compression)
  }

  /** `do_sbuf_fill_from_file` */
  function Fill(s: string, phase1: bool): (a: Answer<Sbuf>)
    ensures a.Read? ==> |a.rest| < |s|
  {
    match ReadStat(s, None)
    case Ended => Ended
    case Error => Error
    case Read((d, statbuf), s1) => FillRest(d, statbuf, s1, phase1)
  }

  /** The path, and what goes with it. */
  function FillRest(d: Option<string>, statbuf: string, s1: string, phase1: bool): (a: Answer<Sbuf>)
    ensures a.Read? ==> |a.rest| < |s1|
  {
    match ReadLine(s1)
    case Ended => Ended
    case Error => Error
    case Read(m, s2) => FillTail(Sbuf(m.cmd, m.payload, None, d, statbuf, StatOf(statbuf), None), s2, phase1)
  }

  /** Where a link points to, or the end of a file. */
  function FillTail(sb: Sbuf, s2: string, phase1: bool): (a: Answer<Sbuf>)
    ensures a.Read? ==> |a.rest| <= |s2|
  {
    if IsLink(sb.cmd) then
      match ReadLine(s2)
      case Ended => Ended
      case Error => Error
      case Read(l, s3) => if IsLink(l.cmd) then Read(sb.(linkto := Some(l.payload)), s3) else Error
    else if !phase1 && FileData(sb.cmd) then
      match ReadLine(s2)
      case Ended => Ended
      case Error => Error
      case Read(x, s3) => if x.cmd == CMD_END_FILE then Read(sb.(endfile := Some(x.payload)), s3) else Error
    else Read(sb, s2)
  }

  /** A log read to its end. */
  method ReadLog(text: string, phase1: bool) returns (es: seq<Sbuf>, ok: bool)
    ensures Parses(text, phase1, es, ok)
  {
    hide Fill;
    es := [];
    var s := text;
    assert forall more: seq<Sbuf> :: es + more == more;
    while true
      invariant forall more, k :: Parses(s, phase1, more, k) ==> Parses(text, phase1, es + more, k)
      decreases |s|
    {
      ghost var before, was := es, s;
      match Fill(s, phase1) {
        case Ended =>
          assert Parses(s, phase1, [], true) && es + [] == es;
          return es, true;
        case Error =>
          assert Parses(s, phase1, [], false) && es + [] == es;
          return es, false;
        case Read(sb, rest) =>
          s := rest;
          es := es + [sb];
          forall more, k | Parses(s, phase1, more, k) ensures Parses(text, phase1, es + more, k) {
            assert ([sb] + more)[1..] == more;
            assert Parses(was, phase1, [sb] + more, k);
            assert es + more == before + ([sb] + more);
          }
      }
    }
  }

  /** Filling one record after the other gives `es`, then the end or an error. */
  ghost predicate Parses(s: string, phase1: bool, es: seq<Sbuf>, ok: bool)
    decreases |es|
  {
    match Fill(s, phase1)
    case Ended => es == [] && ok
    case Error => es == [] && !ok
    case Read(sb, rest) => es != [] && es[0] == sb && Parses(rest, phase1, es[1..], ok)
  }

  // ----- What was written is read -----

  /** A record that its log can hold and give back. */
  ghost predicate WellFormed(sb: Sbuf, phase1: bool) {
    && AllShort(MessagesOf(sb, phase1))
    && (sb.linkto.Some? <==> IsLink(sb.cmd))
    && (sb.endfile.Some? <==> !phase1 && FileData(sb.cmd))
    && sb.statp == StatOf(sb.statbuf)
  }

  ghost predicate AllWellFormed(es: seq<Sbuf>, phase1: bool) {
    forall i :: 0 <= i < |es| ==> WellFormed(es[i], phase1)
  }

  /** A line is read when all of it is there; before that the file has ended. */
  lemma ReadsLine(m: Message, s: string, cut: string, rest: string)
    requires Short(m) && s + cut == Line(m) + rest
    ensures |s| < |Line(m)| ==> ReadLine(s) == Ended
    ensures |s| >= |Line(m)| ==> ReadLine(s) == Read(m, s[|Line(m)|..]) && s[|Line(m)|..] + cut == rest
  {
    var n := |m.payload|;
    HeaderIsFive(m.cmd, n);
    var digits, l := Padded(PrintHex(n)), Line(m);
    assert l == [m.cmd] + digits + m.payload + "\n" && |l| == n + 6;
    assert forall i :: 0 <= i < |s| && i < |l| ==> s[i] == (s + cut)[i] == l[i];
    if |s| >= 5 {
      assert s[1..5] == digits + "";
      ScanPrinted(n, "");
    }
    if |s| >= |l| {
      assert s[5..n + 5] == l[5..n + 5] == m.payload;
      assert s[|l|..] + cut == (s + cut)[|l|..] == rest;
    }
  }

  /** The lines up to the stat record. */
  function StatLines(sb: Sbuf): string {
    var stat := Line(Message(CMD_STAT, sb.statbuf));
    if sb.datapth.Some? then Line(Message(CMD_DATAPTH, sb.datapth.value)) + stat else stat
  }

  /** The line after the path, if there is one. */
  function LastMessage(sb: Sbuf, phase1: bool): Option<Message> {
    if IsLink(sb.cmd) && sb.linkto.Some? then Some(Message(sb.cmd, sb.linkto.value))
    else if !phase1 && FileData(sb.cmd) && sb.endfile.Some? then Some(Message(CMD_END_FILE, sb.endfile.value))
    else None
  }

  function LastLine(sb: Sbuf, phase1: bool): string {
    if LastMessage(sb, phase1).Some? then Line(LastMessage(sb, phase1).value) else ""
  }

  lemma RecordIsShort(sb: Sbuf, phase1: bool)
    requires WellFormed(sb, phase1)
    ensures Short(Message(CMD_STAT, sb.statbuf)) && Short(Message(sb.cmd, sb.path))
    ensures sb.datapth.Some? ==> Short(Message(CMD_DATAPTH, sb.datapth.value))
    ensures LastMessage(sb, phase1).Some? ==> Short(LastMessage(sb, phase1).value)
  {
    var ms := MessagesOf(sb, phase1);
    var k := if sb.datapth.Some? then 1 else 0;
    assert ms[k] == Message(CMD_STAT, sb.statbuf) && ms[k + 1] == Message(sb.cmd, sb.path);
    assert k == 1 ==> ms[0] == Message(CMD_DATAPTH, sb.datapth.value);
    assert LastMessage(sb, phase1).Some? ==> ms[k + 2] == LastMessage(sb, phase1).value;
  }

  lemma RecordLines(sb: Sbuf, phase1: bool)
    requires WellFormed(sb, phase1)
    ensures Lines(MessagesOf(sb, phase1)) == StatLines(sb) + Line(Message(sb.cmd, sb.path)) + LastLine(sb, phase1)
  {
    hide Line, AllShort;
    var ms := MessagesOf(sb, phase1);
    var k := if sb.datapth.Some? then 1 else 0;
    var tail := LastMessage(sb, phase1);
    assert ms[k] == Message(CMD_STAT, sb.statbuf) && ms[k + 1] == Message(sb.cmd, sb.path);
    assert k == 1 ==> ms[0] == Message(CMD_DATAPTH, sb.datapth.value);
    assert ms[k + 2..] == if tail.Some? then [tail.value] else [];
    assert tail.Some? ==> ms[k + 2] == tail.value;
    assert Lines(ms[k + 2..]) == LastLine(sb, phase1);
    assert ms[k..][1..] == ms[k + 1..] && ms[k + 1..][1..] == ms[k + 2..];
    assert Lines(ms[k..]) == Line(ms[k]) + Lines(ms[k + 1..]);
    assert Lines(ms[k + 1..]) == Line(ms[k + 1]) + Lines(ms[k + 2..]);
    assert ms[0..] == ms;
  }

  lemma ReadsStat(sb: Sbuf, s: string, cut: string, rest: string, n: nat)
    requires Short(Message(CMD_STAT, sb.statbuf))
    requires sb.datapth.Some? ==> Short(Message(CMD_DATAPTH, sb.datapth.value))
    requires var stat := Line(Message(CMD_STAT, sb.statbuf));
             match sb.datapth
             case None => s + cut == stat + rest && n == |stat|
             case Some(d) =>
               var line := Line(Message(CMD_DATAPTH, d));
               s + cut == line + (stat + rest) && n == |line| + |stat|
    ensures |s| < n ==> ReadStat(s, None) == Ended
    ensures |s| >= n ==> ReadStat(s, None) == Read((sb.datapth, sb.statbuf), s[n..]) && s[n..] + cut == rest
  {
    hide Line, ReadLine, ReadStat;
    var stat := Message(CMD_STAT, sb.statbuf);
    match sb.datapth
    case None => ReadsStatLine(stat, None, s, cut, rest);
    case Some(d) => ReadsBoth(Message(CMD_DATAPTH, d), stat, s, cut, rest);
  }

  lemma StatLinesInFront(sb: Sbuf, rest: string)
    ensures var stat := Line(Message(CMD_STAT, sb.statbuf));
            match sb.datapth
            case None => StatLines(sb) == stat
            case Some(d) =>
              var line := Line(Message(CMD_DATAPTH, d));
              StatLines(sb) + rest == line + (stat + rest) && |StatLines(sb)| == |line| + |stat|
  {
    hide Line;
  }

  lemma ReadsBoth(d: Message, stat: Message, s: string, cut: string, rest: string)
    requires Short(d) && d.cmd == CMD_DATAPTH && Short(stat) && stat.cmd == CMD_STAT
    requires s + cut == Line(d) + (Line(stat) + rest)
    ensures var n := |Line(d)| + |Line(stat)|;
            && (|s| < n ==> ReadStat(s, None) == Ended)
            && (|s| >= n ==>
                  ReadStat(s, None) == Read((Some(d.payload), stat.payload), s[n..]) && s[n..] + cut == rest)
  {
    hide Line, ReadLine, ReadStat;
    ReadsDataPath(d, s, cut, Line(stat) + rest);
    if |s| >= |Line(d)| {
      ReadsStatLine(stat, Some(d.payload), s[|Line(d)|..], cut, rest);
      DropTwice(s, |Line(d)|, |Line(stat)|);
    }
  }

  lemma DropTwice(s: string, a: nat, b: nat)
    requires a <= |s|
    ensures a + b <= |s| ==> s[a..][b..] == s[a + b..]
  {
  }

  lemma ReadsDataPath(d: Message, s: string, cut: string, rest: string)
    requires Short(d) && d.cmd == CMD_DATAPTH && s + cut == Line(d) + rest
    ensures |s| < |Line(d)| ==> ReadStat(s, None) == Ended
    ensures |s| >= |Line(d)| ==>
              ReadStat(s, None) == ReadStat(s[|Line(d)|..], Some(d.payload)) && s[|Line(d)|..] + cut == rest
  {
    hide Line, ReadLine;
    ReadsLine(d, s, cut, rest);
  }

  lemma ReadsStatLine(stat: Message, d: Option<string>, s: string, cut: string, rest: string)
    requires Short(stat) && stat.cmd == CMD_STAT && s + cut == Line(stat) + rest
    ensures |s| < |Line(stat)| ==> ReadStat(s, d) == Ended
    ensures |s| >= |Line(stat)| ==>
              ReadStat(s, d) == Read((d, stat.payload), s[|Line(stat)|..]) && s[|Line(stat)|..] + cut == rest
  {
    hide Line, ReadLine;
    ReadsLine(stat, s, cut, rest);
  }

  lemma ReadsTail(sb: Sbuf, phase1: bool, s2: string, cut: string, rest: string)
    requires WellFormed(sb, phase1) && s2 + cut == LastLine(sb, phase1) + rest
    ensures var n := |LastLine(sb, phase1)|;
            var bare := Sbuf(sb.cmd, sb.path, None, sb.datapth, sb.statbuf, StatOf(sb.statbuf), None);
            && (|s2| < n ==> FillTail(bare, s2, phase1) == Ended)
            && (|s2| >= n ==> FillTail(bare, s2, phase1) == Read(sb, s2[n..]) && s2[n..] + cut == rest)
  {
    RecordIsShort(sb, phase1);
    hide Line, ReadLine, StatOf, AllShort;
    var tail := LastMessage(sb, phase1);
    if tail.Some? { ReadsLine(tail.value, s2, cut, rest); }
  }

  lemma ReadsRest(sb: Sbuf, phase1: bool, s1: string, cut: string, rest: string)
    requires WellFormed(sb, phase1)
    requires s1 + cut == Line(Message(sb.cmd, sb.path)) + (LastLine(sb, phase1) + rest)
    ensures var n := |Line(Message(sb.cmd, sb.path))| + |LastLine(sb, phase1)|;
            && (|s1| < n ==> FillRest(sb.datapth, sb.statbuf, s1, phase1) == Ended)
            && (|s1| >= n ==>
                  FillRest(sb.datapth, sb.statbuf, s1, phase1) == Read(sb, s1[n..]) && s1[n..] + cut == rest)
  {
    RecordIsShort(sb, phase1);
    hide Line, ReadLine, StatOf, LastLine, FillTail, WellFormed;
    var m := Message(sb.cmd, sb.path);
    ReadsLine(m, s1, cut, LastLine(sb, phase1) + rest);
    if |s1| >= |Line(m)| {
      ReadsTail(sb, phase1, s1[|Line(m)|..], cut, rest);
      DropTwice(s1, |Line(m)|, |LastLine(sb, phase1)|);
    }
  }

  /** A record is read when all of it is there; before that the file has ended. */
  lemma ReadsRecord(sb: Sbuf, phase1: bool, s: string, cut: string, rest: string)
    requires WellFormed(sb, phase1) && s + cut == Lines(MessagesOf(sb, phase1)) + rest
    ensures var n := |Lines(MessagesOf(sb, phase1))|;
            && (|s| < n ==> Fill(s, phase1) == Ended)
            && (|s| >= n ==> Fill(s, phase1) == Read(sb, s[n..]) && s[n..] + cut == rest)
  {
    hide Line, ReadLine, ReadStat, FillRest, Lines, StatLines, LastLine, MessagesOf, WellFormed;
    RecordLines(sb, phase1);
    RecordIsShort(sb, phase1);
    var a, b, c := StatLines(sb), Line(Message(sb.cmd, sb.path)), LastLine(sb, phase1);
    assert s + cut == a + (b + (c + rest));
    StatLinesInFront(sb, b + (c + rest));
    ReadsStat(sb, s, cut, b + (c + rest), |a|);
    if |s| >= |a| {
      ReadsRest(sb, phase1, s[|a|..], cut, rest);
      DropTwice(s, |a|, |b| + |c|);
    }
  }

  lemma {:induction false} PrintFromFront(es: seq<Sbuf>, phase1: bool)
    requires es != []
    ensures Print(es, phase1) == Lines(MessagesOf(es[0], phase1)) + Print(es[1..], phase1)
  {
    hide Lines, MessagesOf;
    var n := |es| - 1;
    if n == 0 {
      assert es[..0] == [] && es[1..] == [];
    } else {
      PrintFromFront(es[..n], phase1);
      assert es[..n][1..] == es[1..][..n - 1] && es[1..][n - 1] == es[n];
      var first, last := Lines(MessagesOf(es[0], phase1)), Lines(MessagesOf(es[n], phase1));
      var mid := Print(es[1..n], phase1);
      assert es[1..][..n - 1] == es[1..n];
      assert (first + mid) + last == first + (mid + last);
    }
  }

  /** Cut anywhere, a log still reads without an error: as the records that are
      there whole. */
  lemma {:induction false} CutLogReads(es: seq<Sbuf>, phase1: bool, k: nat) returns (j: nat)
    requires AllWellFormed(es, phase1) && k <= |Print(es, phase1)|
    ensures j <= |es| && |Print(es[..j], phase1)| <= k
    ensures j < |es| ==> k < |Print(es[..j + 1], phase1)|
    ensures Parses(Print(es, phase1)[..k], phase1, es[..j], true)
  {
    hide Lines, MessagesOf, Fill, Print;
    j := 0;
    assert es[..0] == [];
    assert |Print([], phase1)| == 0 by { PrintNothing(phase1); }
    if es == [] {
      assert Fill("", phase1) == Ended by { FillNothing(phase1); }
    } else {
      var text := Print(es, phase1);
      var s, cut := text[..k], text[k..];
      var n, more := |Lines(MessagesOf(es[0], phase1))|, Print(es[1..], phase1);
      PrintFromFront(es, phase1);
      assert s + cut == text;
      ReadsRecord(es[0], phase1, s, cut, more);
      if k >= n {
        assert s[n..] == more[..k - n] by { assert text[n..] == more; }
        var i := CutLogReads(es[1..], phase1, k - n);
        j := i + 1;
        PrintedSome(es, phase1, i);
        if j < |es| { PrintedSome(es, phase1, j); }
        assert es[..j][1..] == es[1..][..i];
      } else {
        assert es[..1] == [es[0]];
        PrintedSome(es, phase1, 0);
      }
    }
  }

  lemma PrintedSome(es: seq<Sbuf>, phase1: bool, i: nat)
    requires i < |es|
    ensures |Print(es[..i + 1], phase1)| == |Lines(MessagesOf(es[0], phase1))| + |Print(es[1..][..i], phase1)|
  {
    hide Lines, MessagesOf, Print;
    PrintFromFront(es[..i + 1], phase1);
    assert es[..i + 1][1..] == es[1..][..i];
  }

  lemma PrintNothing(phase1: bool)
    ensures Print([], phase1) == ""
  {
  }

  lemma FillNothing(phase1: bool)
    ensures Fill("", phase1) == Ended
  {
  }

  /** A log reads as the list that was written. */
  lemma LogRoundTrips(es: seq<Sbuf>, phase1: bool)
    requires AllWellFormed(es, phase1)
    ensures Parses(Print(es, phase1), phase1, es, true)
  {
    hide Lines, MessagesOf, Fill, Print, Parses;
    var text := Print(es, phase1);
    var j := CutLogReads(es, phase1, |text|);
    if j < |es| { PrintGrows(es, phase1, j + 1); }
    assert text[..|text|] == text && es[..|es|] == es;
  }

  lemma {:induction false} PrintGrows(es: seq<Sbuf>, phase1: bool, i: nat)
    requires i <= |es|
    ensures |Print(es[..i], phase1)| <= |Print(es, phase1)|
    decreases |es| - i
  {
    if i == |es| {
      assert es[..i] == es;
    } else {
      PrintGrows(es, phase1, i + 1);
      assert es[..i + 1][..i] == es[..i];
    }
  }

  /** And only as that. */
  lemma {:induction false} ParsesUniquely(s: string, phase1: bool, es: seq<Sbuf>, ok: bool, es': seq<Sbuf>, ok': bool)
    requires Parses(s, phase1, es, ok) && Parses(s, phase1, es', ok')
    ensures es == es' && ok == ok'
    decreases |es|
  {
    hide Fill;
    var a := Fill(s, phase1);
    if a.Read? {
      ParsesUniquely(a.rest, phase1, es[1..], ok, es'[1..], ok');
      assert es == [es[0]] + es[1..] && es' == [es'[0]] + es'[1..];
    }
  }
}
