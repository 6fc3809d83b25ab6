/** The connection: messages framed into one buffer, a stream of bytes that may be
    cut anywhere, and another buffer they are taken out of (src/asyncio.c). */
module Wire {
  import opened Wrappers
  import opened Framing

  const ASYNC_BUF_LEN: nat := 16000
  const BUF_MAX: nat := ASYNC_BUF_LEN * 2 + 32

  /** The longest payload that an empty write buffer takes. */
  const MAX_PAYLOAD: nat := BUF_MAX - 8

  function Frame(m: Message): string { Header(m.cmd, |m.payload|) + m.payload }

  function Encode(ms: seq<Message>): string {
    if ms == [] then "" else Frame(ms[0]) + Encode(ms[1..])
  }

  predicate Fits(m: Message) { m.cmd != '\0' && |m.payload| <= MAX_PAYLOAD }

  ghost predicate AllFit(ms: seq<Message>) { forall i :: 0 <= i < |ms| ==> Fits(ms[i]) }

  // ----- Taking frames apart -----

  datatype Parsed = Bad | Wait | Got(m: Message, rest: string)

  function ParseFrame(s: string): Parsed {
    if |s| < 5 then Wait
    else
      var n := ScanHex(s[1..5]);
      if n.None? then Bad
      else if |s| < n.value + 5 then Wait
      else Got(Message(s[0], s[5..n.value + 5]), s[n.value + 5..])
  }

  lemma FrameLength(m: Message)
    requires Fits(m)
    ensures |Frame(m)| == |m.payload| + 5 < BUF_MAX
  {
    HeaderIsFive(m.cmd, |m.payload|);
  }

  lemma FrontOff(buf: string, behind: string, f: string, rest: string)
    requires buf + behind == f + rest && |buf| >= |f|
    ensures buf == f + buf[|f|..] && buf[|f|..] + behind == rest
  {
    assert f == (f + rest)[..|f|] == (buf + behind)[..|f|] == buf[..|f|];
    assert rest == (f + rest)[|f|..] == (buf + behind)[|f|..] == buf[|f|..] + behind;
  }

  /** What has come of a frame is enough exactly when all of it has. */
  lemma ParsesFrame(m: Message, buf: string, behind: string, rest: string)
    requires Fits(m) && buf + behind == Frame(m) + rest
    ensures ParseFrame(buf) ==
            if |buf| >= |Frame(m)| then Got(m, buf[|Frame(m)|..]) else Wait
    ensures |buf| >= |Frame(m)| ==> buf == Frame(m) + buf[|Frame(m)|..] && buf[|Frame(m)|..] + behind == rest
  {
    FrameLength(m);
    if |buf| >= |Frame(m)| { FrontOff(buf, behind, Frame(m), rest); }
    if |buf| >= 5 {
      var n := |m.payload|;
      var digits := Padded(PrintHex(n));
      HeaderIsFive(m.cmd, n);
      var f := Frame(m);
      assert f == [m.cmd] + digits + m.payload;
      assert forall i :: 0 <= i < |buf| && i < |f| ==> buf[i] == (buf + behind)[i] == f[i];
      assert buf[1..5] == digits + "" by { assert f[1..5] == digits; }
      ScanPrinted(n, "");
      if |buf| >= n + 5 { assert buf[5..n + 5] == f[5..] == m.payload; }
    }
  }

  lemma {:induction false} EncodeMore(ms: seq<Message>, m: Message)
    ensures Encode(ms + [m]) == Encode(ms) + Frame(m)
  {
    hide Frame;
    if ms == [] {
      assert [m][1..] == [] && [] + [m] == [m];
    } else {
      EncodeMore(ms[1..], m);
      assert (ms + [m])[1..] == ms[1..] + [m];
    }
  }

  lemma AppendedEncodes(sent: seq<Message>, d: nat, front: string, back: string, m: Message)
    requires d <= |sent| && front + back == Encode(sent[d..])
    ensures front + (back + Header(m.cmd, |m.payload|) + m.payload) == Encode((sent + [m])[d..])
  {
    hide Encode, Header;
    EncodeMore(sent[d..], m);
    assert (sent + [m])[d..] == sent[d..] + [m];
    var header := Header(m.cmd, |m.payload|);
    assert Frame(m) == header + m.payload;
    assert front + (back + header + m.payload) == (front + back) + (header + m.payload);
  }

  lemma NothingToParse()
    ensures ParseFrame("") == Wait
  {
  }

  // ----- The buffers -----

  /** `readbuf` or `writebuf`, with its length. */
  class Buffer {
    const data: array<char>
    var len: nat

    ghost predicate Valid()
      reads this, data
    {
      len <= data.Length == BUF_MAX
    }

    function Contents(): string
      requires Valid()
      reads this, data
    {
      data[..len]
    }

    constructor ()
      ensures Valid() && Contents() == "" && fresh(data)
    {
      data := new char[BUF_MAX];
      len := 0;
    }

    /** `append_to_write_buffer` */
    method Append(src: string)
      requires Valid() && len + |src| <= BUF_MAX
      modifies this, data
      ensures Valid() && Contents() == old(Contents()) + src
    {
      forall i | 0 <= i < |src| { data[len + i] := src[i]; }
      len := len + |src|;
    }

    /** The `memmove` of what is left to the front. */
    method Remove(n: nat)
      requires Valid() && n <= len
      modifies this, data
      ensures Valid() && Contents() == old(Contents())[n..]
    {
      forall i | 0 <= i < len - n { data[i] := data[i + n]; }
      len := len - n;
    }

    /** `parse_readbuf`: a frame, nothing yet, or an error that empties the buffer. */
    method ParseReadbuf() returns (ok: bool, m: Option<Message>)
      requires Valid()
      modifies this, data
      ensures Valid()
      ensures match ParseFrame(old(Contents()))
              case Bad => !ok && m == None && Contents() == ""
              case Wait => ok && m == None && Contents() == old(Contents())
              case Got(got, rest) => ok && m == Some(got) && Contents() == rest
    {
      var s := 0;
      if len >= 5 {
        assert data[1..5] == Contents()[1..5];
        var n := ScanHex(data[1..5]);
        if n.None? {
          len := 0;
          return false, None;
        }
        s := n.value;
      }
      if len < s + 5 { return true, None; }
      m := Some(Message(data[0], data[5..s + 5]));
      assert data[5..s + 5] == Contents()[5..s + 5];
      Remove(s + 5);
      return true, m;
    }
  }

  // ----- One direction of a connection -----

  class Link {
    const writebuf: Buffer        // at the sender
    var wire: string              // on its way
    const readbuf: Buffer         // at the receiver
    var delivered: seq<Message>
    ghost var sent: seq<Message>

    ghost predicate Valid()
      reads this, writebuf, writebuf.data, readbuf, readbuf.data
    {
      && writebuf != readbuf && writebuf.data != readbuf.data
      && writebuf.Valid() && readbuf.Valid()
      && AllFit(sent) && delivered <= sent
      && readbuf.Contents() + wire + writebuf.Contents() == Encode(sent[|delivered|..])
    }

    constructor ()
      ensures Valid() && delivered == [] && sent == [] && wire == ""
      ensures fresh(writebuf) && fresh(writebuf.data) && fresh(readbuf) && fresh(readbuf.data)
      ensures writebuf.Contents() == "" && readbuf.Contents() == ""
    {
      writebuf := new Buffer();
      readbuf := new Buffer();
      wire, delivered, sent := "", [], [];
    }

    /** `async_append_all_to_write_buffer`: all of the message or nothing. */
    method AppendAll(m: Message) returns (taken: bool)
      requires Valid() && m.cmd != '\0'
      modifies this`sent, writebuf, writebuf.data
      ensures Valid()
      ensures taken <==> old(writebuf.len) + 6 + |m.payload| < BUF_MAX - 1
      ensures sent == if taken then old(sent) + [m] else old(sent)
      ensures !taken ==> writebuf.Contents() == old(writebuf.Contents())
      ensures taken ==> |writebuf.Contents()| > 0
    {
      if writebuf.len + 6 + |m.payload| >= BUF_MAX - 1 { return false; }
      HeaderIsFive(m.cmd, |m.payload|);
      hide Encode, Header;
      AppendedEncodes(sent, |delivered|, readbuf.Contents() + wire, writebuf.Contents(), m);
      writebuf.Append(Header(m.cmd, |m.payload|));
      writebuf.Append(m.payload);
      sent := sent + [m];
      return true;
    }

    /** `do_write`: the network takes the first `w` bytes. */
    method DoWrite(w: nat)
      requires Valid() && w <= writebuf.len
      modifies this`wire, writebuf, writebuf.data
      ensures Valid() && wire == old(wire) + old(writebuf.Contents())[..w]
      ensures writebuf.Contents() == old(writebuf.Contents())[w..]
    {
      hide Encode;
      var bytes := writebuf.data[..w];
      ghost var front, back := readbuf.Contents() + wire, writebuf.Contents();
      assert bytes == back[..w] && front + back == (front + bytes) + back[w..];
      assert front + bytes == readbuf.Contents() + (wire + bytes);
      wire := wire + bytes;
      writebuf.Remove(w);
    }

    /** `do_read`: the network gives the next `r` bytes, for which there is room. */
    method DoRead(r: nat)
      requires Valid() && r <= |wire| && readbuf.len + r <= BUF_MAX
      modifies this`wire, readbuf, readbuf.data
      ensures Valid() && wire == old(wire)[r..]
      ensures readbuf.Contents() == old(readbuf.Contents()) + old(wire)[..r]
    {
      hide Encode;
      ghost var buf, back := readbuf.Contents(), writebuf.Contents();
      assert buf + wire + back == (buf + wire[..r]) + wire[r..] + back;
      readbuf.Append(wire[..r]);
      wire := wire[r..];
    }

    /** What the receiver parses is the next message that was sent; it never has to
        give up, and it waits only while it has room for more. */
    method Receive() returns (ok: bool, m: Option<Message>)
      requires Valid()
      modifies this`delivered, readbuf, readbuf.data
      ensures Valid() && ok
      ensures delivered == old(delivered) + if m.Some? then [m.value] else []
      ensures m.Some? <==> ParseFrame(old(readbuf.Contents())).Got?
      ensures m.Some? ==> |readbuf.Contents()| < |old(readbuf.Contents())|
      ensures m.None? ==> readbuf.Contents() == old(readbuf.Contents()) && readbuf.len < BUF_MAX
      ensures m.None? && readbuf.len > 0 ==> |wire| + writebuf.len > 0
    {
      hide ParseFrame;
      ghost var buf, behind := readbuf.Contents(), wire + writebuf.Contents();
      ghost var d := |delivered|;
      assert buf + behind == Encode(sent[d..]);
      if d < |sent| {
        ParsesFrame(sent[d], buf, behind, Encode(sent[d..][1..]));
        FrameLength(sent[d]);
      }
      assert ParseFrame("") == Wait by { NothingToParse(); }
      assert d == |sent| ==> buf == "";
      ok, m := readbuf.ParseReadbuf();
      if m.Some? {
        assert d < |sent|;
        delivered := delivered + [m.value];
        assert sent[d..][1..] == sent[d + 1..];
      }
    }
  }

  /** What is really sent: `async_write` does nothing for an empty message. */
  function NonEmpty(ms: seq<Message>): seq<Message> {
    if ms == [] then []
    else
      var n := |ms| - 1;
      NonEmpty(ms[..n]) + if ms[n].payload == "" then [] else [ms[n]]
  }

  /** However the network cuts the stream and whoever's turn it is, sending the
      messages ends with all of them delivered, once, in order and unaltered. */
  method Deliver(ms: seq<Message>) returns (got: seq<Message>)
    requires AllFit(ms)
    ensures got == NonEmpty(ms)
  {
    hide Encode, ParseFrame;
    var link := new Link();
    var i := 0;
    assert ms[..0] == [];
    while
      invariant i <= |ms| && link.Valid() && link.sent == NonEmpty(ms[..i])
      invariant fresh(link) && fresh(link.writebuf) && fresh(link.writebuf.data)
      invariant fresh(link.readbuf) && fresh(link.readbuf.data)
      decreases |ms| - i, link.writebuf.len, |link.wire|, link.readbuf.len
    {
      case i < |ms| && (ms[i].payload == "" || link.writebuf.len + 6 + |ms[i].payload| < BUF_MAX - 1) =>
        assert ms[..i + 1][..i] == ms[..i];
        if ms[i].payload != "" { var taken := link.AppendAll(ms[i]); }
        i := i + 1;
      case link.writebuf.len > 0 =>
        var w :| 0 < w <= link.writebuf.len;
        link.DoWrite(w);
      case |link.wire| > 0 || ParseFrame(link.readbuf.Contents()).Got? =>
        var ok, m := link.Receive();
        if m.None? {
          assert 0 < 1 <= |link.wire| && link.readbuf.len + 1 <= BUF_MAX;
          var r :| 0 < r <= |link.wire| && link.readbuf.len + r <= BUF_MAX;
          link.DoRead(r);
        }
    }
    assert ms[..i] == ms;
    NothingLeft(link);
    got := link.delivered;
  }

  /** When all buffers have drained, everything has been delivered. */
  lemma NothingLeft(link: Link)
    requires link.Valid() && link.writebuf.len == 0 && link.wire == ""
    requires !ParseFrame(link.readbuf.Contents()).Got?
    ensures link.delivered == link.sent
  {
    var rest := link.sent[|link.delivered|..];
    if rest != [] {
      assert link.readbuf.Contents() + "" == Frame(rest[0]) + Encode(rest[1..]);
      ParsesFrame(rest[0], link.readbuf.Contents(), "", Encode(rest[1..]));
    }
  }
}
