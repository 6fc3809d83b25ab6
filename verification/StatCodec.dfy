/** Stat records as text: base 64 numbers with spaces between them
    (src/base64.c, src/attribs.c). */
module StatCodec {
  import opened Wrappers
  import opened Records

  const TWO64: int := 0x1_0000_0000_0000_0000
  const INT64_MAX: int := 0x7FFF_FFFF_FFFF_FFFF

  /** Every 64-bit value whose negation is one too. */
  predicate InRange(v: int) { -INT64_MAX <= v <= INT64_MAX }

  function Digit(d: nat): char
    requires d < 64
  {
    if d < 26 then (d + 65) as char
    else if d < 52 then (d + 71) as char
    else if d < 62 then (d - 4) as char
    else if d == 62 then '+' else '/'
  }

  /** `base64_map`; a character that is no digit counts as zero. */
  function DigitValue(c: char): (d: nat)
    ensures d < 64
  {
    if 'A' <= c <= 'Z' then c as nat - 65
    else if 'a' <= c <= 'z' then c as nat - 71
    else if '0' <= c <= '9' then c as nat + 4
    else if c == '+' then 62 else if c == '/' then 63 else 0
  }

  function Digits(n: nat): (s: string)
    ensures s != "" && forall c :: c in s ==> c != ' ' && c != '-'
  {
    if n < 64 then [Digit(n)] else Digits(n / 64) + [Digit(n % 64)]
  }

  function Base64(v: int): string {
    if v < 0 then "-" + Digits(-v) else Digits(v)
  }

  /** What the digits before the first space amount to in an unsigned 64-bit integer. */
  function Accumulated(s: string): (v: nat)
    ensures v < TWO64
  {
    if s == "" then 0 else (Accumulated(s[..|s| - 1]) * 64 + DigitValue(s[|s| - 1])) % TWO64
  }

  function Signed(v: nat): int
    requires v < TWO64
  {
    if v <= INT64_MAX then v else v - TWO64
  }

  lemma {:induction false} AccumulatedDigits(n: nat)
    requires n < TWO64
    ensures Accumulated(Digits(n)) == n
  {
    var s := Digits(n);
    if n < 64 {
      assert s[..0] == "";
    } else {
      AccumulatedDigits(n / 64);
      assert s[..|s| - 1] == Digits(n / 64);
    }
  }

  function SizeOf(n: nat): nat { if n < 64 then 1 else 1 + SizeOf(n / 64) }

  lemma {:induction false} DigitsSize(n: nat)
    ensures |Digits(n)| == SizeOf(n)
  {
    if n >= 64 { DigitsSize(n / 64); }
  }

  lemma SizeOfMore(n: nat)
    ensures SizeOf(n) == 1 + if n / 64 == 0 then 0 else SizeOf(n / 64)
  {
  }

  /** The first loop of `to_base64`. */
  method CountDigits(magnitude: nat) returns (i: nat)
    ensures i == |Digits(magnitude)|
  {
    hide SizeOf;
    DigitsSize(magnitude);
    SizeOfMore(magnitude);
    var val: nat := magnitude / 64;
    i := 1;
    while val != 0
      invariant (if val == 0 then 0 else SizeOf(val)) + i == SizeOf(magnitude)
      decreases val
    {
      SizeOfMore(val);
      val := val / 64;
      i := i + 1;
    }
  }

  /** `to_base64`: sizes the number, then fills the buffer from its end. */
  method ToBase64(value: int, where: array<char>, at: nat) returns (n: nat)
    requires InRange(value) && at + |Base64(value)| < where.Length
    modifies where
    ensures n == |Base64(value)| && where[at..at + n] == Base64(value)
    ensures forall k :: 0 <= k < where.Length && !(at <= k <= at + n) ==> where[k] == old(where[k])
  {
    hide Digits;
    if value < 0 {
      where[at] := '-';
      var m := PutDigits(-value, where, at + 1);
      n := m + 1;
      assert where[at..at + n] == [where[at]] + where[at + 1..at + 1 + m];
    } else {
      n := PutDigits(value, where, at);
    }
  }

  /** The digits and the NUL after them. */
  method PutDigits(magnitude: nat, where: array<char>, at: nat) returns (n: nat)
    requires at + |Digits(magnitude)| < where.Length
    modifies where
    ensures n == |Digits(magnitude)| && where[at..at + n] == Digits(magnitude)
    ensures forall k :: 0 <= k < where.Length && !(at <= k <= at + n) ==> where[k] == old(where[k])
  {
    hide Digits;
    n := CountDigits(magnitude);
    where[at + n] := '\0';
    FillDigits(magnitude, where, at + n, at);
  }

  /** The second loop: digits from the lowest, down to where the number begins. */
  method FillDigits(magnitude: nat, where: array<char>, end: nat, first: nat)
    requires first <= end < where.Length && end - first == |Digits(magnitude)|
    modifies where
    ensures where[first..end] == Digits(magnitude)
    ensures forall k :: 0 <= k < where.Length && !(first <= k < end) ==> where[k] == old(where[k])
  {
    hide Digits, Digit;
    var i, val := end, magnitude;
    ghost var all := Digits(magnitude);
    var more := true;
    while more
      invariant first <= i <= end && (more <==> i > first)
      invariant more ==> Digits(val) == all[..i - first]
      invariant where[i..end] == all[i - first..]
      invariant forall k :: 0 <= k < where.Length && !(first <= k < end) ==> where[k] == old(where[k])
      decreases i
    {
      LastDigit(val);
      i := i - 1;
      where[i] := Digit(val % 64);
      assert where[i..end] == [where[i]] + where[i + 1..end];
      assert all[i - first] == Digit(val % 64) && all[i - first..] == [all[i - first]] + all[i + 1 - first..];
      val := val / 64;
      more := val != 0;
    }
  }

  lemma LastDigit(n: nat)
    ensures Digits(n)[|Digits(n)| - 1] == Digit(n % 64)
    ensures if n < 64 then |Digits(n)| == 1 else Digits(n)[..|Digits(n)| - 1] == Digits(n / 64)
  {
    if n >= 64 { assert (Digits(n / 64) + [Digit(n % 64)])[..|Digits(n / 64)|] == Digits(n / 64); }
  }

  // ----- Reading a number -----

  function Word(s: string): (w: string)
    ensures w <= s && ' ' !in w
    ensures |w| < |s| ==> s[|w|] == ' '
  {
    if s == "" || s[0] == ' ' then "" else [s[0]] + Word(s[1..])
  }

  function Negated(v: int): int { if v == -INT64_MAX - 1 then v else -v }

  function ValueOf(w: string): int {
    if w != "" && w[0] == '-' then Negated(Signed(Accumulated(w[1..]))) else Signed(Accumulated(w))
  }

  lemma {:induction false} WordIs(w: string, rest: string)
    requires ' ' !in w && (rest == "" || rest[0] == ' ')
    ensures Word(w + rest) == w
  {
    if w != "" {
      WordIs(w[1..], rest);
      assert (w + rest)[1..] == w[1..] + rest;
    }
  }

  /** `from_base64`, on a string that ends where its NUL is. */
  method FromBase64(where: string) returns (value: int, i: nat)
    ensures i == |Word(where)| && value == ValueOf(Word(where))
  {
    var val: nat := 0;
    var neg := false;
    i := 0;
    if |where| > 0 && where[0] == '-' { i, neg := 1, true; }
    ghost var first := i;
    while i < |where| && where[i] != ' '
      invariant first <= i <= |where| && ' ' !in where[..i]
      invariant val == Accumulated(where[first..i]) && val < TWO64
    {
      assert where[first..i + 1][..i - first] == where[first..i];
      val := (val * 64 + DigitValue(where[i])) % TWO64;
      i := i + 1;
    }
    value := if neg then Negated(Signed(val)) else Signed(val);
    WordIs(where[..i], where[i..]);
    assert where[..i] + where[i..] == where;
    if neg { assert where[..i][1..] == where[first..i]; }
  }

  lemma NumberRoundTrips(v: int)
    requires InRange(v)
    ensures ValueOf(Base64(v)) == v && ' ' !in Base64(v)
  {
    AccumulatedDigits(if v < 0 then -v else v);
    if v < 0 {
      assert ("-" + Digits(-v))[1..] == Digits(-v);
    } else {
      assert Digits(v)[0] in Digits(v);
    }
  }

  // ----- Whole records -----

  /** `struct stat`; what a field is narrower than 64 bits its value fits it. */
  datatype StatP = StatP(dev: int, ino: int, mode: int, nlink: int, uid: int, gid: int, rdev: int, size: int,
                         blksize: int, blocks: int, atime: int, mtime: int, ctime: int)
  {
    function Fields(): (fs: seq<int>)
      ensures |fs| == 13
    {
      [dev, ino, mode, nlink, uid, gid, rdev, size, blksize, blocks, atime, mtime, ctime]
    }
  }

  function FromFields(fs: seq<int>): StatP
    requires |fs| >= 13
  {
    StatP(fs[0], fs[1], fs[2], fs[3], fs[4], fs[5], fs[6], fs[7], fs[8], fs[9], fs[10], fs[11], fs[12])
  }

  function Joined(fs: seq<int>): string {
    if fs == [] then ""
    else if |fs| == 1 then Base64(fs[0])
    else Joined(fs[..|fs| - 1]) + " " + Base64(fs[|fs| - 1])
  }

  /** What is written: the flags and the Windows attributes are place holders. */
  function AllFields(st: StatP, compression: int): seq<int> { st.Fields() + [0, 0, compression] }

  /** `encode_stat` */
  method EncodeStat(buf: array<char>, st: StatP, compression: int) returns (n: nat)
    requires forall f :: f in AllFields(st, compression) ==> InRange(f)
    requires |Joined(AllFields(st, compression))| < buf.Length
    modifies buf
    ensures n == |Joined(AllFields(st, compression))| && buf[..n] == Joined(AllFields(st, compression))
  {
    hide Joined, Base64, AllFields;
    var fs := AllFields(st, compression);
    assert Joined(fs[..0]) == "" by { NothingJoined(fs); }
    n := 0;
    for k := 0 to |fs|
      invariant n <= |Joined(fs)| < buf.Length && n == |Joined(fs[..k])| && buf[..n] == Joined(fs[..k])
    {
      JoinedMore(fs, k);
      JoinedGrows(fs, k + 1);
      assert fs[k] in fs;
      ghost var before := Joined(fs[..k]) + if k > 0 then " " else "";
      if k > 0 {
        buf[n] := ' ';
        n := n + 1;
      }
      assert buf[..n] == before;
      var m := ToBase64(fs[k], buf, n);
      assert buf[..n + m] == buf[..n] + buf[n..n + m];
      n := n + m;
    }
    assert fs[..|fs|] == fs;
  }

  lemma NothingJoined(fs: seq<int>)
    ensures Joined(fs[..0]) == ""
  {
  }

  lemma JoinedMore(fs: seq<int>, k: nat)
    requires k < |fs|
    ensures Joined(fs[..k + 1]) == Joined(fs[..k]) + (if k > 0 then " " else "") + Base64(fs[k])
  {
    hide Base64;
    assert fs[..k + 1][..k] == fs[..k];
    if k == 0 { assert fs[..0] == []; }
  }

  lemma {:induction false} JoinedGrows(fs: seq<int>, k: nat)
    requires k <= |fs|
    ensures |Joined(fs[..k])| <= |Joined(fs)|
    decreases |fs| - k
  {
    hide Joined, Base64;
    if k == |fs| {
      assert fs[..k] == fs;
    } else {
      JoinedGrows(fs, k + 1);
      JoinedMore(fs, k);
    }
  }

  /** The numbers between the spaces. */
  function Numbers(s: string): (fs: seq<int>)
    ensures fs != []
    decreases |s|
  {
    var w := Word(s);
    [ValueOf(w)] + if |w| < |s| then Numbers(s[|w| + 1..]) else []
  }

  datatype Decoded = Decoded(st: StatP, winattr: int, compression: int)

  function ToInt32(v: int): int { (v + 0x8000_0000) % 0x1_0000_0000 - 0x8000_0000 }

  /** What a text stands for; `None` if it has too few numbers, so that the reading
      goes past its end. */
  function Meaning(s: string): Option<Decoded> {
    var fs := Numbers(s);
    if |fs| < 13 then None
    else Some(Decoded(FromFields(fs), if |fs| > 14 then fs[14] else 0,
                      if |fs| < 16 || (|fs| == 16 && s[|s| - 1] == ' ') then -1 else ToInt32(fs[15])))
  }

  lemma NumberInFront(v: int, rest: string)
    requires InRange(v) && (rest == "" || rest[0] == ' ')
    ensures Numbers(Base64(v) + rest) == [v] + if rest == "" then [] else Numbers(rest[1..])
  {
    hide Base64, ValueOf;
    var w := Base64(v);
    NumberRoundTrips(v);
    WordIs(w, rest);
    assert rest != "" ==> (w + rest)[|w| + 1..] == rest[1..];
  }

  lemma {:induction false} NumbersOfJoined(fs: seq<int>, rest: string)
    requires fs != [] && forall f :: f in fs ==> InRange(f)
    requires rest == "" || rest[0] == ' '
    ensures Numbers(Joined(fs) + rest) == fs + if rest == "" then [] else Numbers(rest[1..])
  {
    hide Base64, Numbers, InRange;
    var n := |fs| - 1;
    assert fs[n] in fs;
    NumberInFront(fs[n], rest);
    if n > 0 {
      var behind := Base64(fs[n]) + rest;
      NumbersOfJoined(fs[..n], " " + behind);
      assert Joined(fs) + rest == Joined(fs[..n]) + (" " + behind);
      assert (" " + behind)[1..] == behind;
    }
  }

  /** A record that was written is read back as it was. */
  lemma StatRoundTrips(st: StatP, compression: int)
    requires forall f :: f in st.Fields() ==> InRange(f)
    requires -0x8000_0000 <= compression < 0x8000_0000
    ensures Meaning(Joined(AllFields(st, compression))) == Some(Decoded(st, 0, compression))
  {
    hide Base64, Numbers;
    var fs := AllFields(st, compression);
    var s, last := Joined(fs), Base64(compression);
    assert s + "" == s;
    NumbersOfJoined(fs, "");
    NumberRoundTrips(compression);
    assert fs[..15] == st.Fields() + [0, 0];
    assert s[|s| - 1] == last[|last| - 1] && last[|last| - 1] in last by { Base64NotEmpty(compression); }
  }

  lemma Base64NotEmpty(v: int)
    ensures Base64(v) != ""
  {
  }

  /** The numbers `fs` have been read, up to the space or the end at `p`. */
  ghost predicate ReadSoFar(buf: string, p: nat, fs: seq<int>) {
    && p <= |buf| && (p < |buf| ==> buf[p] == ' ') && fs != []
    && Numbers(buf) == fs + if p < |buf| then Numbers(buf[p + 1..]) else []
  }

  /** Over the space, and the next number. */
  method ReadNumber(buf: string, p: nat, fs: seq<int>) returns (p': nat, fs': seq<int>)
    requires ReadSoFar(buf, p, fs) && p < |buf|
    ensures ReadSoFar(buf, p', fs') && p' > p && |fs'| == |fs| + 1 && fs'[..|fs|] == fs
    ensures p + 1 == |buf| ==> p' == |buf|
  {
    hide Numbers, Word, ValueOf, ReadSoFar;
    assert p + 1 <= |buf| by { NotPastEnd(buf, p, fs); }
    var val, i := FromBase64(buf[p + 1..]);
    p', fs' := p + 1 + i, fs + [val];
    FirstNumber(buf[p + 1..], i, val);
    OneNumberMore(buf, p, fs, i, val);
  }

  lemma NotPastEnd(buf: string, p: nat, fs: seq<int>)
    requires ReadSoFar(buf, p, fs)
    ensures p <= |buf|
  {
  }

  lemma OneNumberMore(buf: string, p: nat, fs: seq<int>, i: nat, val: int)
    requires ReadSoFar(buf, p, fs) && p < |buf| && ReadSoFar(buf[p + 1..], i, [val])
    ensures ReadSoFar(buf, p + 1 + i, fs + [val])
  {
    hide Numbers;
    var rest, p' := buf[p + 1..], p + 1 + i;
    assert i < |rest| ==> rest[i] == buf[p'] && rest[i + 1..] == buf[p' + 1..];
    var more := if i < |rest| then Numbers(rest[i + 1..]) else [];
    assert fs + ([val] + more) == fs + [val] + more;
  }

  /** `decode_stat`, into a record that was initialised before. */
  method DecodeStat(buf: string) returns (r: Option<Decoded>)
    ensures r == Meaning(buf)
  {
    hide Numbers, Word;
    var val: int, p: nat := FromBase64(buf);
    var fs: seq<int> := [val];
    FirstNumber(buf, p, val);
    for k := 1 to 13
      invariant ReadSoFar(buf, p, fs) && |fs| == k
    {
      if p == |buf| { return None; }
      p, fs := ReadNumber(buf, p, fs);
    }
    var st, winattr: int, compression: int := FromFields(fs), 0, -1;
    ghost var head := fs;
    if p < |buf| {
      if p + 1 == |buf| {
        p, fs := ReadNumber(buf, p, fs);
        return Some(Decoded(st, winattr, compression));
      }
      p, fs := ReadNumber(buf, p, fs);         // the flags
    }
    if p < |buf| {
      p, fs := ReadNumber(buf, p, fs);
      winattr := fs[14];
    }
    if p < |buf| {
      if p + 1 == |buf| {
        p, fs := ReadNumber(buf, p, fs);
        return Some(Decoded(st, winattr, compression));
      }
      assert p + 1 < |buf|;
      LastOfSixteen(buf, p, fs);
      p, fs := ReadNumber(buf, p, fs);
      compression := ToInt32(fs[15]);
    }
    assert fs[..13] == head;
    return Some(Decoded(st, winattr, compression));
  }

  lemma FirstNumber(buf: string, p: nat, val: int)
    requires p == |Word(buf)| && val == ValueOf(Word(buf))
    ensures ReadSoFar(buf, p, [val])
  {
    hide Word, ValueOf;
  }

  /** If there is more after the fifteenth number than a space, either a
      seventeenth number follows or the text ends in the sixteenth. */
  lemma LastOfSixteen(buf: string, p: nat, fs: seq<int>)
    requires ReadSoFar(buf, p, fs) && p + 1 < |buf| && |fs| == 15
    ensures |Numbers(buf)| > 16 || buf[|buf| - 1] != ' '
  {
    var rest := buf[p + 1..];
    var w := Word(rest);
    if |w| == |rest| {
      assert buf[|buf| - 1] == w[|w| - 1] && w[|w| - 1] in w;
    } else {
      assert |Numbers(rest)| >= 2;
    }
  }
}
