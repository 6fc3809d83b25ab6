/** The five characters in front of every message, on the wire and in the logs:
    `%c%04X` (src/asyncio.c, src/msg.c). */
module Framing {
  import opened Wrappers

  datatype Message = Message(cmd: char, payload: string)

  function HexDigit(d: nat): char
    requires d < 16
  {
    if d < 10 then (d + 48) as char else (d + 55) as char
  }

  predicate IsHexDigit(c: char) { '0' <= c <= '9' || 'A' <= c <= 'F' || 'a' <= c <= 'f' }

  function DigitValue(c: char): (d: nat)
    requires IsHexDigit(c)
    ensures d < 16
  {
    if c <= '9' then c as nat - 48 else if c <= 'F' then c as nat - 55 else c as nat - 87
  }

  /** `%X` */
  function PrintHex(n: nat): (s: string)
    ensures s != "" && forall c :: c in s ==> IsHexDigit(c)
  {
    if n < 16 then [HexDigit(n)] else PrintHex(n / 16) + [HexDigit(n % 16)]
  }

  function Padded(s: string): (r: string)
    ensures |r| == if |s| < 4 then 4 else |s|
    ensures (forall c :: c in s ==> IsHexDigit(c)) ==> forall c :: c in r ==> IsHexDigit(c)
    decreases 4 - |s|
  {
    if |s| >= 4 then s else Padded("0" + s)
  }

  /** `%c%04X` */
  function Header(cmd: char, n: nat): string { [cmd] + Padded(PrintHex(n)) }

  function Value(s: string): nat
    requires forall c :: c in s ==> IsHexDigit(c)
  {
    if s == "" then 0 else Value(s[..|s| - 1]) * 16 + DigitValue(s[|s| - 1])
  }

  function HexRun(s: string): (k: nat)
    ensures k <= |s| && forall i :: 0 <= i < k ==> IsHexDigit(s[i])
    ensures k < |s| ==> !IsHexDigit(s[k])
  {
    if s == "" || !IsHexDigit(s[0]) then 0 else 1 + HexRun(s[1..])
  }

  /** `sscanf` of the length: up to four hexadecimal digits. */
  function ScanHex(s: string): Option<nat> {
    var t := if |s| < 4 then s else s[..4];
    var k := HexRun(t);
    if k == 0 then None else
      assert forall c :: c in t[..k] ==> IsHexDigit(c);
      Some(Value(t[..k]))
  }

  lemma {:induction false} ValueOfHex(n: nat)
    ensures Value(PrintHex(n)) == n
  {
    if n >= 16 {
      ValueOfHex(n / 16);
      assert (PrintHex(n / 16) + [HexDigit(n % 16)])[..|PrintHex(n / 16)|] == PrintHex(n / 16);
    }
  }

  lemma {:induction false} ValueOfZeros(s: string)
    requires forall c :: c in s ==> IsHexDigit(c)
    ensures Value("0" + s) == Value(s)
  {
    if s == "" {
      assert ("0" + s)[..0] == "";
    } else {
      ValueOfZeros(s[..|s| - 1]);
      assert ("0" + s)[..|s|] == "0" + s[..|s| - 1];
    }
  }

  lemma {:induction false} ValueOfPadded(s: string)
    requires forall c :: c in s ==> IsHexDigit(c)
    ensures Value(Padded(s)) == Value(s)
    decreases 4 - |s|
  {
    if |s| < 4 {
      ValueOfPadded("0" + s);
      ValueOfZeros(s);
    }
  }

  /** The header has five characters exactly if the length has four digits. */
  lemma HeaderIsFive(cmd: char, n: nat)
    ensures |Header(cmd, n)| == 5 <==> n <= 0xFFFF
  {
    HexLength(n);
  }

  lemma HexLength(n: nat)
    ensures |PrintHex(n)| <= 4 <==> n <= 0xFFFF
  {
    if n >= 0x10 {
      assert |PrintHex(n)| == |PrintHex(n / 16)| + 1;
      if n >= 0x100 {
        assert |PrintHex(n / 16)| == |PrintHex(n / 256)| + 1 by { assert n / 16 / 16 == n / 256; }
        if n >= 0x1000 {
          assert |PrintHex(n / 256)| == |PrintHex(n / 4096)| + 1 by { assert n / 256 / 16 == n / 4096; }
          if n >= 0x1_0000 {
            assert |PrintHex(n / 4096)| == |PrintHex(n / 4096 / 16)| + 1;
          }
        }
      }
    }
  }

  /** What was printed in four digits is read back, whatever follows it. */
  lemma ScanPrinted(n: nat, rest: string)
    requires n <= 0xFFFF
    ensures ScanHex(Padded(PrintHex(n)) + rest) == Some(n)
  {
    HexLength(n);
    var p := Padded(PrintHex(n));
    assert (p + rest)[..4] == p;
    assert forall i :: 0 <= i < 4 ==> p[i] in p;
    assert HexRun(p) == 4;
    assert p[..4] == p;
    ValueOfPadded(PrintHex(n));
    ValueOfHex(n);
  }
}
