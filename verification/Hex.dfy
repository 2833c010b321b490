/** The hexadecimal text painlessMesh carries: `bytes_to_hex` (section 8 of RFC 4648, upper
    case) and `hex_to_bytes`, which trusts `strtol` with every pair of characters. */
module Hex {
  import opened Crc8

  datatype Option<T> = None | Some(value: T)

  // ── Digits ─────────────────────────────────────────────────────────────────

  /** One hexadecimal digit of `%02X`. */
  function Digit(n: byte): char {
    if n == 0 then '0' else if n == 1 then '1' else if n == 2 then '2' else if n == 3 then '3'
    else if n == 4 then '4' else if n == 5 then '5' else if n == 6 then '6' else if n == 7 then '7'
    else if n == 8 then '8' else if n == 9 then '9' else if n == 10 then 'A' else if n == 11 then 'B'
    else if n == 12 then 'C' else if n == 13 then 'D' else if n == 14 then 'E' else 'F'
  }

  /** The value `strtol` gives a digit in base 16, either case. */
  function DigitValue(c: char): Option<byte> {
    if c == '0' then Some(0) else if c == '1' then Some(1) else if c == '2' then Some(2)
    else if c == '3' then Some(3) else if c == '4' then Some(4) else if c == '5' then Some(5)
    else if c == '6' then Some(6) else if c == '7' then Some(7) else if c == '8' then Some(8)
    else if c == '9' then Some(9) else if c == 'A' || c == 'a' then Some(10)
    else if c == 'B' || c == 'b' then Some(11) else if c == 'C' || c == 'c' then Some(12)
    else if c == 'D' || c == 'd' then Some(13) else if c == 'E' || c == 'e' then Some(14)
    else if c == 'F' || c == 'f' then Some(15) else None
  }

  predicate IsSpace(c: char) {
    c == ' ' || c == '\t' || c == '\n' || c == '\r' || c == '\U{000B}' || c == '\U{000C}'
  }

  /** `(uint8_t)strtol(tmp, nullptr, 16)` for a string of two characters: leading white space
      and a sign are skipped, reading stops at the first character that is no digit, and a
      text without digits reads as zero. */
  function Strtol(c0: char, c1: char): byte {
    match (DigitValue(c0), DigitValue(c1))
    case (Some(h), Some(l)) => (h << 4) | l
    case (Some(h), None) => h
    case (None, Some(l)) => if IsSpace(c0) || c0 == '+' then l else if c0 == '-' then 0 - l else 0
    case (None, None) => 0
  }

  function HexByte(b: byte): string {
    [Digit(b >> 4), Digit(b & 0x0F)]
  }

  lemma DigitRoundTrip(n: byte)
    requires n < 16
    ensures DigitValue(Digit(n)) == Some(n)
  {
  }

  lemma Nibbles(b: byte)
    ensures b >> 4 < 16 && b & 0x0F < 16
    ensures ((b >> 4) << 4) | (b & 0x0F) == b
  {
  }

  lemma ByteRoundTrip(b: byte)
    ensures Strtol(HexByte(b)[0], HexByte(b)[1]) == b
  {
    hide Digit, DigitValue;
    Nibbles(b);
    DigitRoundTrip(b >> 4);
    DigitRoundTrip(b & 0x0F);
  }

  function Lower(c: char): char {
    if c == 'A' then 'a' else if c == 'B' then 'b' else if c == 'C' then 'c' else if c == 'D' then 'd'
    else if c == 'E' then 'e' else if c == 'F' then 'f' else c
  }

  /** Received digits may be of either case. */
  lemma EitherCase(b: byte)
    ensures var d := HexByte(b);
            Strtol(Lower(d[0]), d[1]) == Strtol(d[0], Lower(d[1])) == Strtol(Lower(d[0]), Lower(d[1])) == b
  {
    hide Digit, DigitValue, Lower;
    Nibbles(b);
    LowerDigit(b >> 4);
    LowerDigit(b & 0x0F);
  }

  lemma LowerDigit(n: byte)
    requires n < 16
    ensures DigitValue(Lower(Digit(n))) == DigitValue(Digit(n)) == Some(n)
  {
  }

  /** What else `strtol` makes of a pair: white space and a sign are passed over, a minus counts
      modulo 256, reading stops at the first character that is no digit. */
  lemma OtherPairs(b: byte, c: char)
    requires b < 16 && DigitValue(c) == None
    ensures Strtol(' ', Digit(b)) == Strtol('+', Digit(b)) == b && Strtol('-', Digit(b)) == 0 - b
    ensures Strtol(Digit(b), c) == b && Strtol(c, c) == 0
    ensures !IsSpace(c) && c != '+' && c != '-' ==> Strtol(c, Digit(b)) == 0
  {
    hide Digit;
    DigitRoundTrip(b);
  }

  // ── Whole strings ──────────────────────────────────────────────────────────

  function Encode(data: seq<byte>): (s: string)
    ensures |s| == 2 * |data|
  {
    if data == [] then "" else Encode(data[..|data| - 1]) + HexByte(data[|data| - 1])
  }

  function Decode(hex: string): (data: seq<byte>)
    requires |hex| % 2 == 0
    ensures 2 * |data| == |hex|
  {
    if hex == "" then []
    else Decode(hex[..|hex| - 2]) + [Strtol(hex[|hex| - 2], hex[|hex| - 1])]
  }

  lemma {:induction false} DecodeAt(hex: string, i: nat)
    requires |hex| % 2 == 0 && 2 * i < |hex|
    ensures Decode(hex)[i] == Strtol(hex[2 * i], hex[2 * i + 1])
    decreases |hex|
  {
    hide Strtol;
    if 2 * i == |hex| - 2 {
    } else {
      DecodeAt(hex[..|hex| - 2], i);
    }
  }

  lemma {:induction false} RoundTrip(data: seq<byte>)
    ensures Decode(Encode(data)) == data
  {
    hide Strtol, HexByte;
    if data == [] {
    } else {
      var n := |data| - 1;
      var hex := Encode(data);
      RoundTrip(data[..n]);
      assert hex[..2 * n] == Encode(data[..n]);
      ByteRoundTrip(data[n]);
      assert hex[2 * n..] == HexByte(data[n]);
      assert hex[2 * n] == hex[2 * n..][0] && hex[2 * n + 1] == hex[2 * n..][1];
      assert data == data[..n] + [data[n]];
    }
  }

  /** Damaging characters of one pair damages one byte and no other. */
  lemma DecodeDamagedPair(hex: string, hex': string, i: nat)
    requires |hex| == |hex'| && |hex| % 2 == 0 && 2 * i < |hex|
    requires forall k :: 0 <= k < |hex| && k != 2 * i && k != 2 * i + 1 ==> hex'[k] == hex[k]
    ensures Decode(hex') == Decode(hex)[i := Strtol(hex'[2 * i], hex'[2 * i + 1])]
  {
    hide Strtol;
    forall k | 0 <= k < |Decode(hex)|
      ensures Decode(hex')[k] == Decode(hex)[i := Strtol(hex'[2 * i], hex'[2 * i + 1])][k]
    {
      DecodeAt(hex, k);
      DecodeAt(hex', k);
    }
  }

  // ── The loops ──────────────────────────────────────────────────────────────

  /** `DomocMesh::bytes_to_hex`. */
  method BytesToHex(data: array<byte>, len: nat) returns (s: string)
    requires len <= data.Length
    ensures s == Encode(data[..len])
  {
    hide HexByte;
    s := "";
    for i := 0 to len
      invariant s == Encode(data[..i])
    {
      s := s + HexByte(data[i]);
      assert data[..i + 1][..i] == data[..i];
    }
  }

  /** `DomocMesh::hex_to_bytes`: refuses odd and empty strings, otherwise fills `out`. */
  method HexToBytes(hex: string, out: array<byte>) returns (ok: bool, len: nat)
    requires |hex| <= 2 * out.Length
    modifies out
    ensures ok <==> |hex| % 2 == 0 && hex != ""
    ensures ok ==> 2 * len == |hex| && out[..len] == Decode(hex)
    ensures len <= out.Length && out[len..] == old(out[..])[len..]
    ensures !ok ==> len == 0
  {
    hide Strtol;
    var n := |hex|;
    if n % 2 != 0 || n == 0 {
      return false, 0;
    }
    len := n / 2;
    for i := 0 to len
      invariant out[..i] == Decode(hex[..2 * i])
      invariant out[i..] == old(out[..])[i..]
    {
      out[i] := Strtol(hex[2 * i], hex[2 * i + 1]);
      assert hex[..2 * i + 2][..2 * i] == hex[..2 * i];
      assert out[..i + 1] == out[..i] + [out[i]];
      assert out[i + 1..] == old(out[..])[i..][1..];
    }
    assert hex[..2 * len] == hex;
    ok := true;
  }
}
