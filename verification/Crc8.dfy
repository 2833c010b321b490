/** CRC-8/MAXIM as computed by `domoc_crc8` and by `domoc::crc8`, and what it detects.
    The reference definition is the bit-serial register fed with the bits of the bytes in
    transmission order, least significant bit first. */
module Crc8 {

  type byte = bv8

  // ── Bits of a frame ────────────────────────────────────────────────────────

  /** The low `n` bits of a byte, least significant first. */
  function LowBits(b: byte, n: nat): (s: seq<bool>)
    ensures |s| == n
    decreases n
  {
    if n == 0 then [] else [b & 1 != 0] + LowBits(b >> 1, n - 1)
  }

  function ByteBits(b: byte): (s: seq<bool>)
    ensures |s| == 8
  {
    LowBits(b, 8)
  }

  /** The bits of a byte string, byte after byte. */
  function BitsOf(data: seq<byte>): (s: seq<bool>)
    ensures |s| == 8 * |data|
  {
    if data == [] then [] else BitsOf(data[..|data| - 1]) + ByteBits(data[|data| - 1])
  }

  /** All bits of `d` from place `n` up are zero. */
  predicate Below(d: byte, n: nat) {
    n >= 8 || (n == 0 && d == 0) || (n == 1 && d < 2) || (n == 2 && d < 4) || (n == 3 && d < 8)
    || (n == 4 && d < 16) || (n == 5 && d < 32) || (n == 6 && d < 64) || (n == 7 && d < 128)
  }

  lemma BelowShift(d: byte, n: nat)
    requires Below(d, n) && n > 0
    ensures Below(d >> 1, n - 1)
  {
  }

  lemma SameShiftSameLow(a: byte, b: byte)
    requires a >> 1 == b >> 1 && (a & 1 != 0) == (b & 1 != 0)
    ensures a == b
  {
  }

  lemma {:induction false} LowBitsInjective(a: byte, b: byte, n: nat)
    requires LowBits(a, n) == LowBits(b, n)
    requires Below(a, n) && Below(b, n)
    ensures a == b
    decreases n
  {
    if n == 0 {
    } else {
      var x, y := LowBits(a, n), LowBits(b, n);
      assert x[0] == y[0];
      assert x[1..] == LowBits(a >> 1, n - 1) && y[1..] == LowBits(b >> 1, n - 1);
      BelowShift(a, n);
      BelowShift(b, n);
      LowBitsInjective(a >> 1, b >> 1, n - 1);
      SameShiftSameLow(a, b);
    }
  }

  lemma ByteBitsInjective(a: byte, b: byte)
    requires ByteBits(a) == ByteBits(b)
    ensures a == b
  {
    LowBitsInjective(a, b, 8);
  }

  lemma {:induction false} BitsOfInjective(f: seq<byte>, g: seq<byte>)
    requires BitsOf(f) == BitsOf(g)
    ensures f == g
  {
    hide ByteBits;
    hide Below;
    assert |f| == |g|;
    if f == [] {
    } else {
      var n := |f| - 1;
      var x, y := BitsOf(f), BitsOf(g);
      assert x[..8 * n] == BitsOf(f[..n]) && x[8 * n..] == ByteBits(f[n]);
      assert y[..8 * n] == BitsOf(g[..n]) && y[8 * n..] == ByteBits(g[n]);
      BitsOfInjective(f[..n], g[..n]);
      ByteBitsInjective(f[n], g[n]);
      assert f == f[..n] + [f[n]] && g == g[..n] + [g[n]];
    }
  }

  // ── The register ───────────────────────────────────────────────────────────

  /** One clock of the register: shift right, feed back 0x8C when the bit leaving the
      register and the message bit disagree. */
  function BitStep(crc: byte, bit: bool): byte {
    if (crc & 1 != 0) != bit then (crc >> 1) ^ 0x8C else crc >> 1
  }

  function Register(crc: byte, bits: seq<bool>): byte {
    if bits == [] then crc
    else BitStep(Register(crc, bits[..|bits| - 1]), bits[|bits| - 1])
  }

  function Crc(data: seq<byte>): byte {
    Register(0, BitsOf(data))
  }

  /** The receiver's check: the last byte is the CRC of those before it. */
  predicate Valid(frame: seq<byte>) {
    |frame| >= 1 && Crc(frame[..|frame| - 1]) == frame[|frame| - 1]
  }

  lemma {:induction false} RegisterConcat(crc: byte, x: seq<bool>, y: seq<bool>)
    ensures Register(crc, x + y) == Register(Register(crc, x), y)
  {
    if y == [] {
      assert x + y == x;
    } else {
      var y0 := y[..|y| - 1];
      RegisterConcat(crc, x, y0);
      assert (x + y)[..|x + y| - 1] == x + y0;
      assert (x + y)[|x + y| - 1] == y[|y| - 1];
    }
  }

  // ── The two loops ──────────────────────────────────────────────────────────

  /** `n` clocks of the register over the low `n` bits of `b`. */
  function FeedByte(crc: byte, b: byte, n: nat): byte
    decreases n
  {
    if n == 0 then crc else FeedByte(BitStep(crc, b & 1 != 0), b >> 1, n - 1)
  }

  lemma {:induction false} FeedIsRegister(crc: byte, b: byte, n: nat)
    ensures FeedByte(crc, b, n) == Register(crc, LowBits(b, n))
    decreases n
  {
    if n == 0 {
    } else {
      FeedIsRegister(BitStep(crc, b & 1 != 0), b >> 1, n - 1);
      RegisterConcat(crc, [b & 1 != 0], LowBits(b >> 1, n - 1));
      assert Register(crc, [b & 1 != 0]) == BitStep(Register(crc, []), b & 1 != 0);
    }
  }

  /** Feeding one more byte, shift by shift, extends the CRC by that byte. */
  lemma FeedExtends(data: seq<byte>, b: byte)
    ensures FeedByte(Crc(data), b, 8) == Crc(data + [b])
  {
    FeedIsRegister(Crc(data), b, 8);
    RegisterConcat(0, BitsOf(data), ByteBits(b));
    assert (data + [b])[..|data|] == data;
  }

  lemma EmptyCrc()
    ensures Crc([]) == 0
  {
  }

  /** One turn of the inner loops, in the words of the source. */
  lemma FeedTurn(crc: byte, b: byte, n: nat)
    ensures FeedByte(crc, b, 0) == crc
    ensures n > 0 ==>
      FeedByte(crc, b, n)
      == FeedByte(if (crc ^ b) & 1 != 0 then (crc >> 1) ^ 0x8C else crc >> 1, b >> 1, n - 1)
  {
    assert ((crc ^ b) & 1 != 0) == ((crc & 1 != 0) != (b & 1 != 0));
  }

  /** `domoc_crc8` of the Arduino nodes. */
  method DomocCrc8(data: array<byte>, len: nat) returns (crc: byte)
    requires len <= data.Length
    ensures crc == Crc(data[..len])
  {
    hide FeedByte, Register, BitsOf;
    crc := 0;
    EmptyCrc();
    for i := 0 to len
      invariant crc == Crc(data[..i])
    {
      var b := data[i];
      ghost var whole := FeedByte(crc, b, 8);
      for bit := 0 to 8
        invariant FeedByte(crc, b, 8 - bit) == whole
      {
        FeedTurn(crc, b, 8 - bit);
        if (crc ^ b) & 1 != 0 {
          crc := (crc >> 1) ^ 0x8C;
        } else {
          crc := crc >> 1;
        }
        b := b >> 1;
      }
      FeedTurn(crc, b, 0);
      FeedExtends(data[..i], data[i]);
      assert data[..i + 1] == data[..i] + [data[i]];
    }
  }

  /** `domoc::crc8` of the ESP-IDF nodes: the same register, written the other way round. */
  method BaseCrc8(data: array<byte>, len: nat) returns (crc: byte)
    requires len <= data.Length
    ensures crc == Crc(data[..len])
  {
    hide FeedByte, Register, BitsOf;
    crc := 0x00;
    EmptyCrc();
    for i := 0 to len
      invariant crc == Crc(data[..i])
    {
      var inbyte := data[i];
      ghost var whole := FeedByte(crc, inbyte, 8);
      for b := 0 to 8
        invariant FeedByte(crc, inbyte, 8 - b) == whole
      {
        FeedTurn(crc, inbyte, 8 - b);
        var mix := (crc ^ inbyte) & 0x01;
        crc := crc >> 1;
        if mix != 0 {
          crc := crc ^ 0x8C;
        }
        inbyte := inbyte >> 1;
      }
      FeedTurn(crc, inbyte, 0);
      FeedExtends(data[..i], data[i]);
      assert data[..i + 1] == data[..i] + [data[i]];
    }
  }

  /** The value for one byte 0xAA is 0xD1. */
  lemma SingleByte()
    ensures Crc([0xAA]) == 0xD1
  {
    EmptyCrc();
    FeedExtends([], 0xAA);
    assert FeedByte(0, 0xAA, 8) == FeedByte(0xAF, 0x0A, 4) == 0xD1;
    assert [] + [0xAA as byte] == [0xAA];
  }

  // ── A valid frame leaves the register at zero ──────────────────────────────

  lemma StepMeets(crc: byte, b: byte)
    ensures BitStep(crc, b & 1 != 0) == b >> 1 <==> crc == b
  {
  }

  lemma NothingBelow(d: byte)
    ensures Below(d, 0) <==> d == 0
  {
  }

  /** Shifting what is left of a byte into a register gives zero exactly when the register
      held just that. */
  lemma {:induction false} FeedToZero(crc: byte, b: byte, n: nat)
    requires Below(b, n)
    ensures FeedByte(crc, b, n) == 0 <==> crc == b
    decreases n
  {
    hide BitStep, Below;
    if n == 0 {
      NothingBelow(b);
    } else {
      BelowShift(b, n);
      FeedToZero(BitStep(crc, b & 1 != 0), b >> 1, n - 1);
      StepMeets(crc, b);
    }
  }

  /** Over a whole received frame, CRC byte included, the check passes exactly when the
      register ends at zero. */
  lemma ValidIffZero(frame: seq<byte>)
    requires |frame| >= 1
    ensures Valid(frame) <==> Crc(frame) == 0
  {
    hide Crc, FeedByte;
    var n := |frame| - 1;
    FeedExtends(frame[..n], frame[n]);
    FeedToZero(Crc(frame[..n]), frame[n], 8);
    assert frame == frame[..n] + [frame[n]];
  }

  // ── Injectivity over any window of eight bits ──────────────────────────────

  /** Exclusive or of two registers or bytes. */
  function Delta(s: byte, t: byte): byte {
    s ^ t
  }

  lemma ShiftXor(a: byte, b: byte)
    ensures Delta(a, b) >> 1 == Delta(a >> 1, b >> 1)
    ensures (Delta(a, b) & 1 != 0) == ((a & 1 != 0) != (b & 1 != 0))
  {
  }

  function Feedback(x: byte, on: bool): byte {
    if on then Delta(x, 0x8C) else x
  }

  lemma StepIsFeedback(s: byte, a: bool)
    ensures BitStep(s, a) == Feedback(s >> 1, (s & 1 != 0) != a)
  {
  }

  lemma {:induction false} FeedbackXor(x: byte, y: byte, e: bool, f: bool)
    ensures Feedback(Delta(x, y), e != f) == Delta(Feedback(x, e), Feedback(y, f))
  {
    hide Delta;
    DeltaAlgebra(x, y, 0x8C);
  }

  lemma DeltaAlgebra(x: byte, y: byte, c: byte)
    ensures Delta(Delta(x, c), Delta(y, c)) == Delta(x, y)
    ensures Delta(Delta(x, c), y) == Delta(x, Delta(y, c)) == Delta(Delta(x, y), c)
  {
  }

  lemma {:induction false} StepLinear(s: byte, t: byte, a: bool, b: bool)
    ensures BitStep(Delta(s, t), a != b) == Delta(BitStep(s, a), BitStep(t, b))
  {
    hide BitStep, Feedback, Delta;
    StepIsFeedback(s, a);
    StepIsFeedback(t, b);
    StepIsFeedback(Delta(s, t), a != b);
    ShiftXor(s, t);
    FeedbackXor(s >> 1, t >> 1, (s & 1 != 0) != a, (t & 1 != 0) != b);
  }

  function Push(d: byte, error: bool): byte {
    (d << 1) ^ (if error then 1 else 0)
  }

  /** The error bits between two messages, packed as the register sees them. */
  function Pack(u: seq<bool>, v: seq<bool>): byte
    requires |u| == |v|
  {
    if u == [] then 0 else Push(Pack(u[1..], v[1..]), u[0] != v[0])
  }

  /** The step is invertible: a value without its top bit came from the one below it, with
      the bit fed in the low place. */
  lemma BackOne(d: byte, bit: bool)
    requires BitStep(d, bit) < 0x80
    ensures d == Push(BitStep(d, bit), bit)
  {
  }

  lemma BelowTop(d: byte, n: nat)
    requires n <= 7 && Below(d, n)
    ensures d < 0x80
  {
  }

  lemma StepBack(s: byte, t: byte, a: bool, b: bool, n: nat)
    requires n <= 7 && Below(Delta(BitStep(s, a), BitStep(t, b)), n)
    ensures Delta(s, t) == Push(Delta(BitStep(s, a), BitStep(t, b)), a != b)
    ensures Below(Delta(s, t), n + 1)
  {
    hide BitStep, Below, Push, Delta;
    StepLinear(s, t, a, b);
    var d := BitStep(Delta(s, t), a != b);
    BelowTop(d, n);
    BackOne(Delta(s, t), a != b);
    PushZero(d, a != b, n);
  }

  lemma DeltaZero(s: byte, t: byte)
    ensures Delta(s, t) == 0 <==> s == t
    ensures Delta(s, t) == 0 <==> Below(Delta(s, t), 0)
  {
  }

  lemma PushZero(d: byte, error: bool, n: nat)
    requires n <= 7 && Below(d, n)
    ensures Push(d, error) == 0 <==> d == 0 && !error
    ensures Below(Push(d, error), n + 1)
  {
  }

  /** Running the register backwards over at most eight message bits: if two runs end
      alike, their starting registers differ by exactly the packed error bits. */
  lemma {:induction false} Window(s: byte, t: byte, u: seq<bool>, v: seq<bool>)
    requires |u| == |v| <= 8
    requires Register(s, u) == Register(t, v)
    ensures Delta(s, t) == Pack(u, v) && Below(Pack(u, v), |u|)
    decreases |u|
  {
    hide BitStep, Below, Push, Delta;
    if u == [] {
      DeltaZero(s, t);
    } else {
      RegisterFirst(s, u);
      RegisterFirst(t, v);
      Window(BitStep(s, u[0]), BitStep(t, v[0]), u[1..], v[1..]);
      StepBack(s, t, u[0], v[0], |u| - 1);
    }
  }

  lemma RegisterFirst(s: byte, u: seq<bool>)
    requires u != []
    ensures Register(s, u) == Register(BitStep(s, u[0]), u[1..])
  {
    hide BitStep;
    RegisterConcat(s, u[..1], u[1..]);
    assert u == u[..1] + u[1..];
    assert Register(s, u[..1]) == BitStep(s, u[0]);
  }

  lemma {:induction false} PackZero(u: seq<bool>, v: seq<bool>)
    requires |u| == |v| <= 8
    ensures Below(Pack(u, v), |u|)
    ensures Pack(u, v) == 0 <==> u == v
    decreases |u|
  {
    hide Below, Push;
    if u == [] {
      DeltaZero(0, 0);
    } else {
      PackZero(u[1..], v[1..]);
      PushZero(Pack(u[1..], v[1..]), u[0] != v[0], |u| - 1);
      assert u == [u[0]] + u[1..] && v == [v[0]] + v[1..];
    }
  }
}
