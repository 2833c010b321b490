/** What the CRC-8 check of the mesh frames detects: all bursts of up to eight bits, all odd
    numbers of flipped bits, and all double flips except those a multiple of 127 bits apart. */
module Crc8Detection {
  import opened Crc8

  /** The places where two frames differ all lie in the eight bits from `p` on. */
  ghost predicate Burst(f: seq<byte>, g: seq<byte>, p: int) {
    && |f| == |g|
    && forall i :: 0 <= i < 8 * |f| && BitsOf(f)[i] != BitsOf(g)[i] ==> p <= i < p + 8
  }

  // ── Bursts ─────────────────────────────────────────────────────────────────

  lemma StepInjective(s: byte, t: byte, bit: bool)
    requires BitStep(s, bit) == BitStep(t, bit)
    ensures s == t
  {
  }

  lemma {:induction false} RegisterInjective(s: byte, t: byte, bits: seq<bool>)
    requires Register(s, bits) == Register(t, bits)
    ensures s == t
  {
    hide BitStep;
    if bits == [] {
    } else {
      var n := |bits| - 1;
      StepInjective(Register(s, bits[..n]), Register(t, bits[..n]), bits[n]);
      RegisterInjective(s, t, bits[..n]);
    }
  }

  lemma BurstInBits(x: seq<bool>, y: seq<bool>, p: nat)
    requires |x| == |y| && p + 8 <= |x|
    requires forall i :: 0 <= i < |x| && x[i] != y[i] ==> p <= i < p + 8
    requires Register(0, x) == Register(0, y)
    ensures x == y
  {
    var a, u, c := x[..p], x[p..p + 8], x[p + 8..];
    var v := y[p..p + 8];
    assert x == a + u + c && y == a + v + c by {
      assert y[..p] == a && y[p + 8..] == c;
    }
    var s := Register(0, a);
    RegisterConcat(0, a + u, c);
    RegisterConcat(0, a + v, c);
    RegisterConcat(0, a, u);
    RegisterConcat(0, a, v);
    RegisterInjective(Register(s, u), Register(s, v), c);
    Window(s, s, u, v);
    DeltaZero(s, s);
    PackZero(u, v);
  }

  /** Every nonzero error confined to eight consecutive bits, crossing byte boundaries and
      reaching into the CRC byte as it may, makes the check fail. */
  lemma {:induction false} BurstDetected(f: seq<byte>, g: seq<byte>, p: int)
    requires Valid(f) && Burst(f, g, p) && f != g
    ensures !Valid(g)
  {
    if Valid(g) {
      ValidIffZero(f);
      ValidIffZero(g);
      var n := 8 * |f|;
      BurstInBits(BitsOf(f), BitsOf(g), if p < 0 then 0 else if p > n - 8 then n - 8 else p);
      BitsOfInjective(f, g);
    }
  }

  /** In particular the frame with one byte replaced is rejected. */
  lemma {:induction false} OneByteBits(f: seq<byte>, i: nat, b: byte)
    requires i < |f|
    ensures forall k :: 0 <= k < 8 * |f| && BitsOf(f)[k] != BitsOf(f[i := b])[k] ==> 8 * i <= k < 8 * i + 8
  {
    hide ByteBits;
    var n := |f| - 1;
    var g := f[i := b];
    if i == n {
      assert g[..n] == f[..n];
    } else {
      OneByteBits(f[..n], i, b);
      assert g[..n] == f[..n][i := b];
    }
  }

  lemma {:induction false} DamagedByteDetected(f: seq<byte>, i: nat, b: byte)
    requires Valid(f) && i < |f| && b != f[i]
    ensures !Valid(f[i := b])
  {
    OneByteBits(f, i, b);
    assert f[i := b][i] != f[i];
    BurstDetected(f, f[i := b], 8 * i);
  }

  // ── Parity ─────────────────────────────────────────────────────────────────

  function Parity(bits: seq<bool>): bool {
    if bits == [] then false else Parity(bits[..|bits| - 1]) != bits[|bits| - 1]
  }

  function ByteParity(b: byte): bool {
    var b4 := b ^ (b >> 4);
    var b2 := b4 ^ (b4 >> 2);
    (b2 ^ (b2 >> 1)) & 1 != 0
  }

  /** How many places two bit strings differ in. */
  function Flips(x: seq<bool>, y: seq<bool>): nat
    requires |x| == |y|
  {
    if x == [] then 0
    else Flips(x[..|x| - 1], y[..|y| - 1]) + (if x[|x| - 1] != y[|y| - 1] then 1 else 0)
  }

  /** The feedback constant has an odd number of ones, so a step keeps the total parity. */
  lemma StepParity(crc: byte, bit: bool)
    ensures ByteParity(BitStep(crc, bit)) == (ByteParity(crc) != bit)
  {
  }

  lemma {:induction false} RegisterParity(crc: byte, bits: seq<bool>)
    ensures ByteParity(Register(crc, bits)) == (ByteParity(crc) != Parity(bits))
  {
    hide BitStep, ByteParity;
    if bits == [] {
    } else {
      var n := |bits| - 1;
      RegisterParity(crc, bits[..n]);
      StepParity(Register(crc, bits[..n]), bits[n]);
    }
  }

  lemma ZeroParity()
    ensures !ByteParity(0)
  {
  }

  /** The CRC has the parity of the data, and a whole valid frame has even parity. */
  lemma {:induction false} CrcParity(data: seq<byte>)
    ensures ByteParity(Crc(data)) == Parity(BitsOf(data))
    ensures Valid(data) ==> !Parity(BitsOf(data))
  {
    hide ByteParity;
    RegisterParity(0, BitsOf(data));
    ZeroParity();
    if Valid(data) {
      ValidIffZero(data);
    }
  }

  lemma {:induction false} FlipsParity(x: seq<bool>, y: seq<bool>)
    requires |x| == |y|
    ensures (Flips(x, y) % 2 == 1) <==> (Parity(x) != Parity(y))
  {
    if x == [] {
    } else {
      FlipsParity(x[..|x| - 1], y[..|y| - 1]);
    }
  }

  lemma {:induction false} NoFlips(x: seq<bool>, y: seq<bool>)
    requires |x| == |y| && Flips(x, y) == 0
    ensures x == y
  {
    if x == [] {
    } else {
      NoFlips(x[..|x| - 1], y[..|y| - 1]);
      assert x == x[..|x| - 1] + [x[|x| - 1]] && y == y[..|y| - 1] + [y[|y| - 1]];
    }
  }

  /** Where the flips are, if there are one or two. */
  lemma {:induction false} OneFlip(x: seq<bool>, y: seq<bool>) returns (i: nat)
    requires |x| == |y| && Flips(x, y) == 1
    ensures i < |x| && forall k :: 0 <= k < |x| ==> (x[k] != y[k] <==> k == i)
  {
    var n := |x| - 1;
    if x[n] != y[n] {
      i := n;
      NoFlips(x[..n], y[..n]);
      assert forall k :: 0 <= k < n ==> x[k] == x[..n][k] == y[..n][k];
    } else {
      i := OneFlip(x[..n], y[..n]);
      assert forall k :: 0 <= k < n ==> x[k] == x[..n][k] && y[k] == y[..n][k];
    }
  }

  lemma {:induction false} TwoFlips(x: seq<bool>, y: seq<bool>) returns (i: nat, j: nat)
    requires |x| == |y| && Flips(x, y) == 2
    ensures i < j < |x| && forall k :: 0 <= k < |x| ==> (x[k] != y[k] <==> k == i || k == j)
  {
    var n := |x| - 1;
    if x[n] != y[n] {
      i := OneFlip(x[..n], y[..n]);
      j := n;
    } else {
      i, j := TwoFlips(x[..n], y[..n]);
    }
    assert forall k :: 0 <= k < n ==> x[k] == x[..n][k] && y[k] == y[..n][k];
  }

  /** An odd number of flipped bits is detected at every length. */
  lemma {:induction false} OddFlipsDetected(f: seq<byte>, g: seq<byte>)
    requires |f| == |g|
    ensures Valid(f) && Flips(BitsOf(f), BitsOf(g)) % 2 == 1 ==> !Valid(g)
  {
    CrcParity(f);
    CrcParity(g);
    FlipsParity(BitsOf(f), BitsOf(g));
  }

  // ── Linearity ──────────────────────────────────────────────────────────────

  function XorBits(x: seq<bool>, y: seq<bool>): seq<bool>
    requires |x| == |y|
  {
    seq(|x|, i requires 0 <= i < |x| => x[i] != y[i])
  }

  lemma {:induction false} RegisterLinear(s: byte, t: byte, x: seq<bool>, y: seq<bool>)
    requires |x| == |y|
    ensures Register(Delta(s, t), XorBits(x, y)) == Delta(Register(s, x), Register(t, y))
    decreases |x|
  {
    hide BitStep, Delta;
    if x == [] {
    } else {
      var n := |x| - 1;
      RegisterLinear(s, t, x[..n], y[..n]);
      assert XorBits(x, y)[..n] == XorBits(x[..n], y[..n]);
      StepLinear(Register(s, x[..n]), Register(t, y[..n]), x[n], y[n]);
    }
  }

  function XorBytes(f: seq<byte>, g: seq<byte>): seq<byte>
    requires |f| == |g|
  {
    seq(|f|, i requires 0 <= i < |f| => Delta(f[i], g[i]))
  }

  lemma {:induction false} LowBitsXor(a: byte, b: byte, n: nat)
    ensures LowBits(Delta(a, b), n) == XorBits(LowBits(a, n), LowBits(b, n))
    decreases n
  {
    hide Delta;
    if n == 0 {
    } else {
      LowBitsXor(a >> 1, b >> 1, n - 1);
      ShiftXor(a, b);
    }
  }

  lemma XorBytesLast(f: seq<byte>, g: seq<byte>)
    requires |f| == |g| && f != []
    ensures var n, e := |f| - 1, XorBytes(f, g);
            |e| == n + 1 && e[..n] == XorBytes(f[..n], g[..n]) && e[n] == Delta(f[n], g[n])
  {
    hide Delta;
  }

  lemma XorConcat(x: seq<bool>, y: seq<bool>, u: seq<bool>, v: seq<bool>)
    requires |x| == |y| && |u| == |v|
    ensures XorBits(x + u, y + v) == XorBits(x, y) + XorBits(u, v)
  {
  }

  lemma {:induction false} BitsOfXor(f: seq<byte>, g: seq<byte>)
    requires |f| == |g|
    ensures BitsOf(XorBytes(f, g)) == XorBits(BitsOf(f), BitsOf(g))
  {
    hide ByteBits, Delta;
    if f == [] {
    } else {
      hide XorBytes, XorBits;
      var n := |f| - 1;
      BitsOfXor(f[..n], g[..n]);
      XorBytesLast(f, g);
      ByteBitsXor(f[n], g[n]);
      XorConcat(BitsOf(f[..n]), BitsOf(g[..n]), ByteBits(f[n]), ByteBits(g[n]));
    }
  }

  lemma {:induction false} ByteBitsXor(a: byte, b: byte)
    ensures ByteBits(Delta(a, b)) == XorBits(ByteBits(a), ByteBits(b))
  {
    LowBitsXor(a, b, 8);
  }

  /** The CRC of the exclusive or of two equally long byte strings is the exclusive or of
      their CRCs. */
  lemma {:induction false} CrcLinear(f: seq<byte>, g: seq<byte>)
    requires |f| == |g|
    ensures Crc(XorBytes(f, g)) == Delta(Crc(f), Crc(g))
  {
    RegisterLinear(0, 0, BitsOf(f), BitsOf(g));
    BitsOfXor(f, g);
    DeltaZero(0, 0);
  }

  // ── Double flips ───────────────────────────────────────────────────────────

  /** `n` clocks of the register on zero bits. */
  function Clocks(d: byte, n: nat): byte
    decreases n
  {
    if n == 0 then d else Clocks(BitStep(d, false), n - 1)
  }

  /** None of the first `n` values the register goes through is 1. */
  predicate NeverOne(d: byte, n: nat)
    decreases n
  {
    n == 0 || (d != 1 && NeverOne(BitStep(d, false), n - 1))
  }

  function Clock(d: byte): byte {
    BitStep(d, false)
  }

  function Nine(d: byte): byte {
    Clock(Clock(Clock(Clock(Clock(Clock(Clock(Clock(Clock(d)))))))))
  }

  predicate NineClear(d: byte) {
    var d3 := Clock(Clock(Clock(d)));
    var d6 := Clock(Clock(Clock(d3)));
    && d != 1 && Clock(d) != 1 && Clock(Clock(d)) != 1
    && d3 != 1 && Clock(d3) != 1 && Clock(Clock(d3)) != 1
    && d6 != 1 && Clock(d6) != 1 && Clock(Clock(d6)) != 1
  }

  lemma {:induction false} ThreeClocks(d: byte, n: nat)
    ensures Clocks(d, n + 3) == Clocks(Clock(Clock(Clock(d))), n)
    ensures NeverOne(d, n + 3)
       <==> d != 1 && Clock(d) != 1 && Clock(Clock(d)) != 1 && NeverOne(Clock(Clock(Clock(d))), n)
  {
    hide BitStep;
    assert Clocks(d, n + 3) == Clocks(Clock(d), n + 2) == Clocks(Clock(Clock(d)), n + 1);
    assert NeverOne(Clock(d), n + 2) <==> Clock(d) != 1 && NeverOne(Clock(Clock(d)), n + 1);
  }

  lemma {:induction false} NineClocks(d: byte, n: nat)
    ensures Clocks(d, n + 9) == Clocks(Nine(d), n)
    ensures NeverOne(d, n + 9) <==> NineClear(d) && NeverOne(Nine(d), n)
  {
    hide BitStep, Clocks, NeverOne;
    var d3 := Clock(Clock(Clock(d)));
    ThreeClocks(d, n + 6);
    ThreeClocks(d3, n + 3);
    ThreeClocks(Clock(Clock(Clock(d3))), n);
  }

  /** The orbit of 1 under the register, nine clocks a row: it comes back after 127. */
  lemma OrbitFirstHalf()
    ensures Clocks(0x8C, 126) == Clocks(0x43, 63) && (NeverOne(0x8C, 126) <==> NeverOne(0x43, 63))
  {
    hide Clocks, NeverOne;
    NineClocks(0x8C, 117);
    assert Nine(0x8C) == 0x9B && NineClear(0x8C);
    NineClocks(0x9B, 108);
    assert Nine(0x9B) == 0x94 && NineClear(0x9B);
    NineClocks(0x94, 99);
    assert Nine(0x94) == 0x38 && NineClear(0x94);
    NineClocks(0x38, 90);
    assert Nine(0x38) == 0x3E && NineClear(0x38);
    NineClocks(0x3E, 81);
    assert Nine(0x3E) == 0xDC && NineClear(0x3E);
    NineClocks(0xDC, 72);
    assert Nine(0xDC) == 0x7A && NineClear(0xDC);
    NineClocks(0x7A, 63);
    assert Nine(0x7A) == 0x43 && NineClear(0x7A);
  }

  lemma OrbitSecondHalf()
    ensures Clocks(0x43, 63) == 1 && NeverOne(0x43, 63)
  {
    hide Clocks, NeverOne;
    NineClocks(0x43, 54);
    assert Nine(0x43) == 0x52 && NineClear(0x43);
    NineClocks(0x52, 45);
    assert Nine(0x52) == 0xBF && NineClear(0x52);
    NineClocks(0xBF, 36);
    assert Nine(0xBF) == 0xB5 && NineClear(0xBF);
    NineClocks(0xB5, 27);
    assert Nine(0xB5) == 0x8A && NineClear(0xB5);
    NineClocks(0x8A, 18);
    assert Nine(0x8A) == 0x79 && NineClear(0x8A);
    NineClocks(0x79, 9);
    assert Nine(0x79) == 0x32 && NineClear(0x79);
    NineClocks(0x32, 0);
    assert Nine(0x32) == 0x01 && NineClear(0x32);
    OrbitEnd();
  }

  lemma OrbitEnd()
    ensures Clocks(1, 0) == 1 && NeverOne(1, 0)
  {
  }

  lemma {:induction false} ClocksAdd(d: byte, m: nat, n: nat)
    ensures Clocks(d, m + n) == Clocks(Clocks(d, m), n)
    decreases m
  {
    hide BitStep;
    if m == 0 {
    } else {
      ClocksAdd(BitStep(d, false), m - 1, n);
    }
  }

  lemma {:induction false} NeverOneAt(d: byte, n: nat, k: nat)
    requires NeverOne(d, n) && k < n
    ensures Clocks(d, k) != 1
    decreases n
  {
    hide BitStep;
    if k == 0 {
    } else {
      NeverOneAt(BitStep(d, false), n - 1, k - 1);
    }
  }

  lemma FirstClock()
    ensures BitStep(1, false) == 0x8C == BitStep(0, true) && BitStep(0, false) == 0
  {
  }

  /** The register's period on 1 is exactly 127. */
  lemma {:induction false} Period(k: nat)
    ensures Clocks(1, k) == 1 <==> k % 127 == 0
    decreases k
  {
    hide BitStep, NeverOne;
    OrbitFirstHalf();
    OrbitSecondHalf();
    FirstClock();
    if k >= 127 {
      ClocksAdd(1, 127, k - 127);
      Period(k - 127);
    } else if k > 0 {
      NeverOneAt(0x8C, 126, k - 1);
    }
  }

  lemma {:induction false} ZeroBits(d: byte, bits: seq<bool>)
    requires forall k :: 0 <= k < |bits| ==> !bits[k]
    ensures Register(d, bits) == Clocks(d, |bits|)
    decreases |bits|
  {
    hide BitStep;
    if bits == [] {
    } else {
      RegisterFirst(d, bits);
      ZeroBits(BitStep(d, false), bits[1..]);
    }
  }

  lemma {:induction false} ClocksZero(d: byte, n: nat)
    ensures Clocks(d, n) == 0 <==> d == 0
    decreases n
  {
    hide BitStep;
    FirstClock();
    if n == 0 {
    } else {
      if BitStep(d, false) == 0 {
        StepInjective(d, 0, false);
      }
      ClocksZero(BitStep(d, false), n - 1);
    }
  }

  lemma CancelsOnlyOne(d: byte)
    ensures BitStep(d, true) == 0 <==> d == 1
  {
  }

  /** The register after two error bits, `gap` places apart, in an otherwise clean message. */
  lemma TwoErrorBits(e: seq<bool>, i: nat, j: nat)
    requires i < j < |e|
    requires forall k :: 0 <= k < |e| ==> (e[k] <==> k == i || k == j)
    ensures Register(0, e) == 0 <==> (j - i) % 127 == 0
  {
    hide BitStep;
    FirstClock();
    ZeroBits(0, e[..i]);
    ClocksZero(0, i);
    RegisterPush(0, e, i);
    assert Register(0, e[..i + 1]) == 0x8C;
    RegisterConcat(0, e[..i + 1], e[i + 1..j]);
    assert e[..j] == e[..i + 1] + e[i + 1..j];
    ZeroBits(0x8C, e[i + 1..j]);
    var d := Clocks(0x8C, j - i - 1);
    assert d == Clocks(1, j - i);
    RegisterPush(0, e, j);
    RegisterConcat(0, e[..j + 1], e[j + 1..]);
    assert e == e[..j + 1] + e[j + 1..];
    ZeroBits(BitStep(d, true), e[j + 1..]);
    ClocksZero(BitStep(d, true), |e| - j - 1);
    CancelsOnlyOne(d);
    Period(j - i);
  }

  lemma RegisterPush(s: byte, e: seq<bool>, i: nat)
    requires i < |e|
    ensures Register(s, e[..i + 1]) == BitStep(Register(s, e[..i]), e[i])
  {
    assert e[..i + 1][..i] == e[..i];
  }

  /** `g` is `f` with exactly the bits `i` and `j` flipped. */
  ghost predicate DoubleFlip(f: seq<byte>, g: seq<byte>, i: nat, j: nat) {
    && |f| == |g| && i < j < 8 * |f|
    && forall k :: 0 <= k < 8 * |f| ==> (BitsOf(f)[k] != BitsOf(g)[k] <==> k == i || k == j)
  }

  /** Two flipped bits go unnoticed exactly when they are a multiple of 127 bits apart. */
  lemma {:induction false} DoubleFlipMissedIff(f: seq<byte>, g: seq<byte>, i: nat, j: nat)
    requires Valid(f) && DoubleFlip(f, g, i, j)
    ensures Valid(g) <==> (j - i) % 127 == 0
  {
    hide Register, BitsOf, Delta;
    ValidIffZero(f);
    ValidIffZero(g);
    var x, y := BitsOf(f), BitsOf(g);
    RegisterLinear(0, 0, x, y);
    DeltaZero(0, 0);
    DeltaZero(Register(0, x), Register(0, y));
    TwoErrorBits(XorBits(x, y), i, j);
  }

  /** Two different valid frames of the same length differ in at least two bits, and in at
      least four if the frames are of fifteen bytes or less. */
  lemma {:induction false} FrameDistance(f: seq<byte>, g: seq<byte>)
    requires |f| == |g| && Valid(f) && Valid(g) && f != g
    ensures Flips(BitsOf(f), BitsOf(g)) >= 2
    ensures |f| <= 15 ==> Flips(BitsOf(f), BitsOf(g)) >= 4
  {
    hide Valid, BitsOf;
    var n := Flips(BitsOf(f), BitsOf(g));
    if n % 2 == 1 {
      OddFlipsDetected(f, g);
    } else if n == 0 {
      NoFlips(BitsOf(f), BitsOf(g));
      BitsOfInjective(f, g);
    } else if n == 2 {
      var i, j := TwoFlips(BitsOf(f), BitsOf(g));
      DoubleFlipMissedIff(f, g, i, j);
    }
  }
}
