/** The limits of the CRC-16 check: bursts that reach into the CRC field, which goes out low byte
    first, and the errors of four bits that it misses. */
module Crc16Limits {
  import opened Crc8
  import opened Crc8Detection
  import opened Crc16
  import opened Crc16Detection
  import opened Crc16Distance

  function Zeros(n: nat): (z: seq<byte>)
    ensures |z| == n
  {
    seq(n, _ => 0)
  }

  // ── Bits of an error ───────────────────────────────────────────────────────

  lemma {:induction false} MsbBitsOfConcat(x: seq<byte>, y: seq<byte>)
    ensures MsbBitsOf(x + y) == MsbBitsOf(x) + MsbBitsOf(y)
    decreases |y|
  {
    hide MsbBits;
    if y == [] {
      assert x + y == x;
    } else {
      var n := |y| - 1;
      MsbBitsOfConcat(x, y[..n]);
      assert (x + y)[..|x| + n] == x + y[..n];
    }
  }

  predicate TopBit(b: byte) {
    b & 0x80 != 0
  }

  function Doubled(b: byte, n: nat): byte
    decreases n
  {
    if n == 0 then b else Doubled(b << 1, n - 1)
  }

  lemma {:induction false} HighBitAt(b: byte, n: nat, j: nat)
    requires j < n
    ensures HighBits(b, n)[j] == TopBit(Doubled(b, j))
    decreases n
  {
    hide TopBit;
    TopBitIs(b);
    if j == 0 {
    } else {
      HighBitAt(b << 1, n - 1, j - 1);
    }
  }

  lemma TopBitIs(b: byte)
    ensures TopBit(b) == (b & 0x80 != 0)
  {
  }

  lemma Places(b: byte)
    ensures TopBit(Doubled(b, 0)) == (b & 0x80 != 0) && TopBit(Doubled(b, 1)) == (b & 0x40 != 0)
    ensures TopBit(Doubled(b, 2)) == (b & 0x20 != 0) && TopBit(Doubled(b, 3)) == (b & 0x10 != 0)
  {
  }

  lemma LowHalf(b: byte)
    ensures TopBit(Doubled(b, 4)) == (b & 0x08 != 0) && TopBit(Doubled(b, 5)) == (b & 0x04 != 0)
    ensures TopBit(Doubled(b, 6)) == (b & 0x02 != 0) && TopBit(Doubled(b, 7)) == (b & 0x01 != 0)
  {
    var b4 := b << 1 << 1 << 1 << 1;
    assert Doubled(b, 4) == Doubled(b4, 0) && Doubled(b, 5) == Doubled(b4, 1);
    assert Doubled(b, 6) == Doubled(b4, 2) && Doubled(b, 7) == Doubled(b4, 3);
  }

  /** The places of a byte, most significant first. */
  lemma EightBits(b: byte)
    ensures MsbBits(b) == [b & 0x80 != 0, b & 0x40 != 0, b & 0x20 != 0, b & 0x10 != 0,
                           b & 0x08 != 0, b & 0x04 != 0, b & 0x02 != 0, b & 0x01 != 0]
  {
    hide HighBits, Doubled, TopBit;
    Places(b);
    LowHalf(b);
    forall j | 0 <= j < 8 ensures MsbBits(b)[j] == TopBit(Doubled(b, j)) {
      HighBitAt(b, 8, j);
    }
  }

  lemma TopFromBits(b: byte, n: nat)
    requires n <= 8 && forall j :: n <= j < 8 ==> !MsbBits(b)[j]
    ensures TopOnly(b, n)
  {
    hide MsbBits;
    EightBits(b);
    var s := MsbBits(b);
    assert n < 8 ==> !s[7];
    assert n < 7 ==> !s[6];
    assert n < 6 ==> !s[5];
    assert n < 5 ==> !s[4];
    assert n < 4 ==> !s[3];
    assert n < 3 ==> !s[2];
    assert n < 2 ==> !s[1];
    assert n < 1 ==> !s[0];
  }

  lemma LowFromBits(b: byte, n: nat)
    requires n <= 8 && forall j :: 0 <= j < 8 - n ==> !MsbBits(b)[j]
    ensures Below(b, n)
  {
    hide MsbBits;
    EightBits(b);
    var s := MsbBits(b);
    assert n < 8 ==> !s[0];
    assert n < 7 ==> !s[1];
    assert n < 6 ==> !s[2];
    assert n < 5 ==> !s[3];
    assert n < 4 ==> !s[4];
    assert n < 3 ==> !s[5];
    assert n < 2 ==> !s[6];
    assert n < 1 ==> !s[7];
  }

  lemma {:induction false} ByteOfBits(data: seq<byte>, i: nat)
    requires i < |data|
    ensures MsbBitsOf(data)[8 * i..8 * i + 8] == MsbBits(data[i])
    decreases |data|
  {
    hide MsbBits;
    var n := |data| - 1;
    if i == n {
    } else {
      ByteOfBits(data[..n], i);
      assert MsbBitsOf(data)[..8 * n] == MsbBitsOf(data[..n]);
      assert MsbBitsOf(data)[8 * i..8 * i + 8] == MsbBitsOf(data[..n])[8 * i..8 * i + 8];
    }
  }

  lemma BitOfByte(data: seq<byte>, i: nat, j: nat)
    requires i < |data| && j < 8
    ensures MsbBitsOf(data)[8 * i + j] == MsbBits(data[i])[j]
  {
    hide MsbBits, MsbBitsOf;
    ByteOfBits(data, i);
    assert MsbBitsOf(data)[8 * i..8 * i + 8][j] == MsbBitsOf(data)[8 * i + j];
  }

  /** The error between two messages. */
  lemma ErrorBits(f: seq<byte>, g: seq<byte>)
    requires |f| == |g|
    ensures |XorBytes(f, g)| == |f|
    ensures forall k :: 0 <= k < 8 * |f| ==>
              MsbBitsOf(XorBytes(f, g))[k] == (MsbBitsOf(f)[k] != MsbBitsOf(g)[k])
  {
    hide MsbBitsOf, Delta;
    MsbBitsOfXor(f, g);
  }

  // ── Bursts into the CRC field ──────────────────────────────────────────────

  /** Feeding one byte. */
  lemma FeedsByte(crc: word, b: byte)
    ensures Register16(crc, MsbBits(b)) == Shifts(Delta16(crc, High(b)), 8)
  {
    hide TopOnly;
    AnyByte(b);
    ShiftsAreRegister(crc, b, 8);
  }

  lemma {:induction false} ZeroBytes(n: nat)
    ensures Register16(0, MsbBitsOf(Zeros(n))) == 0
    decreases n
  {
    hide Shifts, MsbBits;
    if n == 0 {
    } else {
      var z: seq<byte> := Zeros(n);
      ZeroBytes(n - 1);
      assert z[..n - 1] == Zeros(n - 1);
      Register16Concat(0, MsbBitsOf(z[..n - 1]), MsbBits(0));
      FeedsByte(0, 0);
      ShiftsOfZero(8);
    }
  }

  /** Eight clocks of the register. */
  function Eight(d: word): word {
    Four(Four(d))
  }

  lemma EightIsShifts(d: word)
    ensures Shifts(d, 8) == Eight(d)
  {
    hide Step16;
    assert Shifts(d, 8) == Shifts(Clock16(d), 7) == Shifts(Clock16(Clock16(d)), 6)
        == Shifts(Clock16(Clock16(Clock16(d))), 5) == Shifts(Four(d), 4);
    var e := Four(d);
    assert Shifts(e, 4) == Shifts(Clock16(e), 3) == Shifts(Clock16(Clock16(e)), 2)
        == Shifts(Clock16(Clock16(Clock16(e))), 1) == Shifts(Four(e), 0);
  }

  /** What the register holds after an error in the last two covered bytes only. */
  function Syndrome(u: byte, v: byte): word {
    Eight(Delta16(Eight(High(u)), High(v)))
  }

  /** An error of at most twelve bits in the last two covered bytes and the field behind them,
      `k` of them covered: the bytes in the order they go out. */
  predicate Straddles(k: nat, u: byte, v: byte, low: byte, high: byte) {
    && 1 <= k <= 11
    && Below(u, if k <= 8 then 0 else k - 8) && Below(v, k)
    && TopOnly(low, 12 - k) && TopOnly(high, if k >= 4 then 0 else 4 - k)
  }

  /** No such error looks to the receiver like a change of the CRC field alone. */
  lemma StraddleSeen(k: nat, u: byte, v: byte, low: byte, high: byte)
    requires Straddles(k, u, v, low, high) && Syndrome(u, v) == LittleEndian(low, high)
    ensures u == 0 && v == 0 && low == 0 && high == 0
  {
  }

  lemma SyndromeIsRegister(n: nat, u: byte, v: byte)
    ensures Register16(0, MsbBitsOf(Zeros(n) + [u] + [v])) == Syndrome(u, v)
  {
    hide MsbBits, Eight, Delta16, High, Register16, Shifts;
    var z: seq<byte> := Zeros(n);
    BitsOfTwoMore(z, u, v);
    Register16Concat(0, MsbBitsOf(z), MsbBits(u) + MsbBits(v));
    ZeroBytes(n);
    Register16Concat(0, MsbBits(u), MsbBits(v));
    FeedsByte(0, u);
    Delta16Self(High(u), 0);
    EightIsShifts(High(u));
    FeedsByte(Eight(High(u)), v);
    EightIsShifts(Delta16(Eight(High(u)), High(v)));
  }

  /** Two valid messages: their error leaves the register, after the covered bytes, at the
      error of the field. */
  lemma {:induction false} ErrorIsCodeword(f: seq<byte>, g: seq<byte>)
    requires MsgValid(f) && MsgValid(g)
    ensures var e := XorBytes(f, g);
            Register16(0, MsbBitsOf(e[..COVERED])) == LittleEndian(e[COVERED], e[COVERED + 1])
  {
    hide MsbBitsOf, Register16, LittleEndian, Delta16, Delta;
    var e := XorBytes(f, g);
    ChangeByError(f[..COVERED], e[..COVERED]);
    XorBack(f, g);
    assert XorBytes(f[..COVERED], e[..COVERED]) == g[..COVERED];
    FieldXor(f[COVERED], f[COVERED + 1], g[COVERED], g[COVERED + 1]);
  }

  lemma XorBack(f: seq<byte>, g: seq<byte>)
    requires |f| == |g|
    ensures forall i :: 0 <= i < |f| ==> Delta(f[i], XorBytes(f, g)[i]) == g[i]
  {
    hide Delta;
    forall i | 0 <= i < |f| ensures Delta(f[i], XorBytes(f, g)[i]) == g[i] {
      DeltaBack(f[i], g[i]);
    }
  }

  lemma DeltaBack(a: byte, b: byte)
    ensures Delta(a, Delta(a, b)) == b
  {
  }

  lemma FieldXor(a: byte, b: byte, c: byte, d: byte)
    ensures Delta16(LittleEndian(c, d), LittleEndian(a, b)) == LittleEndian(Delta(a, c), Delta(b, d))
  {
  }

  lemma {:induction false} ZeroFromBits(e: seq<byte>, n: nat)
    requires n <= |e| && forall k :: 0 <= k < 8 * n ==> !MsbBitsOf(e)[k]
    ensures e[..n] == Zeros(n)
    decreases n
  {
    hide MsbBits, MsbBitsOf;
    if n == 0 {
    } else {
      ZeroFromBits(e, n - 1);
      var b := e[n - 1];
      forall j | 0 <= j < 8 ensures !MsbBits(b)[j] {
        BitOfByte(e, n - 1, j);
      }
      LowFromBits(b, 0);
      NothingBelow(b);
      assert e[..n] == e[..n - 1] + [b];
    }
  }

  /** A burst that begins in the covered bytes and ends in the field. */
  lemma StraddleShape(e: seq<byte>, p: nat)
    requires |e| == MSG_SIZE && 1693 <= p <= 1703
    requires forall k :: 0 <= k < 8 * MSG_SIZE && MsbBitsOf(e)[k] ==> p <= k < p + 12
    ensures e[..211] == Zeros(211)
    ensures Straddles(1704 - p, e[211], e[212], e[213], e[214])
  {
    hide MsbBits, MsbBitsOf, Below, TopOnly;
    ZeroFromBits(e, 211);
    forall i, j | 211 <= i < 215 && 0 <= j < 8
      ensures MsbBits(e[i])[j] ==> p <= 8 * i + j < p + 12
    {
      BitOfByte(e, i, j);
    }
    var k := 1704 - p;
    LowFromBits(e[211], if k <= 8 then 0 else k - 8);
    LowFromBits(e[212], if k <= 8 then k else 8);
    AnyBelow(e[212], k);
    TopFromBits(e[213], if k <= 4 then 8 else 12 - k);
    AnyByte(e[213]);
    AnyTop(e[213], 12 - k);
    TopFromBits(e[214], if k >= 4 then 0 else 4 - k);
  }

  lemma AnyBelow(b: byte, k: nat)
    ensures k >= 8 ==> Below(b, k)
  {
  }

  lemma AnyTop(b: byte, k: nat)
    ensures k >= 8 ==> TopOnly(b, k)
  {
  }

  lemma {:induction false} AllZero(f: seq<byte>, g: seq<byte>)
    requires |f| == |g| && XorBytes(f, g) == Zeros(|f|)
    ensures f == g
  {
    hide Delta;
    forall i | 0 <= i < |f| ensures f[i] == g[i] {
      assert XorBytes(f, g)[i] == 0;
      DeltaZero(f[i], g[i]);
    }
  }

  /** Every nonzero error within twelve consecutive bits, anywhere in the message, the CRC
      field as it goes out included, makes `mesh_msg_valid` false. */
  lemma {:induction false} ShortBurstDetected(f: seq<byte>, g: seq<byte>, p: int)
    requires MsgValid(f) && |g| == MSG_SIZE && f != g
    requires forall i :: 0 <= i < 8 * MSG_SIZE && MsbBitsOf(f)[i] != MsbBitsOf(g)[i] ==> p <= i < p + 12
    ensures !MsgValid(g)
  {
    hide MsbBitsOf, Register16, LittleEndian, Straddles, Syndrome, XorBytes;
    if MsgValid(g) {
      var e := XorBytes(f, g);
      ErrorBits(f, g);
      ErrorIsCodeword(f, g);
      if p >= 1704 {
        FieldOnly(e);
      } else if p <= 1692 {
        CoveredOnly(f, g, e, p);
      } else {
        StraddleShape(e, p);
        assert e[..COVERED] == Zeros(211) + [e[211]] + [e[212]];
        SyndromeIsRegister(211, e[211], e[212]);
        StraddleSeen(1704 - p, e[211], e[212], e[213], e[214]);
        assert e == Zeros(MSG_SIZE);
      }
      AllZero(f, g);
    }
  }

  /** An error in the field alone is no error. */
  lemma FieldOnly(e: seq<byte>)
    requires |e| == MSG_SIZE && forall k :: 0 <= k < 8 * COVERED ==> !MsbBitsOf(e)[k]
    requires Register16(0, MsbBitsOf(e[..COVERED])) == LittleEndian(e[COVERED], e[COVERED + 1])
    ensures e == Zeros(MSG_SIZE)
  {
    hide MsbBitsOf, Register16, LittleEndian;
    ZeroFromBits(e, COVERED);
    ZeroBytes(COVERED);
    FieldZero(e[COVERED], e[COVERED + 1]);
    assert e == e[..COVERED] + [e[COVERED]] + [e[COVERED + 1]];
  }

  lemma FieldZero(low: byte, high: byte)
    ensures LittleEndian(low, high) == 0 <==> low == 0 && high == 0
  {
  }

  /** Nor is a burst of covered bits alone. */
  lemma {:induction false} CoveredOnly(f: seq<byte>, g: seq<byte>, e: seq<byte>, p: int)
    requires MsgValid(f) && MsgValid(g) && e == XorBytes(f, g) && p <= 1692
    requires forall k :: 0 <= k < 8 * MSG_SIZE && MsbBitsOf(e)[k] ==> p <= k < p + 12
    ensures e == Zeros(MSG_SIZE)
  {
    hide MsbBits, MsbBitsOf, Register16, LittleEndian, Delta;
    forall i | COVERED <= i < MSG_SIZE ensures f[i] == g[i] {
      forall j | 0 <= j < 8 ensures !MsbBits(e[i])[j] {
        BitOfByte(e, i, j);
      }
      LowFromBits(e[i], 0);
      NothingBelow(e[i]);
      DeltaZero(f[i], g[i]);
    }
    ErrorBits(f[..COVERED], g[..COVERED]);
    assert XorBytes(f[..COVERED], g[..COVERED]) == e[..COVERED];
    BitsOfFront(e, COVERED);
    CrcSeparatesBursts(f[..COVERED], g[..COVERED], p);
    forall i | 0 <= i < MSG_SIZE ensures e[i] == 0 {
      if i < COVERED {
        assert f[i] == f[..COVERED][i] == g[..COVERED][i] == g[i];
      }
      DeltaZero(f[i], g[i]);
    }
  }

  lemma BitsOfFront(e: seq<byte>, n: nat)
    requires n <= |e|
    ensures MsbBitsOf(e[..n]) == MsbBitsOf(e)[..8 * n]
  {
    hide MsbBitsOf;
    MsbBitsOfConcat(e[..n], e[n..]);
    assert e == e[..n] + e[n..];
  }

  // ── Errors of four bits ────────────────────────────────────────────────────

  /** How many bits are set. */
  function Weight(d: seq<bool>): nat {
    if d == [] then 0 else Weight(d[..|d| - 1]) + (if d[|d| - 1] then 1 else 0)
  }

  lemma {:induction false} FlipsAreWeight(x: seq<bool>, d: seq<bool>)
    requires |x| == |d|
    ensures Flips(x, XorBits(x, d)) == Weight(d)
  {
    if x == [] {
    } else {
      var n := |x| - 1;
      FlipsAreWeight(x[..n], d[..n]);
      assert XorBits(x, d)[..n] == XorBits(x[..n], d[..n]);
    }
  }

  lemma {:induction false} WeightConcat(x: seq<bool>, y: seq<bool>)
    ensures Weight(x + y) == Weight(x) + Weight(y)
  {
    if y == [] {
      assert x + y == x;
    } else {
      var n := |y| - 1;
      WeightConcat(x, y[..n]);
      assert (x + y)[..|x| + n] == x + y[..n];
    }
  }

  lemma {:induction false} NoWeight(d: seq<bool>)
    requires forall i :: 0 <= i < |d| ==> !d[i]
    ensures Weight(d) == 0
  {
    if d == [] {
    } else {
      NoWeight(d[..|d| - 1]);
    }
  }

  lemma {:induction false} OneWeight(d: seq<bool>, k: nat)
    requires k < |d| && forall i :: 0 <= i < |d| ==> (d[i] <==> i == k)
    ensures Weight(d) == 1
  {
    var n := |d| - 1;
    if k == n {
      NoWeight(d[..n]);
    } else {
      OneWeight(d[..n], k);
    }
  }

  lemma {:induction false} ZerosAreClear(n: nat)
    ensures forall k :: 0 <= k < 8 * n ==> !MsbBitsOf(Zeros(n))[k]
    decreases n
  {
    hide MsbBits;
    if n == 0 {
    } else {
      ZerosAreClear(n - 1);
      assert Zeros(n)[..n - 1] == Zeros(n - 1);
      EightBits(0);
      assert forall j :: 0 <= j < 8 ==> !MsbBits(0)[j];
    }
  }

  /** The generator polynomial as three bytes, and as it meets the field's byte order. */
  const GENERATOR: seq<byte> := [0x01, 0x10, 0x21]
  const GENERATOR_AT_FIELD: seq<byte> := [0x01, 0x21, 0x10]

  lemma ThreeBytes(a: byte, b: byte, c: byte)
    ensures MsbBitsOf([a, b, c]) == MsbBits(a) + (MsbBits(b) + MsbBits(c))
  {
    hide MsbBits;
    BitsOfTwoMore([a], b, c);
    assert [a] + [b] + [c] == [a, b, c];
    assert [a][..0] == [] && MsbBitsOf([]) == [];
    assert MsbBitsOf([a]) == [] + MsbBits(a);
  }

  lemma GeneratorBytes()
    ensures Weight(MsbBits(0x01)) == 1 && Weight(MsbBits(0x10)) == 1 && Weight(MsbBits(0x21)) == 2
  {
    hide MsbBits;
    EightBits(0x01);
    EightBits(0x10);
    EightBits(0x21);
    OneWeight(MsbBits(0x01), 7);
    OneWeight(MsbBits(0x10), 3);
    var s := MsbBits(0x21);
    OneWeight(s[..4], 2);
    OneWeight(s[4..], 3);
    WeightConcat(s[..4], s[4..]);
    assert s == s[..4] + s[4..];
  }

  /** Four bits within seventeen places; at the field, within thirteen. */
  lemma GeneratorBits()
    ensures Weight(MsbBitsOf(GENERATOR)) == 4 == Weight(MsbBitsOf(GENERATOR_AT_FIELD))
    ensures forall i :: 0 <= i < 24 && MsbBitsOf(GENERATOR)[i] ==> 7 <= i < 24
    ensures forall i :: 0 <= i < 24 && MsbBitsOf(GENERATOR_AT_FIELD)[i] ==> 7 <= i < 20
  {
    hide MsbBits, Weight;
    ThreeBytes(0x01, 0x10, 0x21);
    ThreeBytes(0x01, 0x21, 0x10);
    GeneratorBytes();
    EightBits(0x01);
    EightBits(0x10);
    EightBits(0x21);
    WeightConcat(MsbBits(0x10), MsbBits(0x21));
    WeightConcat(MsbBits(0x01), MsbBits(0x10) + MsbBits(0x21));
    WeightConcat(MsbBits(0x21), MsbBits(0x10));
    WeightConcat(MsbBits(0x01), MsbBits(0x21) + MsbBits(0x10));
  }

  lemma GeneratorCancels()
    ensures Register16(0, MsbBitsOf(GENERATOR)) == 0
  {
    hide MsbBits, Register16;
    ThreeBytes(0x01, 0x10, 0x21);
    Register16Concat(0, MsbBits(0x01), MsbBits(0x10) + MsbBits(0x21));
    FeedsByte(0, 0x01);
    assert Shifts(0x0100, 8) == Shifts(0x1000, 4) == 0x1021;
    Register16Concat(0x1021, MsbBits(0x10), MsbBits(0x21));
    FeedsByte(0x1021, 0x10);
    assert Shifts(0x0021, 8) == Shifts(0x0210, 4) == 0x2100;
    FeedsByte(0x2100, 0x21);
    assert Shifts(0, 8) == Shifts(0, 4) == 0;
  }

  /** Three bytes laid over an otherwise clean string of `n`. */
  function Laid(three: seq<byte>, n: nat, k: nat): (e: seq<byte>)
    requires |three| == 3 && k + 3 <= n
    ensures |e| == n
  {
    Zeros(k) + three + Zeros(n - k - 3)
  }

  lemma {:induction false} LaidBits(three: seq<byte>, n: nat, k: nat)
    requires |three| == 3 && k + 3 <= n
    ensures MsbBitsOf(Laid(three, n, k))
         == MsbBitsOf(Zeros(k)) + (MsbBitsOf(three) + MsbBitsOf(Zeros(n - k - 3)))
    ensures Weight(MsbBitsOf(Laid(three, n, k))) == Weight(MsbBitsOf(three))
    ensures forall i :: 0 <= i < 8 * n && MsbBitsOf(Laid(three, n, k))[i] ==>
              8 * k <= i < 8 * k + 24 && MsbBitsOf(three)[i - 8 * k]
  {
    hide MsbBitsOf, Weight;
    var a: seq<byte> := Zeros(k);
    var c: seq<byte> := Zeros(n - k - 3);
    assert Laid(three, n, k) == a + (three + c);
    MsbBitsOfConcat(a, three + c);
    MsbBitsOfConcat(three, c);
    ZerosAreClear(k);
    ZerosAreClear(n - k - 3);
    NoWeight(MsbBitsOf(a));
    NoWeight(MsbBitsOf(c));
    WeightConcat(MsbBitsOf(three), MsbBitsOf(c));
    WeightConcat(MsbBitsOf(a), MsbBitsOf(three) + MsbBitsOf(c));
  }

  /** What an error laid over a string does to its bits. */
  lemma {:induction false} LaidFlips(data: seq<byte>, three: seq<byte>, k: nat)
    requires |three| == 3 && k + 3 <= |data|
    ensures var g := XorBytes(data, Laid(three, |data|, k));
            && Flips(MsbBitsOf(data), MsbBitsOf(g)) == Weight(MsbBitsOf(three))
            && forall i :: 0 <= i < 8 * |data| && MsbBitsOf(data)[i] != MsbBitsOf(g)[i] ==>
                 8 * k <= i < 8 * k + 24 && MsbBitsOf(three)[i - 8 * k]
  {
    hide MsbBitsOf, Weight, Flips, Laid;
    var e := Laid(three, |data|, k);
    LaidBits(three, |data|, k);
    MsbBitsOfXor(data, e);
    FlipsAreWeight(MsbBitsOf(data), MsbBitsOf(e));
  }

  /** The generator polynomial laid over any three consecutive bytes of any input flips four
      bits within seventeen and goes unnoticed: the burst bound of sixteen is exact. */
  lemma {:induction false} GeneratorIsMissed(data: seq<byte>, k: nat)
    requires k + 3 <= |data|
    ensures var g := XorBytes(data, Laid(GENERATOR, |data|, k));
            && Crc16.Crc(g) == Crc16.Crc(data)
            && Flips(MsbBitsOf(data), MsbBitsOf(g)) == 4
            && forall i :: 0 <= i < 8 * |data| && MsbBitsOf(data)[i] != MsbBitsOf(g)[i] ==> 8 * k + 7 <= i < 8 * k + 24
  {
    hide Register16, MsbBitsOf, Delta16, Weight, Flips, Laid;
    var e := Laid(GENERATOR, |data|, k);
    var a: seq<byte> := Zeros(k);
    var c: seq<byte> := Zeros(|data| - k - 3);
    ChangeByError(data, e);
    LaidBits(GENERATOR, |data|, k);
    Register16Concat(0, MsbBitsOf(a), MsbBitsOf(GENERATOR) + MsbBitsOf(c));
    Register16Concat(0, MsbBitsOf(GENERATOR), MsbBitsOf(c));
    ZeroBytes(k);
    ZeroBytes(|data| - k - 3);
    GeneratorCancels();
    Delta16IsZero(Crc16.Crc(XorBytes(data, e)), Crc16.Crc(data));
    LaidFlips(data, GENERATOR, k);
    GeneratorBits();
  }

  /** Around every valid message there are valid ones at distance four: the distance is exact. */
  lemma {:induction false} MsgAtDistanceFour(msg: seq<byte>, k: nat)
    requires MsgValid(msg) && k + 3 <= COVERED
    ensures var g := XorBytes(msg, Laid(GENERATOR, MSG_SIZE, k));
            MsgValid(g) && Flips(MsbBitsOf(msg), MsbBitsOf(g)) == 4
  {
    hide MsbBitsOf, Flips, Weight, Delta, LittleEndian, Crc16.Crc;
    var g := XorBytes(msg, Laid(GENERATOR, MSG_SIZE, k));
    GeneratorIsMissed(msg[..COVERED], k);
    assert g[..COVERED] == XorBytes(msg[..COVERED], Laid(GENERATOR, COVERED, k));
    DeltaNothing(msg[COVERED]);
    DeltaNothing(msg[COVERED + 1]);
    LaidFlips(msg, GENERATOR, k);
    GeneratorBits();
  }

  lemma DeltaNothing(b: byte)
    ensures Delta(b, 0) == b
  {
  }

  /** Across the border of the CRC field the burst bound of twelve is exact: every valid message
      stays valid under an error of four bits within thirteen. */
  lemma {:induction false} FieldBurstMissed(msg: seq<byte>)
    requires MsgValid(msg)
    ensures var g := XorBytes(msg, Laid(GENERATOR_AT_FIELD, MSG_SIZE, COVERED - 1));
            && MsgValid(g) && Flips(MsbBitsOf(msg), MsbBitsOf(g)) == 4
            && forall i :: 0 <= i < 8 * MSG_SIZE && MsbBitsOf(msg)[i] != MsbBitsOf(g)[i] ==> 1703 <= i < 1716
  {
    hide MsbBitsOf, Flips, Weight, Delta, Crc16.Crc;
    var g := XorBytes(msg, Laid(GENERATOR_AT_FIELD, MSG_SIZE, COVERED - 1));
    GeneratorIsMissed(Codeword(msg), COVERED - 1);
    assert Codeword(g) == XorBytes(Codeword(msg), Laid(GENERATOR, MSG_SIZE, COVERED - 1));
    ValidIffCodewordZero(msg);
    ValidIffCodewordZero(g);
    LaidFlips(msg, GENERATOR_AT_FIELD, COVERED - 1);
    GeneratorBits();
  }
}
