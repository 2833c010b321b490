/** What the CRC-16 of the ROOT's messages detects: bursts of up to sixteen bits and odd
    numbers of flips; and its affinity over equally long inputs. */
module Crc16Detection {
  import opened Crc8
  import opened Crc8Detection
  import opened Crc16

  // ── Bursts ─────────────────────────────────────────────────────────────────

  function Push16(d: word, error: bool): word {
    (d >> 1) ^ (if error then 0x8000 else 0)
  }

  function Pack16(u: seq<bool>, v: seq<bool>): word
    requires |u| == |v|
  {
    if u == [] then 0 else Push16(Pack16(u[1..], v[1..]), u[0] != v[0])
  }

  /** Only the top `n` bits of `d` may be set. */
  predicate Top16(d: word, n: nat) {
    n >= 16 || (n == 0 && d == 0)
    || (n == 1 && d & 0x7FFF == 0) || (n == 2 && d & 0x3FFF == 0) || (n == 3 && d & 0x1FFF == 0)
    || (n == 4 && d & 0x0FFF == 0) || (n == 5 && d & 0x07FF == 0) || (n == 6 && d & 0x03FF == 0)
    || (n == 7 && d & 0x01FF == 0) || (n == 8 && d & 0x00FF == 0) || (n == 9 && d & 0x007F == 0)
    || (n == 10 && d & 0x003F == 0) || (n == 11 && d & 0x001F == 0) || (n == 12 && d & 0x000F == 0)
    || (n == 13 && d & 0x0007 == 0) || (n == 14 && d & 0x0003 == 0) || (n == 15 && d & 0x0001 == 0)
  }

  lemma Top16Even(d: word, n: nat)
    requires n <= 15 && Top16(d, n)
    ensures d & 1 == 0
  {
  }

  lemma Top16Push(d: word, error: bool, n: nat)
    requires n <= 15 && Top16(d, n)
    ensures Push16(d, error) == 0 <==> d == 0 && !error
    ensures Top16(Push16(d, error), n + 1)
  {
  }

  lemma BackOne(d: word, error: bool)
    requires Step16(d, error) & 1 == 0
    ensures d == Push16(Step16(d, error), error)
  {
  }

  lemma Delta16IsZero(s: word, t: word)
    ensures Delta16(s, t) == 0 <==> s == t
  {
    hide Delta16;
    Delta16Right(s, t, t);
    Delta16Self(s, t);
    Delta16Self(t, t);
  }

  lemma Top16None(d: word)
    ensures Top16(d, 0) <==> d == 0
  {
  }

  lemma Delta16Zero(s: word, t: word)
    ensures Delta16(s, t) == 0 <==> s == t
    ensures Delta16(s, t) == 0 <==> Top16(Delta16(s, t), 0)
  {
    hide Delta16, Top16;
    Delta16IsZero(s, t);
    Top16None(Delta16(s, t));
  }

  lemma {:induction false} Window16(s: word, t: word, u: seq<bool>, v: seq<bool>)
    requires |u| == |v| <= 16
    requires Register16(s, u) == Register16(t, v)
    ensures Delta16(s, t) == Pack16(u, v) && Top16(Pack16(u, v), |u|)
    decreases |u|
  {
    hide Step16, Top16, Push16, Delta16;
    if u == [] {
      Delta16Zero(s, t);
    } else {
      Register16First(s, u);
      Register16First(t, v);
      Window16(Step16(s, u[0]), Step16(t, v[0]), u[1..], v[1..]);
      Top16Even(Pack16(u[1..], v[1..]), |u| - 1);
      Step16Linear(s, t, u[0], v[0]);
      BackOne(Delta16(s, t), u[0] != v[0]);
      Top16Push(Pack16(u[1..], v[1..]), u[0] != v[0], |u| - 1);
    }
  }

  lemma {:induction false} Pack16Zero(u: seq<bool>, v: seq<bool>)
    requires |u| == |v| <= 16
    ensures Top16(Pack16(u, v), |u|)
    ensures Pack16(u, v) == 0 <==> u == v
    decreases |u|
  {
    hide Top16, Push16;
    if u == [] {
      Delta16Zero(0, 0);
    } else {
      Pack16Zero(u[1..], v[1..]);
      Top16Push(Pack16(u[1..], v[1..]), u[0] != v[0], |u| - 1);
      assert u == [u[0]] + u[1..] && v == [v[0]] + v[1..];
    }
  }

  lemma Step16Injective(s: word, t: word, bit: bool)
    requires Step16(s, bit) == Step16(t, bit)
    ensures s == t
  {
    hide Step16, Delta16, Top16;
    Step16Linear(s, t, bit, bit);
    Delta16Zero(Step16(s, bit), Step16(t, bit));
    Delta16Zero(s, t);
    OnlyZeroStepsToZero(Delta16(s, t));
  }

  lemma OnlyZeroStepsToZero(d: word)
    requires Step16(d, false) == 0
    ensures d == 0
  {
  }

  lemma {:induction false} Register16Injective(s: word, t: word, bits: seq<bool>)
    requires Register16(s, bits) == Register16(t, bits)
    ensures s == t
  {
    hide Step16;
    if bits == [] {
    } else {
      var n := |bits| - 1;
      Step16Injective(Register16(s, bits[..n]), Register16(t, bits[..n]), bits[n]);
      Register16Injective(s, t, bits[..n]);
    }
  }

  lemma Burst16InBits(x: seq<bool>, y: seq<bool>, p: nat, w: nat)
    requires |x| == |y| && w <= 16 && p + w <= |x|
    requires forall i :: 0 <= i < |x| && x[i] != y[i] ==> p <= i < p + w
    requires Register16(0xFFFF, x) == Register16(0xFFFF, y)
    ensures x == y
  {
    hide Step16, Delta16, Top16, Register16, Pack16;
    var a, u, c := x[..p], x[p..p + w], x[p + w..];
    var v := y[p..p + w];
    assert x == a + u + c && y == a + v + c by {
      assert y[..p] == a && y[p + w..] == c;
    }
    var s := Register16(0xFFFF, a);
    Register16Concat(0xFFFF, a + u, c);
    Register16Concat(0xFFFF, a + v, c);
    Register16Concat(0xFFFF, a, u);
    Register16Concat(0xFFFF, a, v);
    Register16Injective(Register16(s, u), Register16(s, v), c);
    Window16(s, s, u, v);
    Delta16Zero(s, s);
    Pack16Zero(u, v);
  }

  /** Two byte strings with the same CRC that differ only within sixteen consecutive bits are
      the same, at every length. */
  lemma {:induction false} CrcSeparatesBursts(f: seq<byte>, g: seq<byte>, p: int)
    requires |f| == |g| && Crc16.Crc(f) == Crc16.Crc(g)
    requires forall i :: 0 <= i < 8 * |f| && MsbBitsOf(f)[i] != MsbBitsOf(g)[i] ==> p <= i < p + 16
    ensures f == g
  {
    hide Register16;
    var n := 8 * |f|;
    var from := if p < 0 then 0 else if p > n then n else p;
    var to := if p + 16 < from then from else if p + 16 > n then n else p + 16;
    Burst16InBits(MsbBitsOf(f), MsbBitsOf(g), from, to - from);
    MsbBitsOfInjective(f, g);
  }

  /** Any nonzero error within sixteen consecutive covered bits makes `mesh_msg_valid` false. */
  lemma {:induction false} MsgBurstDetected(f: seq<byte>, g: seq<byte>, p: int)
    requires MsgValid(f) && |g| == MSG_SIZE && f != g
    requires f[COVERED..] == g[COVERED..]
    requires forall i :: 0 <= i < 8 * COVERED && MsbBitsOf(f[..COVERED])[i] != MsbBitsOf(g[..COVERED])[i]
               ==> p <= i < p + 16
    ensures !MsgValid(g)
  {
    hide Register16, MsbBitsOf;
    assert f == f[..COVERED] + f[COVERED..] && g == g[..COVERED] + g[COVERED..];
    if MsgValid(g) {
      assert f[COVERED] == f[COVERED..][0] == g[COVERED] && f[COVERED + 1] == f[COVERED..][1] == g[COVERED + 1];
      CrcSeparatesBursts(f[..COVERED], g[..COVERED], p);
    }
  }

  // ── Parity ─────────────────────────────────────────────────────────────────

  /** Parity of the top `n` bits. */
  function TopParity(w: word, n: nat): bool
    decreases n
  {
    if n == 0 then false else (w & 0x8000 != 0) != TopParity(w << 1, n - 1)
  }

  function WordParity(w: word): bool {
    TopParity(w, 16)
  }

  lemma ZeroWord()
    ensures (0 as word) << 1 == 0 && (0 as word) & 0x8000 == 0
  {
  }

  lemma {:induction false} ZeroParity16(n: nat)
    ensures !TopParity(0, n)
    decreases n
  {
    ZeroWord();
    if n == 0 {
    } else {
      ZeroParity16(n - 1);
    }
  }

  lemma {:induction false} TopParityXor(x: word, y: word, n: nat)
    ensures TopParity(Delta16(x, y), n) == (TopParity(x, n) != TopParity(y, n))
    decreases n
  {
    hide Delta16;
    if n == 0 {
    } else {
      ShiftXor16(x, y);
      TopXor16(x, y);
      TopParityXor(x << 1, y << 1, n - 1);
    }
  }

  lemma Top16Shift(d: word, n: nat)
    requires n > 0 && Top16(d, n)
    ensures Top16(d << 1, n - 1)
  {
  }

  /** Places known to be clear do not count. */
  lemma {:induction false} ClearPlaces(d: word, n: nat, more: nat)
    requires Top16(d, n)
    ensures TopParity(d, n + more) == TopParity(d, n)
    decreases n
  {
    hide Top16;
    if n == 0 {
      Top16None(d);
      ZeroParity16(more);
    } else {
      Top16Shift(d, n);
      ClearPlaces(d << 1, n - 1, more);
    }
  }

  lemma ShiftedIsEven(w: word)
    ensures Top16(w << 1, 15)
  {
  }

  lemma FeedbackParity(w: word, on: bool)
    ensures WordParity(Feedback16(w, on)) == (WordParity(w) != on)
  {
    hide Delta16, TopParity;
    TopParityXor(w, 0x1021, 16);
    PolynomialParity();
  }

  /** The feedback constant has three ones. */
  lemma PolynomialParity()
    ensures TopParity(0x1021, 16)
  {
  }

  lemma {:induction false} TopParityFirst(w: word, n: nat)
    ensures TopParity(w, n + 1) == ((w & 0x8000 != 0) != TopParity(w << 1, n))
  {
  }

  lemma {:induction false} WordParityFirst(w: word)
    ensures WordParity(w) == ((w & 0x8000 != 0) != WordParity(w << 1))
  {
    hide Top16, TopParity;
    TopParityFirst(w, 15);
    ShiftedIsEven(w);
    ClearPlaces(w << 1, 15, 1);
  }

  lemma {:induction false} Step16Parity(crc: word, bit: bool)
    ensures WordParity(Step16(crc, bit)) == (WordParity(crc) != bit)
  {
    hide Step16, Feedback16, WordParity;
    Step16IsFeedback(crc, bit);
    WordParityFirst(crc);
    FeedbackParity(crc << 1, (crc & 0x8000 != 0) != bit);
  }

  lemma {:induction false} Register16Parity(crc: word, bits: seq<bool>)
    ensures WordParity(Register16(crc, bits)) == (WordParity(crc) != Parity(bits))
  {
    hide Step16, WordParity;
    if bits == [] {
    } else {
      var n := |bits| - 1;
      Register16Parity(crc, bits[..n]);
      Step16Parity(Register16(crc, bits[..n]), bits[n]);
    }
  }

  lemma {:induction false} ParityFirst(b: bool, rest: seq<bool>)
    ensures Parity([b] + rest) == (b != Parity(rest))
  {
    if rest == [] {
      assert Parity([b]) == (Parity([]) != b);
      assert [b] + rest == [b];
    } else {
      var n := |rest| - 1;
      ParityFirst(b, rest[..n]);
      assert ([b] + rest)[..n + 1] == [b] + rest[..n];
    }
  }

  /** At every length, inputs that differ in an odd number of bits have different CRCs. */
  lemma {:induction false} OddFlipsChangeCrc(f: seq<byte>, g: seq<byte>)
    requires |f| == |g|
    ensures Flips(MsbBitsOf(f), MsbBitsOf(g)) % 2 == 1 ==> Crc16.Crc(f) != Crc16.Crc(g)
  {
    hide WordParity, Register16, MsbBitsOf, Parity, Flips;
    Register16Parity(0xFFFF, MsbBitsOf(f));
    Register16Parity(0xFFFF, MsbBitsOf(g));
    FlipsParity(MsbBitsOf(f), MsbBitsOf(g));
  }

  lemma HighTop(b: byte)
    ensures High(b) << 1 == High(b << 1)
    ensures (High(b) & 0x8000 != 0) == (b & 0x80 != 0)
  {
  }

  lemma {:induction false} HighParity(b: byte, n: nat)
    ensures TopParity(High(b), n) == Parity(HighBits(b, n))
    decreases n
  {
    hide High;
    if n == 0 {
    } else {
      HighTop(b);
      HighParity(b << 1, n - 1);
      ParityFirst(b & 0x80 != 0, HighBits(b << 1, n - 1));
    }
  }

  lemma HighIsTop(b: byte)
    ensures Top16(High(b), 8)
  {
  }

  predicate Small(w: word, n: nat) {
    (n == 0) || (n == 1 && w < 0x8000) || (n == 2 && w < 0x4000) || (n == 3 && w < 0x2000)
    || (n == 4 && w < 0x1000) || (n == 5 && w < 0x0800) || (n == 6 && w < 0x0400)
    || (n == 7 && w < 0x0200) || (n == 8 && w < 0x0100)
  }

  lemma SmallShift(w: word, n: nat)
    requires n > 0 && Small(w, n)
    ensures w & 0x8000 == 0 && Small(w << 1, n - 1)
  {
  }

  function Up(w: word, n: nat): word
    decreases n
  {
    if n == 0 then w else Up(w << 1, n - 1)
  }

  lemma {:induction false} LeadingZeros(w: word, n: nat, more: nat)
    requires Small(w, n)
    ensures TopParity(w, n + more) == TopParity(Up(w, n), more)
    decreases n
  {
    hide Small;
    if n == 0 {
    } else {
      SmallShift(w, n);
      LeadingZeros(w << 1, n - 1, more);
    }
  }

  lemma ByteUp(b: byte)
    ensures Up(b as word, 8) == High(b) && Small(b as word, 8)
  {
  }

  lemma FieldIsDelta(low: byte, high: byte)
    ensures LittleEndian(low, high) == Delta16(High(high), low as word)
  {
  }

  lemma {:induction false} FieldParity(low: byte, high: byte)
    ensures WordParity(LittleEndian(low, high)) == (Parity(MsbBits(high)) != Parity(MsbBits(low)))
  {
    hide LittleEndian, High, Delta16, TopParity, Top16, Small, Up;
    FieldIsDelta(low, high);
    TopParityXor(High(high), low as word, 16);
    HighIsTop(high);
    ClearPlaces(High(high), 8, 8);
    HighParity(high, 8);
    ByteUp(low);
    LeadingZeros(low as word, 8, 8);
    HighParity(low, 8);
  }

  lemma {:induction false} ParityConcat(x: seq<bool>, y: seq<bool>)
    ensures Parity(x + y) == (Parity(x) != Parity(y))
  {
    if y == [] {
      assert x + y == x;
    } else {
      var n := |y| - 1;
      ParityConcat(x, y[..n]);
      assert (x + y)[..|x| + n] == x + y[..n];
    }
  }

  lemma OnesParity()
    ensures !WordParity(0xFFFF)
  {
    assert !TopParity(0xF000, 4);
    assert !TopParity(0xFF00, 8);
    assert !TopParity(0xFFF0, 12);
  }

  /** The CRC has the parity of the covered bits, so a valid message has even parity. */
  lemma {:induction false} ValidMsgIsEven(msg: seq<byte>)
    requires MsgValid(msg)
    ensures !Parity(MsbBitsOf(msg))
  {
    hide WordParity, LittleEndian, Register16, MsbBits, Parity;
    var data := msg[..COVERED];
    var low, high := msg[COVERED], msg[COVERED + 1];
    Register16Parity(0xFFFF, MsbBitsOf(data));
    OnesParity();
    FieldParity(low, high);
    assert msg[..COVERED + 1][..COVERED] == data;
    assert MsbBitsOf(msg[..COVERED + 1]) == MsbBitsOf(data) + MsbBits(low);
    assert MsbBitsOf(msg) == MsbBitsOf(msg[..COVERED + 1]) + MsbBits(high);
    ParityConcat(MsbBitsOf(data), MsbBits(low));
    ParityConcat(MsbBitsOf(msg[..COVERED + 1]), MsbBits(high));
  }

  /** An odd number of flipped bits anywhere in the message, CRC field included, is detected. */
  lemma {:induction false} OddMsgFlipsDetected(f: seq<byte>, g: seq<byte>)
    requires MsgValid(f) && |g| == MSG_SIZE
    requires Flips(MsbBitsOf(f), MsbBitsOf(g)) % 2 == 1
    ensures !MsgValid(g)
  {
    hide Crc16.Crc, LittleEndian, MsbBitsOf, Parity;
    ValidMsgIsEven(f);
    if MsgValid(g) {
      ValidMsgIsEven(g);
    }
    FlipsParity(MsbBitsOf(f), MsbBitsOf(g));
  }

  // ── Affinity ───────────────────────────────────────────────────────────────

  lemma {:induction false} Register16Linear(s: word, t: word, x: seq<bool>, y: seq<bool>)
    requires |x| == |y|
    ensures Register16(Delta16(s, t), XorBits(x, y)) == Delta16(Register16(s, x), Register16(t, y))
    decreases |x|
  {
    hide Step16, Delta16;
    if x == [] {
    } else {
      var n := |x| - 1;
      Register16Linear(s, t, x[..n], y[..n]);
      assert XorBits(x, y)[..n] == XorBits(x[..n], y[..n]);
      Step16Linear(Register16(s, x[..n]), Register16(t, y[..n]), x[n], y[n]);
    }
  }

  lemma HighShiftXor(a: byte, b: byte)
    ensures Delta(a, b) << 1 == Delta(a << 1, b << 1)
    ensures (Delta(a, b) & 0x80 != 0) == ((a & 0x80 != 0) != (b & 0x80 != 0))
  {
  }

  lemma {:induction false} HighBitsXor(a: byte, b: byte, n: nat)
    ensures HighBits(Delta(a, b), n) == XorBits(HighBits(a, n), HighBits(b, n))
    decreases n
  {
    hide Delta;
    if n == 0 {
    } else {
      HighBitsXor(a << 1, b << 1, n - 1);
      HighShiftXor(a, b);
    }
  }

  lemma {:induction false} MsbBitsXor(a: byte, b: byte)
    ensures MsbBits(Delta(a, b)) == XorBits(MsbBits(a), MsbBits(b))
  {
    hide HighBits, Delta;
    HighBitsXor(a, b, 8);
  }

  lemma {:induction false} MsbBitsOfXor(f: seq<byte>, g: seq<byte>)
    requires |f| == |g|
    ensures MsbBitsOf(XorBytes(f, g)) == XorBits(MsbBitsOf(f), MsbBitsOf(g))
  {
    hide MsbBits, Delta;
    if f == [] {
    } else {
      hide XorBytes, XorBits;
      var n := |f| - 1;
      MsbBitsOfXor(f[..n], g[..n]);
      XorBytesLast(f, g);
      MsbBitsXor(f[n], g[n]);
      XorConcat(MsbBitsOf(f[..n]), MsbBitsOf(g[..n]), MsbBits(f[n]), MsbBits(g[n]));
    }
  }

  /** The CRC is affine over equally long inputs: changing an input by `e` changes its CRC by
      an amount that depends on `e` alone. */
  lemma {:induction false} CrcAffine(f: seq<byte>, g: seq<byte>, e: seq<byte>)
    requires |f| == |g| == |e|
    ensures Delta16(Crc16.Crc(XorBytes(f, e)), Crc16.Crc(f)) == Delta16(Crc16.Crc(XorBytes(g, e)), Crc16.Crc(g))
  {
    hide Register16, MsbBitsOf, Delta16;
    ChangeByError(f, e);
    ChangeByError(g, e);
  }

  lemma {:induction false} ChangeByError(f: seq<byte>, e: seq<byte>)
    requires |f| == |e|
    ensures Delta16(Crc16.Crc(XorBytes(f, e)), Crc16.Crc(f)) == Register16(0, MsbBitsOf(e))
  {
    hide Register16, MsbBitsOf, Delta16;
    var x, d := MsbBitsOf(f), MsbBitsOf(e);
    MsbBitsOfXor(f, e);
    Register16Linear(0xFFFF, 0xFFFF, XorBits(x, d), x);
    assert XorBits(XorBits(x, d), x) == d;
    Delta16Self(0, 0xFFFF);
  }
}
