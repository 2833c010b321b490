/** The distance of the ROOT's messages: any two different valid ones differ in at least four
    bits, wherever these lie, the CRC field included. */
module Crc16Distance {
  import opened Crc8
  import opened Crc8Detection
  import opened Crc16
  import opened Crc16Detection

  // ── The register on zero bits ──────────────────────────────────────────────

  function Clocks16(d: word, n: nat): word
    decreases n
  {
    if n == 0 then d else Clocks16(Step16(d, false), n - 1)
  }

  lemma {:induction false} Clocks16Add(d: word, m: nat, n: nat)
    ensures Clocks16(d, m + n) == Clocks16(Clocks16(d, m), n)
    decreases m
  {
    hide Step16;
    if m == 0 {
    } else {
      Clocks16Add(Step16(d, false), m - 1, n);
    }
  }

  lemma {:induction false} ZeroBits16(d: word, bits: seq<bool>)
    requires forall k :: 0 <= k < |bits| ==> !bits[k]
    ensures Register16(d, bits) == Clocks16(d, |bits|)
    decreases |bits|
  {
    hide Step16;
    if bits == [] {
    } else {
      Register16First(d, bits);
      ZeroBits16(Step16(d, false), bits[1..]);
    }
  }

  lemma {:induction false} Clocks16Injective(d: word, e: word, n: nat)
    requires Clocks16(d, n) == Clocks16(e, n)
    ensures d == e
    decreases n
  {
    hide Step16;
    if n == 0 {
    } else {
      Clocks16Injective(Step16(d, false), Step16(e, false), n - 1);
      Step16Injective(d, e, false);
    }
  }

  lemma {:induction false} Clocks16Zero(n: nat)
    ensures Clocks16(0, n) == 0
    decreases n
  {
    if n == 0 {
    } else {
      Clocks16Zero(n - 1);
    }
  }

  // ── Its orbit ──────────────────────────────────────────────────────────────

  function Sixteen(d: word): word {
    Clocks16(d, 16)
  }

  predicate SingleBit(d: word) {
    d != 0 && d & (d - 1) == 0
  }

  /** After 16, 32, .. 16 n clocks of the register it does not hold a single bit. */
  predicate Clear(d: word, n: nat)
    decreases n
  {
    n == 0 || (!SingleBit(Sixteen(d)) && Clear(Sixteen(d), n - 1))
  }

  function Clock16(d: word): word {
    Step16(d, false)
  }

  function Four(d: word): word {
    Clock16(Clock16(Clock16(Clock16(d))))
  }

  function Jump(d: word): word {
    Four(Four(Four(Four(d))))
  }

  lemma SixteenIsFours(d: word)
    ensures Sixteen(d) == Jump(d)
  {
    hide Four, Clocks16;
    FourClocks(d, 12);
    FourClocks(Four(d), 8);
    FourClocks(Four(Four(d)), 4);
    FourClocks(Four(Four(Four(d))), 0);
    NoClocks(Jump(d));
  }

  lemma FourClocks(d: word, n: nat)
    ensures Clocks16(d, n + 4) == Clocks16(Four(d), n)
  {
    hide Step16;
    var d2 := Clock16(Clock16(d));
    assert Clocks16(d, n + 4) == Clocks16(Clock16(d), n + 3) == Clocks16(d2, n + 2);
    assert Clocks16(d2, n + 2) == Clocks16(Clock16(d2), n + 1);
  }

  lemma NoClocks(d: word)
    ensures Clocks16(d, 0) == d
  {
  }

  /** Six times sixteen clocks from `d` to `e`, never at a single bit. */
  predicate RowClear(d: word, e: word) {
    var d1 := Jump(d);
    var d2 := Jump(d1);
    var d3 := Jump(d2);
    var d4 := Jump(d3);
    var d5 := Jump(d4);
    && !SingleBit(d1) && !SingleBit(d2) && !SingleBit(d3) && !SingleBit(d4) && !SingleBit(d5)
    && Jump(d5) == e && !SingleBit(e)
  }

  lemma OneMore(d: word, n: nat)
    ensures Clear(d, n + 1) <==> !SingleBit(Jump(d)) && Clear(Jump(d), n)
  {
    hide Jump, SingleBit, Clocks16;
    SixteenIsFours(d);
    assert Clear(d, n + 1) <==> !SingleBit(Sixteen(d)) && Clear(Sixteen(d), n);
  }

  lemma SixMore(d: word, e: word, n: nat)
    requires RowClear(d, e)
    ensures Clear(d, n + 6) <==> Clear(e, n)
  {
    hide Jump, SingleBit, Clear;
    var d1 := Jump(d);
    var d2 := Jump(d1);
    var d3 := Jump(d2);
    var d4 := Jump(d3);
    OneMore(d, n + 5);
    OneMore(d1, n + 4);
    OneMore(d2, n + 3);
    OneMore(d3, n + 2);
    OneMore(d4, n + 1);
    OneMore(Jump(d4), n);
  }

  /** The orbit of 1, ninety-six clocks a row. */
  lemma OrbitFirst()
    ensures Clear(0x0001, 108) <==> Clear(0x650B, 96)
  {
    hide Clear;
    assert RowClear(0x0001, 0xD849);
    SixMore(0x0001, 0xD849, 102);
    assert RowClear(0xD849, 0x650B);
    SixMore(0xD849, 0x650B, 96);
  }

  lemma OrbitSecond()
    ensures Clear(0x650B, 96) <==> Clear(0xCDE2, 84)
  {
    hide Clear;
    assert RowClear(0x650B, 0x6735);
    SixMore(0x650B, 0x6735, 90);
    assert RowClear(0x6735, 0xCDE2);
    SixMore(0x6735, 0xCDE2, 84);
  }

  lemma OrbitThird()
    ensures Clear(0xCDE2, 84) <==> Clear(0x8832, 72)
  {
    hide Clear;
    assert RowClear(0xCDE2, 0xA55E);
    SixMore(0xCDE2, 0xA55E, 78);
    assert RowClear(0xA55E, 0x8832);
    SixMore(0xA55E, 0x8832, 72);
  }

  lemma OrbitFourth()
    ensures Clear(0x8832, 72) <==> Clear(0x106F, 60)
  {
    hide Clear;
    assert RowClear(0x8832, 0xEEFD);
    SixMore(0x8832, 0xEEFD, 66);
    assert RowClear(0xEEFD, 0x106F);
    SixMore(0xEEFD, 0x106F, 60);
  }

  lemma OrbitFifth()
    ensures Clear(0x106F, 60) <==> Clear(0xD24C, 48)
  {
    hide Clear;
    assert RowClear(0x106F, 0x52CC);
    SixMore(0x106F, 0x52CC, 54);
    assert RowClear(0x52CC, 0xD24C);
    SixMore(0x52CC, 0xD24C, 48);
  }

  lemma OrbitSixth()
    ensures Clear(0xD24C, 48) <==> Clear(0x400C, 36)
  {
    hide Clear;
    assert RowClear(0xD24C, 0xF147);
    SixMore(0xD24C, 0xF147, 42);
    assert RowClear(0xF147, 0x400C);
    SixMore(0xF147, 0x400C, 36);
  }

  lemma OrbitSeventh()
    ensures Clear(0x400C, 36) <==> Clear(0x8D5B, 24)
  {
    hide Clear;
    assert RowClear(0x400C, 0x2E89);
    SixMore(0x400C, 0x2E89, 30);
    assert RowClear(0x2E89, 0x8D5B);
    SixMore(0x2E89, 0x8D5B, 24);
  }

  lemma OrbitEighth()
    ensures Clear(0x8D5B, 24) <==> Clear(0x2764, 12)
  {
    hide Clear;
    assert RowClear(0x8D5B, 0x7434);
    SixMore(0x8D5B, 0x7434, 18);
    assert RowClear(0x7434, 0x2764);
    SixMore(0x7434, 0x2764, 12);
  }

  lemma OrbitNinth()
    ensures Clear(0x2764, 12) <==> Clear(0x2096, 0)
  {
    hide Clear;
    assert RowClear(0x2764, 0xD903);
    SixMore(0x2764, 0xD903, 6);
    assert RowClear(0xD903, 0x2096);
    SixMore(0xD903, 0x2096, 0);
  }

  lemma OrbitIsClear()
    ensures Clear(1, 108)
  {
    hide Clear;
    OrbitFirst();
    OrbitSecond();
    OrbitThird();
    OrbitFourth();
    OrbitFifth();
    OrbitSixth();
    OrbitSeventh();
    OrbitEighth();
    OrbitNinth();
    NothingLeft(0x2096);
  }

  lemma NothingLeft(d: word)
    ensures Clear(d, 0)
  {
  }

  lemma {:induction false} ClearAt(d: word, n: nat, k: nat)
    requires Clear(d, n) && 1 <= k <= n
    ensures !SingleBit(Clocks16(d, 16 * k))
    decreases n
  {
    hide SingleBit, Step16;
    Clocks16Add(d, 16, 16 * (k - 1));
    if k > 1 {
      ClearAt(Sixteen(d), n - 1, k - 1);
    } else {
      assert Clocks16(Sixteen(d), 0) == Sixteen(d);
    }
  }

  lemma SingleUp(d: word, n: nat)
    requires SingleBit(d) && n > 0 && Small(d, n)
    ensures SingleBit(Step16(d, false)) && Step16(d, false) == d << 1 && Small(d << 1, n - 1)
  {
    SmallShift(d, n);
  }

  /** While the top bits are clear the clocks only move a single bit up. */
  lemma {:induction false} SingleFor(d: word, n: nat, m: nat)
    requires SingleBit(d) && Small(d, n) && m <= n
    ensures SingleBit(Clocks16(d, m)) && Clocks16(d, m) == Up(d, m)
    decreases m
  {
    hide Step16, SingleBit, Small;
    if m == 0 {
    } else {
      SingleUp(d, n);
      SingleFor(Step16(d, false), n - 1, m - 1);
    }
  }

  /** Fewer than sixteen clocks only move the single bit of 1. */
  lemma FifteenSingles(m: nat)
    requires m <= 15
    ensures SingleBit(Clocks16(1, m)) && Clocks16(1, 15) == 0x8000
  {
    hide Clocks16, Step16;
    LowPlaces();
    SingleFor(1, 8, if m <= 8 then m else 8);
    SingleFor(1, 8, 8);
    SingleFor(0x100, 7, 7);
    Clocks16Add(1, 8, 7);
    if m > 8 {
      Clocks16Add(1, 8, m - 8);
      SingleFor(0x100, 7, m - 8);
    }
  }

  lemma LowPlaces()
    ensures SingleBit(1) && SingleBit(0x100) && Small(1, 8) && Small(0x100, 7)
    ensures Up(1, 8) == 0x100 && Up(0x100, 7) == 0x8000
  {
  }

  /** Within the length of a message the register never comes back to its top bit. */
  lemma NoReturn(n: nat)
    requires 1 <= n <= 8 * MSG_SIZE
    ensures Clocks16(0x8000, n) != 0x8000
  {
    hide Clocks16, Clear, SingleBit;
    FifteenSingles(15);
    if Clocks16(0x8000, n) == 0x8000 {
      Clocks16Add(1, 15, n);
      Clocks16Add(1, n, 15);
      Clocks16Injective(Clocks16(1, n), 1, 15);
      var m := (16 - n % 16) % 16;
      var k := (n + m) / 16;
      Clocks16Add(1, n, m);
      FifteenSingles(m);
      OrbitIsClear();
      ClearAt(1, 108, k);
      assert false;
    }
  }

  // ── Two error bits ─────────────────────────────────────────────────────────

  lemma Register16Push(s: word, e: seq<bool>, i: nat)
    requires i < |e|
    ensures Register16(s, e[..i + 1]) == Step16(Register16(s, e[..i]), e[i])
  {
    assert e[..i + 1][..i] == e[..i];
  }

  lemma TopBitFeeds()
    ensures Step16(0, true) == Step16(0x8000, false)
  {
  }

  lemma OnlyTopCancels(d: word)
    ensures Step16(d, true) == 0 <==> d == 0x8000
  {
  }

  /** Two error bits never leave the register of an otherwise clean message at zero. */
  lemma TwoErrorBits16(e: seq<bool>, i: nat, j: nat)
    requires i < j < |e| <= 8 * MSG_SIZE
    requires forall k :: 0 <= k < |e| ==> (e[k] <==> k == i || k == j)
    ensures Register16(0, e) != 0
  {
    hide Step16;
    ZeroBits16(0, e[..i]);
    Clocks16Zero(i);
    Register16Push(0, e, i);
    TopBitFeeds();
    Register16Concat(0, e[..i + 1], e[i + 1..j]);
    assert e[..j] == e[..i + 1] + e[i + 1..j];
    ZeroBits16(Step16(0x8000, false), e[i + 1..j]);
    var d := Register16(0, e[..j]);
    assert d == Clocks16(0x8000, j - i);
    NoReturn(j - i);
    Register16Push(0, e, j);
    OnlyTopCancels(d);
    Register16Concat(0, e[..j + 1], e[j + 1..]);
    assert e == e[..j + 1] + e[j + 1..];
    ZeroBits16(Step16(d, true), e[j + 1..]);
    Clocks16Zero(|e| - j - 1);
    if Register16(0, e) == 0 {
      Clocks16Injective(Step16(d, true), 0, |e| - j - 1);
    }
  }

  // ── The message as a codeword ──────────────────────────────────────────────

  /** The message with its CRC field most significant byte first. */
  function Codeword(msg: seq<byte>): seq<byte>
    requires |msg| == MSG_SIZE
  {
    msg[..COVERED] + [msg[COVERED + 1]] + [msg[COVERED]]
  }

  /** The field's bits take a register holding the field's value to zero. */
  lemma FieldCancels(low: byte, high: byte)
    ensures Register16(LittleEndian(low, high), MsbBits(high) + MsbBits(low)) == 0
  {
    hide LittleEndian, High, Delta16, Shifts, Step16, Small, Up, Register16, HighBits, TopOnly;
    var c := LittleEndian(low, high);
    FieldIsDelta(low, high);
    Register16Concat(c, MsbBits(high), MsbBits(low));
    AnyByte(high);
    AnyByte(low);
    ShiftsAreRegister(c, high, 8);
    Delta16Left(High(high), low as word, High(high));
    Delta16Self(High(high), High(high));
    Delta16Self(low as word, 0);
    ByteUp(low);
    SmallShifts(low as word, 8);
    ShiftsAreRegister(High(low), low, 8);
    Delta16Self(0, High(low));
    ShiftsOfZero(8);
  }

  lemma AnyByte(b: byte)
    ensures TopOnly(b, 8)
  {
  }

  lemma {:induction false} SmallShifts(w: word, n: nat)
    requires Small(w, n)
    ensures Shifts(w, n) == Up(w, n)
    decreases n
  {
    hide Small;
    if n == 0 {
    } else {
      SmallShift(w, n);
      SmallShifts(w << 1, n - 1);
    }
  }

  lemma {:induction false} ShiftsOfZero(n: nat)
    ensures Shifts(0, n) == 0
    decreases n
  {
    if n == 0 {
    } else {
      ShiftsOfZero(n - 1);
    }
  }

  /** A message is valid exactly when its codeword leaves the register at zero. */
  lemma {:induction false} ValidIffCodewordZero(msg: seq<byte>)
    requires |msg| == MSG_SIZE
    ensures MsgValid(msg) <==> Crc16.Crc(Codeword(msg)) == 0
    ensures MsbBitsOf(Codeword(msg)) == MsbBitsOf(msg[..COVERED]) + (MsbBits(msg[COVERED + 1]) + MsbBits(msg[COVERED]))
  {
    hide LittleEndian, MsbBits, Register16;
    var data, low, high := msg[..COVERED], msg[COVERED], msg[COVERED + 1];
    var field := MsbBits(high) + MsbBits(low);
    BitsOfTwoMore(data, high, low);
    Register16Concat(0xFFFF, MsbBitsOf(data), field);
    FieldCancels(low, high);
    if Crc16.Crc(Codeword(msg)) == 0 {
      Register16Injective(Crc16.Crc(data), LittleEndian(low, high), field);
    }
  }

  lemma BitsOfTwoMore(data: seq<byte>, a: byte, b: byte)
    ensures MsbBitsOf(data + [a] + [b]) == MsbBitsOf(data) + (MsbBits(a) + MsbBits(b))
  {
    hide MsbBits;
    assert (data + [a])[..|data|] == data;
    assert (data + [a] + [b])[..|data| + 1] == data + [a];
  }

  lemma {:induction false} FlipsConcat(x: seq<bool>, y: seq<bool>, u: seq<bool>, v: seq<bool>)
    requires |x| == |y| && |u| == |v|
    ensures Flips(x + u, y + v) == Flips(x, y) + Flips(u, v)
    decreases |u|
  {
    if u == [] {
      assert x + u == x && y + v == y;
    } else {
      var n := |u| - 1;
      FlipsConcat(x, y, u[..n], v[..n]);
      assert (x + u)[..|x| + n] == x + u[..n] && (y + v)[..|y| + n] == y + v[..n];
    }
  }

  /** Turning the field round does not change how many bits differ. */
  lemma {:induction false} CodewordFlips(f: seq<byte>, g: seq<byte>)
    requires |f| == |g| == MSG_SIZE
    ensures Flips(MsbBitsOf(Codeword(f)), MsbBitsOf(Codeword(g))) == Flips(MsbBitsOf(f), MsbBitsOf(g))
  {
    hide MsbBits, Flips, MsbBitsOf;
    var x, y := MsbBitsOf(f[..COVERED]), MsbBitsOf(g[..COVERED]);
    var a, b := MsbBits(f[COVERED]), MsbBits(f[COVERED + 1]);
    var c, d := MsbBits(g[COVERED]), MsbBits(g[COVERED + 1]);
    BitsOfTwoMore(f[..COVERED], f[COVERED], f[COVERED + 1]);
    BitsOfTwoMore(g[..COVERED], g[COVERED], g[COVERED + 1]);
    BitsOfTwoMore(f[..COVERED], f[COVERED + 1], f[COVERED]);
    BitsOfTwoMore(g[..COVERED], g[COVERED + 1], g[COVERED]);
    assert f == f[..COVERED] + [f[COVERED]] + [f[COVERED + 1]];
    assert g == g[..COVERED] + [g[COVERED]] + [g[COVERED + 1]];
    FlipsConcat(x, y, a + b, c + d);
    FlipsConcat(x, y, b + a, d + c);
    FlipsConcat(a, c, b, d);
    FlipsConcat(b, d, a, c);
  }

  /** Any two different valid messages differ in at least four bits: every error of one, two
      or three flipped bits makes `mesh_msg_valid` false. */
  lemma {:induction false} MsgDistance(f: seq<byte>, g: seq<byte>)
    requires MsgValid(f) && MsgValid(g) && f != g
    ensures Flips(MsbBitsOf(f), MsbBitsOf(g)) >= 4
  {
    hide Register16, MsbBitsOf, Codeword, Flips, Delta16;
    var n := Flips(MsbBitsOf(f), MsbBitsOf(g));
    if n % 2 == 1 {
      OddMsgFlipsDetected(f, g);
    } else if n == 0 {
      NoFlips(MsbBitsOf(f), MsbBitsOf(g));
      MsbBitsOfInjective(f, g);
    } else if n == 2 {
      var x, y := MsbBitsOf(Codeword(f)), MsbBitsOf(Codeword(g));
      ValidIffCodewordZero(f);
      ValidIffCodewordZero(g);
      CodewordFlips(f, g);
      var i, j := TwoFlips(x, y);
      Register16Linear(0xFFFF, 0xFFFF, x, y);
      Delta16Self(0, 0xFFFF);
      Delta16Self(0, 0);
      TwoErrorBits16(XorBits(x, y), i, j);
    }
  }
}
