/** CRC-16/CCITT-FALSE as computed by `mesh_crc16`, the check `mesh_msg_valid` built on it,
    and what that check detects. Bits run most significant first. */
module Crc16 {
  import opened Crc8

  type word = bv16

  // ── Bits, most significant first ───────────────────────────────────────────

  /** The top `n` bits of a byte, most significant first. */
  function HighBits(b: byte, n: nat): (s: seq<bool>)
    ensures |s| == n
    decreases n
  {
    if n == 0 then [] else [b & 0x80 != 0] + HighBits(b << 1, n - 1)
  }

  function MsbBits(b: byte): (s: seq<bool>)
    ensures |s| == 8
  {
    HighBits(b, 8)
  }

  function MsbBitsOf(data: seq<byte>): (s: seq<bool>)
    ensures |s| == 8 * |data|
  {
    if data == [] then [] else MsbBitsOf(data[..|data| - 1]) + MsbBits(data[|data| - 1])
  }

  /** Only the top `n` bits of `b` may be set. */
  predicate TopOnly(b: byte, n: nat) {
    n >= 8 || (n == 0 && b == 0) || (n == 1 && b & 0x7F == 0) || (n == 2 && b & 0x3F == 0)
    || (n == 3 && b & 0x1F == 0) || (n == 4 && b & 0x0F == 0) || (n == 5 && b & 0x07 == 0)
    || (n == 6 && b & 0x03 == 0) || (n == 7 && b & 0x01 == 0)
  }

  lemma TopOnlyShift(b: byte, n: nat)
    requires TopOnly(b, n) && n > 0
    ensures TopOnly(b << 1, n - 1)
  {
  }

  lemma SameShiftSameHigh(a: byte, b: byte)
    requires a << 1 == b << 1 && (a & 0x80 != 0) == (b & 0x80 != 0)
    ensures a == b
  {
  }

  lemma {:induction false} HighBitsInjective(a: byte, b: byte, n: nat)
    requires HighBits(a, n) == HighBits(b, n)
    requires TopOnly(a, n) && TopOnly(b, n)
    ensures a == b
    decreases n
  {
    hide TopOnly;
    if n > 0 {
      var x, y := HighBits(a, n), HighBits(b, n);
      assert x[0] == y[0];
      assert x[1..] == HighBits(a << 1, n - 1) && y[1..] == HighBits(b << 1, n - 1);
      TopOnlyShift(a, n);
      TopOnlyShift(b, n);
      HighBitsInjective(a << 1, b << 1, n - 1);
      SameShiftSameHigh(a, b);
    } else {
      NothingSet(a);
      NothingSet(b);
    }
  }

  lemma NothingSet(a: byte)
    ensures TopOnly(a, 0) <==> a == 0
  {
  }

  lemma MsbBitsInjective(a: byte, b: byte)
    requires MsbBits(a) == MsbBits(b)
    ensures a == b
  {
    HighBitsInjective(a, b, 8);
  }

  lemma {:induction false} MsbBitsOfInjective(f: seq<byte>, g: seq<byte>)
    requires MsbBitsOf(f) == MsbBitsOf(g)
    ensures f == g
  {
    hide MsbBits;
    assert |f| == |g|;
    if f == [] {
    } else {
      var n := |f| - 1;
      var x, y := MsbBitsOf(f), MsbBitsOf(g);
      assert x[..8 * n] == MsbBitsOf(f[..n]) && x[8 * n..] == MsbBits(f[n]);
      assert y[..8 * n] == MsbBitsOf(g[..n]) && y[8 * n..] == MsbBits(g[n]);
      MsbBitsOfInjective(f[..n], g[..n]);
      MsbBitsInjective(f[n], g[n]);
      assert f == f[..n] + [f[n]] && g == g[..n] + [g[n]];
    }
  }

  // ── The register ───────────────────────────────────────────────────────────

  /** One clock: shift left, feed back 0x1021 when the bit leaving and the message bit disagree. */
  function Step16(crc: word, bit: bool): word {
    if (crc & 0x8000 != 0) != bit then (crc << 1) ^ 0x1021 else crc << 1
  }

  function Register16(crc: word, bits: seq<bool>): word {
    if bits == [] then crc
    else Step16(Register16(crc, bits[..|bits| - 1]), bits[|bits| - 1])
  }

  function Crc(data: seq<byte>): word {
    Register16(0xFFFF, MsbBitsOf(data))
  }

  lemma {:induction false} Register16Concat(crc: word, x: seq<bool>, y: seq<bool>)
    ensures Register16(crc, x + y) == Register16(Register16(crc, x), y)
  {
    hide Step16;
    if y == [] {
      assert x + y == x;
    } else {
      var y0 := y[..|y| - 1];
      Register16Concat(crc, x, y0);
      assert (x + y)[..|x + y| - 1] == x + y0;
      assert (x + y)[|x + y| - 1] == y[|y| - 1];
    }
  }

  lemma Register16First(s: word, u: seq<bool>)
    requires u != []
    ensures Register16(s, u) == Register16(Step16(s, u[0]), u[1..])
  {
    hide Step16;
    Register16Concat(s, u[..1], u[1..]);
    assert u == u[..1] + u[1..];
    assert Register16(s, u[..1]) == Step16(s, u[0]);
  }

  // ── Linearity of the step ──────────────────────────────────────────────────

  /** Exclusive or of two registers. */
  function Delta16(s: word, t: word): word {
    s ^ t
  }

  function Feedback16(x: word, on: bool): word {
    if on then Delta16(x, 0x1021) else x
  }

  lemma Step16IsFeedback(s: word, a: bool)
    ensures Step16(s, a) == Feedback16(s << 1, (s & 0x8000 != 0) != a)
  {
  }

  lemma Delta16Left(x: word, y: word, c: word)
    ensures Delta16(Delta16(x, c), y) == Delta16(Delta16(x, y), c)
  {
  }

  lemma Delta16Right(x: word, y: word, c: word)
    ensures Delta16(x, Delta16(y, c)) == Delta16(Delta16(x, y), c)
  {
  }

  lemma Delta16Self(x: word, c: word)
    ensures Delta16(c, c) == 0 && Delta16(x, 0) == x == Delta16(0, x)
  {
  }

  lemma Delta16Cancels(x: word, y: word, c: word)
    ensures Delta16(Delta16(x, c), Delta16(y, c)) == Delta16(x, y)
  {
    hide Delta16;
    var z := Delta16(x, y);
    Delta16Right(Delta16(x, c), y, c);
    Delta16Left(x, y, c);
    Delta16Right(z, c, c);
    Delta16Self(z, c);
  }

  lemma Feedback16Xor(x: word, y: word, e: bool, f: bool)
    ensures Feedback16(Delta16(x, y), e != f) == Delta16(Feedback16(x, e), Feedback16(y, f))
  {
    hide Delta16;
    Delta16Cancels(x, y, 0x1021);
    Delta16Left(x, y, 0x1021);
    Delta16Right(x, y, 0x1021);
  }

  lemma ShiftXor16(s: word, t: word)
    ensures Delta16(s, t) << 1 == Delta16(s << 1, t << 1)
  {
  }

  lemma TopXor16(s: word, t: word)
    ensures (Delta16(s, t) & 0x8000 != 0) == ((s & 0x8000 != 0) != (t & 0x8000 != 0))
  {
  }

  lemma {:induction false} Step16Linear(s: word, t: word, a: bool, b: bool)
    ensures Step16(Delta16(s, t), a != b) == Delta16(Step16(s, a), Step16(t, b))
  {
    hide Step16, Feedback16, Delta16;
    Step16IsFeedback(s, a);
    Step16IsFeedback(t, b);
    Step16IsFeedback(Delta16(s, t), a != b);
    ShiftXor16(s, t);
    TopXor16(s, t);
    Feedback16Xor(s << 1, t << 1, (s & 0x8000 != 0) != a, (t & 0x8000 != 0) != b);
  }

  // ── The loop ───────────────────────────────────────────────────────────────

  function High(b: byte): word {
    (b as word) << 8
  }

  /** `n` shifts of the inner loop. */
  function Shifts(crc: word, n: nat): word
    decreases n
  {
    if n == 0 then crc else Shifts(Step16(crc, false), n - 1)
  }

  lemma HighStep(b: byte)
    ensures Step16(High(b), b & 0x80 != 0) == High(b << 1)
  {
  }

  lemma Delta16Nothing(crc: word)
    ensures Delta16(crc, High(0)) == crc
  {
  }

  /** Folding a byte in at the top and shifting equals feeding its bits one by one. */
  lemma {:induction false} ShiftsAreRegister(crc: word, b: byte, n: nat)
    requires TopOnly(b, n)
    ensures Shifts(Delta16(crc, High(b)), n) == Register16(crc, HighBits(b, n))
    decreases n
  {
    hide TopOnly, Delta16, High, Step16;
    if n == 0 {
      NothingSet(b);
      Delta16Nothing(crc);
    } else {
      var top := b & 0x80 != 0;
      Step16Linear(crc, High(b), top, top);
      HighStep(b);
      TopOnlyShift(b, n);
      ShiftsAreRegister(Step16(crc, top), b << 1, n - 1);
      Register16First(crc, HighBits(b, n));
      assert HighBits(b, n)[1..] == HighBits(b << 1, n - 1);
    }
  }

  lemma CrcExtends(data: seq<byte>, b: byte)
    ensures Shifts(Delta16(Crc(data), High(b)), 8) == Crc(data + [b])
  {
    hide Delta16, High, Shifts, Register16, HighBits;
    ShiftsAreRegister(Crc(data), b, 8);
    Register16Concat(0xFFFF, MsbBitsOf(data), MsbBits(b));
    assert (data + [b])[..|data|] == data;
  }

  lemma EmptyCrc16()
    ensures Crc([]) == 0xFFFF
  {
  }

  /** The inner loop, in the words of the source. */
  lemma ShiftTurn(crc: word, n: nat)
    ensures Shifts(crc, 0) == crc
    ensures n > 0 ==>
      Shifts(crc, n) == Shifts(if crc & 0x8000 != 0 then (crc << 1) ^ 0x1021 else crc << 1, n - 1)
  {
  }

  lemma FoldIn(crc: word, b: byte)
    ensures crc ^ ((b as word) << 8) == Delta16(crc, High(b))
  {
  }

  /** `mesh_crc16`. */
  method MeshCrc16(data: array<byte>, len: nat) returns (crc: word)
    requires len <= data.Length
    ensures crc == Crc(data[..len])
  {
    hide Register16, MsbBitsOf, Shifts, Delta16, High;
    crc := 0xFFFF;
    EmptyCrc16();
    for i := 0 to len
      invariant crc == Crc(data[..i])
    {
      FoldIn(crc, data[i]);
      crc := crc ^ ((data[i] as word) << 8);
      ghost var whole := Shifts(crc, 8);
      for b := 0 to 8
        invariant Shifts(crc, 8 - b) == whole
      {
        ShiftTurn(crc, 8 - b);
        crc := if crc & 0x8000 != 0 then (crc << 1) ^ 0x1021 else crc << 1;
      }
      ShiftTurn(crc, 0);
      CrcExtends(data[..i], data[i]);
      assert data[..i + 1] == data[..i] + [data[i]];
    }
  }

  // ── mesh_msg_t and its check ───────────────────────────────────────────────

  /** Bytes of `mesh_msg_t` before `crc16`, and with it. */
  const COVERED: nat := 213
  const MSG_SIZE: nat := 215

  /** The trailing field as a little-endian machine reads it. */
  function LittleEndian(low: byte, high: byte): word {
    ((high as word) << 8) | (low as word)
  }

  predicate MsgValid(msg: seq<byte>) {
    |msg| == MSG_SIZE && Crc(msg[..COVERED]) == LittleEndian(msg[COVERED], msg[COVERED + 1])
  }

  /** `mesh_msg_valid` on the bytes of the packed struct. */
  method MeshMsgValid(msg: array<byte>) returns (ok: bool)
    requires msg.Length == MSG_SIZE
    ensures ok == MsgValid(msg[..])
  {
    hide Crc, LittleEndian;
    var expected := MeshCrc16(msg, MSG_SIZE - 2);
    assert msg[..][..COVERED] == msg[..COVERED];
    ok := expected == LittleEndian(msg[MSG_SIZE - 2], msg[MSG_SIZE - 1]);
  }
}
