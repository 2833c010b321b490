/** `DomocMotor`: the relay H-bridge driven by an ordered sequence of pin writes. */
module Motor {
  import opened Clock

  datatype Dir = DirOpen | DirClose

  // ── Pins ───────────────────────────────────────────────────────────────────

  datatype Pin = PinA | PinB | PinEnable

  datatype Write = Write(pin: Pin, high: bool)

  /** Levels of DIR_A, DIR_B and ENABLE. */
  datatype Bridge = Bridge(a: bool, b: bool, en: bool)
  {
    /** 12 V across the motor in direction `d`. */
    predicate Drives(d: Dir) {
      en && a == d.DirOpen? && b == d.DirClose?
    }
  }

  function Level(p: Bridge, w: Write): Bridge {
    match w.pin
    case PinA => p.(a := w.high)
    case PinB => p.(b := w.high)
    case PinEnable => p.(en := w.high)
  }

  function Levels(p: Bridge, ws: seq<Write>): Bridge {
    if ws == [] then p else Level(Levels(p, ws[..|ws| - 1]), ws[|ws| - 1])
  }

  /** What `start` and `stop` write, in order. */
  function StartWrites(d: Dir): seq<Write> {
    [Write(PinEnable, false), Write(PinA, d.DirOpen?), Write(PinB, d.DirClose?), Write(PinEnable, true)]
  }

  const STOP_WRITES: seq<Write> := [Write(PinEnable, false), Write(PinA, false), Write(PinB, false)]

  // ── State ──────────────────────────────────────────────────────────────────

  datatype Op = Start(dir: Dir) | Stop

  function OpWrites(op: Op): seq<Write> {
    match op
    case Start(d) => StartWrites(d)
    case Stop => STOP_WRITES
  }

  /** The driver's fields, the pin levels, and the calls made so far. */
  datatype MotorState = MotorState(pins: Bridge, running: bool, startMs: uint32, lastMoveMs: uint32, ops: seq<Op>)

  /** The effect of a call as its callers need it: the pins where the writes leave them. */
  function Started(m: MotorState, d: Dir, now: uint32): MotorState {
    MotorState(Bridge(d.DirOpen?, d.DirClose?, true), true, now, m.lastMoveMs, m.ops + [Start(d)])
  }

  function Stopped(m: MotorState, now: uint32): MotorState {
    MotorState(Bridge(false, false, false), false, m.startMs, Elapsed(now, m.startMs), m.ops + [Stop])
  }

  /** After a call the pins are what the call asked for, whatever they were before. */
  lemma PinsAfter(p: Bridge, d: Dir)
    ensures Levels(p, StartWrites(d)) == Bridge(d.DirOpen?, d.DirClose?, true)
    ensures Levels(p, STOP_WRITES) == Bridge(false, false, false)
  {
  }

  class DomocMotor {
    var pinA: bool
    var pinB: bool
    var pinEn: bool
    var running: bool
    var startMs: uint32
    var lastMoveMs: uint32
    ghost var ops: seq<Op>
    /** Every write since construction, and the levels the pins had then. */
    ghost var writes: seq<Write>
    ghost const atReset: Bridge

    ghost function State(): MotorState
      reads this
    {
      MotorState(Bridge(pinA, pinB, pinEn), running, startMs, lastMoveMs, ops)
    }

    ghost predicate Valid()
      reads this
    {
      && Bridge(pinA, pinB, pinEn) == Levels(atReset, writes)
      && writes == WritesOf(ops)
    }

    /** The pins come up at whatever levels the board leaves them. */
    constructor (a: bool, b: bool, en: bool)
      ensures Valid() && atReset == Bridge(a, b, en)
      ensures State() == MotorState(Bridge(a, b, en), false, 0, 0, [])
    {
      pinA, pinB, pinEn := a, b, en;
      running, startMs, lastMoveMs := false, 0, 0;
      ops, writes, atReset := [], [], Bridge(a, b, en);
    }

    method DigitalWrite(pin: Pin, high: bool)
      modifies this`pinA, this`pinB, this`pinEn, this`writes
      ensures Bridge(pinA, pinB, pinEn) == Level(old(Bridge(pinA, pinB, pinEn)), Write(pin, high))
      ensures writes == old(writes) + [Write(pin, high)]
    {
      match pin {
        case PinA => pinA := high;
        case PinB => pinB := high;
        case PinEnable => pinEn := high;
      }
      writes := writes + [Write(pin, high)];
    }

    /** `begin`: the pins become outputs and the bridge is switched off. */
    method Begin(now: uint32)
      requires Valid()
      modifies this
      ensures Valid() && State() == Stopped(old(State()), now)
    {
      StopMotor(now);
    }

    method StartMotor(dir: Dir, now: uint32)
      requires Valid()
      modifies this
      ensures Valid() && State() == Started(old(State()), dir, now)
    {
      hide Levels, WritesOf;
      PinsAfter(State().pins, dir);
      TraceExtends(atReset, ops, Start(dir));
      ghost var before := writes;
      DigitalWrite(PinEnable, false);
      if dir == DirOpen {
        DigitalWrite(PinA, true);
        DigitalWrite(PinB, false);
      } else {
        DigitalWrite(PinA, false);
        DigitalWrite(PinB, true);
      }
      DigitalWrite(PinEnable, true);
      running := true;
      startMs := now;
      ops := ops + [Start(dir)];
      assert writes == before + StartWrites(dir);
    }

    method StopMotor(now: uint32)
      requires Valid()
      modifies this
      ensures Valid() && State() == Stopped(old(State()), now)
    {
      hide Levels, WritesOf;
      PinsAfter(State().pins, DirOpen);
      TraceExtends(atReset, ops, Stop);
      ghost var before := writes;
      DigitalWrite(PinEnable, false);
      DigitalWrite(PinA, false);
      DigitalWrite(PinB, false);
      running := false;
      lastMoveMs := Elapsed(now, startMs);
      ops := ops + [Stop];
      assert writes == before + STOP_WRITES;
    }
  }

  // ── Interlock over whole traces ────────────────────────────────────────────

  /** All writes of a sequence of calls. */
  function WritesOf(ops: seq<Op>): seq<Write> {
    if ops == [] then [] else WritesOf(ops[..|ops| - 1]) + OpWrites(ops[|ops| - 1])
  }

  lemma {:induction false} LevelsConcat(p: Bridge, x: seq<Write>, y: seq<Write>)
    ensures Levels(p, x + y) == Levels(Levels(p, x), y)
  {
    if y == [] {
      assert x + y == x;
    } else {
      var n := |y| - 1;
      LevelsConcat(p, x, y[..n]);
      assert (x + y)[..|x| + n] == x + y[..n];
    }
  }

  lemma TraceExtends(p: Bridge, ops: seq<Op>, op: Op)
    ensures WritesOf(ops + [op]) == WritesOf(ops) + OpWrites(op)
    ensures Levels(p, WritesOf(ops + [op])) == Levels(Levels(p, WritesOf(ops)), OpWrites(op))
  {
    assert (ops + [op])[..|ops|] == ops;
    LevelsConcat(p, WritesOf(ops), OpWrites(op));
  }

  /** The relay rule at one write: a direction pin is written only while ENABLE is low, and
      with ENABLE high exactly one direction pin is high. */
  predicate Interlocked(before: Bridge, w: Write) {
    && (w.pin != PinEnable ==> !before.en)
    && (Level(before, w).en ==> Level(before, w).a != Level(before, w).b)
  }

  lemma OpInterlocked(p: Bridge, op: Op, k: nat)
    requires k < |OpWrites(op)|
    ensures Interlocked(Levels(p, OpWrites(op)[..k]), OpWrites(op)[k])
  {
  }

  /** Every write of every sequence of calls obeys the rule, from any levels at reset on. */
  lemma {:induction false} InterlockOverEveryTrace(p: Bridge, ops: seq<Op>, k: nat)
    requires k < |WritesOf(ops)|
    ensures Interlocked(Levels(p, WritesOf(ops)[..k]), WritesOf(ops)[k])
  {
    hide Interlocked;
    var n := |ops| - 1;
    var x, y := WritesOf(ops[..n]), OpWrites(ops[n]);
    assert WritesOf(ops) == x + y;
    if k < |x| {
      InterlockOverEveryTrace(p, ops[..n], k);
      assert (x + y)[..k] == x[..k];
    } else {
      var j := k - |x|;
      assert (x + y)[..k] == x + y[..j];
      LevelsConcat(p, x, y[..j]);
      OpInterlocked(Levels(p, x), ops[n], j);
    }
  }

  /** Between calls the bridge drives the motor exactly when the last call was a start, and
      in that direction. */
  lemma {:induction false} DrivesLastStart(p: Bridge, ops: seq<Op>, d: Dir)
    requires ops != []
    ensures Levels(p, WritesOf(ops)).Drives(d) <==> ops[|ops| - 1] == Start(d)
    ensures ops[|ops| - 1] == Stop ==> Levels(p, WritesOf(ops)) == Bridge(false, false, false)
  {
    var n := |ops| - 1;
    LevelsConcat(p, WritesOf(ops[..n]), OpWrites(ops[n]));
    PinsAfter(Levels(p, WritesOf(ops[..n])), DirOpen);
    PinsAfter(Levels(p, WritesOf(ops[..n])), DirClose);
  }
}
