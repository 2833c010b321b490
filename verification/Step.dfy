/** The STEP node: the motorised step of the camper as a state machine over mesh messages,
    end stops and the motor watchdog. */
module Step {
  import opened Clock
  import opened Crc8
  import opened Hex
  import opened Wire
  import opened Motor
  import opened Mesh

  const MOTOR_TIMEOUT_MS: uint32 := 10000
  const FC_DEBOUNCE_MS: uint32 := 50

  const ACTION_OPEN: byte := 0x01
  const ACTION_CLOSE: byte := 0x02
  const ACTION_GET_STATUS: byte := 0x0F

  datatype StepState = Initializing | Closed | Open | Opening | Closing | AutoClosing | Error | Standalone

  /** States in which the motor is meant to turn. */
  predicate Moving(s: StepState) {
    s == Opening || s == Closing || s == AutoClosing
  }

  function StateByte(s: StepState): byte {
    match s
    case Initializing => 0 case Closed => 1 case Open => 2 case Opening => 3
    case Closing => 4 case AutoClosing => 5 case Error => 6 case Standalone => 7
  }

  /** What a status report reads from outside: the end stops and the bytes of the climate
      sensor. */
  datatype Readings = Readings(fcClosed: bool, fcOpen: bool, climate: seq<byte>)

  datatype Ctl = Ctl(
    state: StepState,
    motor: MotorState,
    mesh: MeshState,
    fcClosedPrev: bool,
    fcOpenPrev: bool,
    lastFcMs: uint32)

  // ── Reporting and transitions ──────────────────────────────────────────────

  /** `StepStatus`: the duration is cut to its low sixteen bits, little-endian. */
  function StatusPayload(state: StepState, lastMoveMs: uint32, r: Readings): seq<byte> {
    [StateByte(state), if r.fcClosed then 1 else 0, if r.fcOpen then 1 else 0,
     if state == Error then 1 else 0,
     (lastMoveMs % 256) as byte, (lastMoveMs / 256 % 256) as byte, 0] + r.climate
  }

  function SendStatus(c: Ctl, r: Readings): Ctl {
    c.(mesh := SendToRoot(c.mesh, MSG_HEARTBEAT, StatusPayload(c.state, c.motor.lastMoveMs, r)))
  }

  /** Payload of MSG_STEP_OPEN: reason, key flag, padding. */
  function OpenPayload(keyOn: bool): seq<byte> {
    [0, if keyOn then 1 else 0, 0]
  }

  function EnterState(c: Ctl, next: StepState, r: Readings): Ctl {
    var c1 := c.(state := next);
    var c2 := if next == Open then c1.(mesh := SendBroadcast(c1.mesh, MSG_STEP_OPEN, OpenPayload(c1.mesh.keyOn)))
              else c1;
    SendStatus(c2, r)
  }

  // ── The node's message handler ─────────────────────────────────────────────

  /** `on_message` on the receive buffer. The action code is the byte after the header,
      whatever the payload length says. */
  function OnMessage(c: Ctl, frame: seq<byte>, descriptor: seq<byte>, stopMs: uint32, startMs: uint32, r: Readings): Ctl
    requires |frame| >= 5
  {
    if frame[0] == MSG_REGISTER_ACK then
      EnterState(c.(mesh := SendToRoot(c.mesh, MSG_DESCRIPTOR, descriptor)), c.state, r)
    else if frame[0] == MSG_KEY_ON then
      if c.state == Open || c.state == Opening then
        EnterState(c.(motor := Started(Stopped(c.motor, stopMs), DirClose, startMs)), AutoClosing, r)
      else c
    else if frame[0] == MSG_COMMAND then
      if c.mesh.keyOn && frame[4] != ACTION_GET_STATUS then c
      else if frame[4] == ACTION_OPEN && c.state == Closed then
        EnterState(c.(motor := Started(c.motor, DirOpen, startMs)), Opening, r)
      else if frame[4] == ACTION_CLOSE && c.state == Open then
        EnterState(c.(motor := Started(c.motor, DirClose, startMs)), Closing, r)
      else if frame[4] == ACTION_GET_STATUS then SendStatus(c, r)
      else c
    else c
  }

  /** A text arrives: `DomocMesh::on_receive`, then the handler if a frame comes out. */
  function Deliver(c: Ctl, from: nat, raw: string, descriptor: seq<byte>,
                   now: uint32, stopMs: uint32, startMs: uint32, r: Readings): Ctl {
    var c1 := c.(mesh := Received(c.mesh, from, raw, now));
    match Accept(c.mesh.who.address, raw)
    case None => c1
    case Some(frame) => OnMessage(c1, frame, descriptor, stopMs, startMs, r)
  }

  function Reconnected(c: Ctl, now: uint32): Ctl {
    c.(mesh := ConnectionsChanged(c.mesh, now))
  }

  // ── The periodic parts of loop() ───────────────────────────────────────────

  /** Rest of `DomocMesh::update` after the messages; `beat` is what a heartbeat reads, `r`
      what the report of a change to or from standalone reads. */
  function MeshCheck(c: Ctl, meshEmpty: bool, now: uint32, jitter: uint32, beat: Readings, r: Readings): Ctl
    requires jitter < HEARTBEAT_JITTER_MS
  {
    var c1 := if HeartbeatDue(c.mesh, now) then SendStatus(c.(mesh := HeartbeatNoted(c.mesh, now, jitter)), beat) else c;
    if GoesStandalone(c1.mesh, meshEmpty, now) then EnterState(c1.(mesh := Alone(c1.mesh)), Standalone, r)
    else if ComesBack(c1.mesh, meshEmpty) then EnterState(c1.(mesh := Back(c1.mesh)), c1.state, r)
    else c1
  }

  predicate Edge(level: bool, before: bool, now: uint32, last: uint32) {
    level && !before && Elapsed(now, last) > FC_DEBOUNCE_MS
  }

  function ClosedStop(c: Ctl, fcClosed: bool, now: uint32, stopMs: uint32, r: Readings): Ctl {
    if Edge(fcClosed, c.fcClosedPrev, now, c.lastFcMs) then
      var c1 := c.(lastFcMs := now);
      if c.state == Closing || c.state == AutoClosing then
        EnterState(c1.(motor := Stopped(c1.motor, stopMs)), Closed, r)
      else c1
    else c
  }

  function OpenStop(c: Ctl, fcOpen: bool, now: uint32, stopMs: uint32, r: Readings): Ctl {
    if Edge(fcOpen, c.fcOpenPrev, now, c.lastFcMs) then
      var c1 := c.(lastFcMs := now);
      if c.state == Opening then EnterState(c1.(motor := Stopped(c1.motor, stopMs)), Open, r) else c1
    else c
  }

  function CheckEndstops(c: Ctl, fcClosed: bool, fcOpen: bool, now: uint32, stopMs: uint32, r: Readings): Ctl {
    OpenStop(ClosedStop(c, fcClosed, now, stopMs, r), fcOpen, now, stopMs, r)
      .(fcClosedPrev := fcClosed, fcOpenPrev := fcOpen)
  }

  predicate Overdue(c: Ctl, now: uint32) {
    c.motor.running && Elapsed(now, c.motor.startMs) > MOTOR_TIMEOUT_MS
  }

  function CheckMotorTimeout(c: Ctl, now: uint32, stopMs: uint32, r: Readings): Ctl {
    if Overdue(c, now) then EnterState(c.(motor := Stopped(c.motor, stopMs)), Error, r) else c
  }

  /** State after `setup`: motor off, state by the closed end stop, registration under way. */
  function SetUp(who: Identity, pins: Bridge, fcClosed: bool, stopMs: uint32, now: uint32, jitter: uint32): Ctl
    requires jitter < HEARTBEAT_JITTER_MS
  {
    Ctl(if fcClosed then Closed else Open,
        Stopped(MotorState(pins, false, 0, 0, []), stopMs),
        Begun(MeshState(who, 0, false, false, false, 0, 0, HEARTBEAT_MS, 0, []), now, jitter),
        false, false, 0)
  }

  // ── step.cpp ───────────────────────────────────────────────────────────────

  class StepNode {
    const mesh: DomocMesh
    const motor: DomocMotor
    const descriptor: seq<byte>
    var state: StepState
    var fcClosedPrev: bool
    var fcOpenPrev: bool
    var lastFcMs: uint32

    ghost function Now(): Ctl
      reads this, mesh, motor
    {
      Ctl(state, motor.State(), mesh.State(), fcClosedPrev, fcOpenPrev, lastFcMs)
    }

    ghost predicate Valid()
      reads this, motor
    {
      motor.Valid()
    }

    /** The global objects and `setup`. */
    constructor (who: Identity, descriptor: seq<byte>, pins: Bridge, fcClosed: bool, stopMs: uint32, now: uint32,
                 jitter: uint32)
      requires jitter < HEARTBEAT_JITTER_MS
      ensures Valid() && fresh(mesh) && fresh(motor) && this.descriptor == descriptor
      ensures mesh.who == who && Now() == SetUp(who, pins, fcClosed, stopMs, now, jitter)
    {
      var m := new DomocMotor(pins.a, pins.b, pins.en);
      m.Begin(stopMs);
      var n := new DomocMesh(who);
      n.Begin(now, jitter);
      mesh, motor := n, m;
      this.descriptor := descriptor;
      state := if fcClosed then Closed else Open;
      fcClosedPrev, fcOpenPrev, lastFcMs := false, false, 0;
    }

    method SendStatusReport(r: Readings)
      requires Valid()
      modifies mesh
      ensures Valid() && Now() == SendStatus(old(Now()), r)
    {
      mesh.Send(mesh.rootMeshId, ID_MASTER, MSG_HEARTBEAT, StatusPayload(state, motor.lastMoveMs, r), false);
    }

    method Enter(next: StepState, r: Readings)
      requires Valid()
      modifies this, mesh
      ensures Valid() && Now() == EnterState(old(Now()), next, r)
    {
      hide StatusPayload, NextSeq, Text;
      state := next;
      if next == Open {
        mesh.Send(0, ID_BROADCAST, MSG_STEP_OPEN, OpenPayload(mesh.keyOn), true);
      }
      SendStatusReport(r);
    }

    method HandleMessage(frame: seq<byte>, stopMs: uint32, startMs: uint32, r: Readings)
      requires Valid() && |frame| >= 5
      modifies this, mesh, motor
      ensures Valid() && Now() == OnMessage(old(Now()), frame, descriptor, stopMs, startMs, r)
    {
      hide EnterState, SendFrame, Started, Stopped;
      if frame[0] == MSG_REGISTER_ACK {
        mesh.Send(mesh.rootMeshId, ID_MASTER, MSG_DESCRIPTOR, descriptor, false);
        Enter(state, r);
      } else if frame[0] == MSG_KEY_ON {
        if state == Open || state == Opening {
          motor.StopMotor(stopMs);
          motor.StartMotor(DirClose, startMs);
          Enter(AutoClosing, r);
        }
      } else if frame[0] == MSG_COMMAND {
        if mesh.keyOn && frame[4] != ACTION_GET_STATUS {
          return;
        }
        if frame[4] == ACTION_OPEN && state == Closed {
          motor.StartMotor(DirOpen, startMs);
          Enter(Opening, r);
        } else if frame[4] == ACTION_CLOSE && state == Open {
          motor.StartMotor(DirClose, startMs);
          Enter(Closing, r);
        } else if frame[4] == ACTION_GET_STATUS {
          SendStatusReport(r);
        }
      }
    }

    method Receive(from: nat, raw: string, now: uint32, stopMs: uint32, startMs: uint32, r: Readings)
      requires Valid() && |raw| <= 2 * (HEADER + PAYLOAD_MAX + 2)
      modifies this, mesh, motor
      ensures Valid() && Now() == Deliver(old(Now()), from, raw, descriptor, now, stopMs, startMs, r)
    {
      hide OnMessage, Received, Accept;
      var delivered := mesh.OnReceive(from, raw, now);
      if delivered.Some? {
        HandleMessage(delivered.value, stopMs, startMs, r);
      }
    }

    method ConnectionsChange(now: uint32)
      requires Valid()
      modifies mesh
      ensures Valid() && Now() == Reconnected(old(Now()), now)
    {
      mesh.OnChangedConnections(now);
    }

    method UpdateTail(meshEmpty: bool, now: uint32, jitter: uint32, beat: Readings, r: Readings)
      requires Valid() && jitter < HEARTBEAT_JITTER_MS
      modifies this, mesh
      ensures Valid() && Now() == MeshCheck(old(Now()), meshEmpty, now, jitter, beat, r)
    {
      hide EnterState, SendStatus, SendFrame;
      var due := mesh.HeartbeatTest(now, jitter);
      if due {
        SendStatusReport(beat);
      }
      var call := mesh.StandaloneTest(meshEmpty, now);
      match call {
        case NoCallback =>
        case StandaloneEntered => Enter(Standalone, r);
        case StandaloneLeft => Enter(state, r);
      }
    }

    method PollEndstops(fcClosed: bool, fcOpen: bool, now: uint32, stopMs: uint32, r: Readings)
      requires Valid()
      modifies this, mesh, motor
      ensures Valid() && Now() == CheckEndstops(old(Now()), fcClosed, fcOpen, now, stopMs, r)
    {
      hide EnterState, Stopped;
      if fcClosed && !fcClosedPrev && Elapsed(now, lastFcMs) > FC_DEBOUNCE_MS {
        lastFcMs := now;
        if state == Closing || state == AutoClosing {
          motor.StopMotor(stopMs);
          Enter(Closed, r);
        }
      }
      assert Now() == ClosedStop(old(Now()), fcClosed, now, stopMs, r);
      if fcOpen && !fcOpenPrev && Elapsed(now, lastFcMs) > FC_DEBOUNCE_MS {
        lastFcMs := now;
        if state == Opening {
          motor.StopMotor(stopMs);
          Enter(Open, r);
        }
      }
      fcClosedPrev := fcClosed;
      fcOpenPrev := fcOpen;
    }

    method Watch(now: uint32, stopMs: uint32, r: Readings)
      requires Valid()
      modifies this, mesh, motor
      ensures Valid() && Now() == CheckMotorTimeout(old(Now()), now, stopMs, r)
    {
      hide EnterState, Stopped;
      if !motor.running {
        return;
      }
      if Elapsed(now, motor.startMs) > MOTOR_TIMEOUT_MS {
        motor.StopMotor(stopMs);
        Enter(Error, r);
      }
    }
  }
}
