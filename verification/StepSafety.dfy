/** What every handler of the STEP node keeps, whatever the timing: the key interlock, the
    broadcasts, and the motor calls. */
module StepSafety {
  import opened Clock
  import opened Crc8
  import opened Hex
  import opened Wire
  import opened Motor
  import opened Mesh
  import opened Step

  // ── Broadcasts ─────────────────────────────────────────────────────────────

  /** A text that decodes to a MSG_STEP_OPEN frame carries key flag 0. */
  predicate OpenFlagClear(text: string) {
    |text| % 2 == 0 &&
    var f := Decode(text);
    |f| >= 1 && f[0] == MSG_STEP_OPEN ==> |f| > 5 && f[5] == 0
  }

  ghost predicate FlagsClear(log: seq<Sent>) {
    forall i :: 0 <= i < |log| ==> OpenFlagClear(log[i].text)
  }

  ghost predicate SameButLog(m: MeshState, n: MeshState) {
    n == m.(seqNum := n.seqNum, log := n.log)
  }

  lemma TextFlag(msgType: byte, src: byte, dst: byte, number: byte, payload: seq<byte>)
    requires msgType == MSG_STEP_OPEN ==> 2 <= |payload| <= PAYLOAD_MAX && payload[1] == 0
    ensures OpenFlagClear(Text(msgType, src, dst, number, payload))
  {
    hide Crc;
    RoundTrip(Frame(msgType, src, dst, number, Clip(payload)));
  }

  lemma {:induction false} SendKeeps(m: MeshState, to: nat, dst: byte, msgType: byte, payload: seq<byte>, broadcast: bool)
    requires FlagsClear(m.log)
    requires msgType == MSG_STEP_OPEN ==> 2 <= |payload| <= PAYLOAD_MAX && payload[1] == 0
    ensures var n := SendFrame(m, to, dst, msgType, payload, broadcast);
            SameButLog(m, n) && FlagsClear(n.log)
  {
    hide OpenFlagClear, Text, NextSeq;
    TextFlag(msgType, m.who.address.id, dst, m.seqNum, payload);
  }

  lemma SendShape(m: MeshState, to: nat, dst: byte, msgType: byte, payload: seq<byte>, broadcast: bool)
    ensures SameButLog(m, SendFrame(m, to, dst, msgType, payload, broadcast))
  {
    hide Text, NextSeq;
  }

  /** Whatever it reports, a transition sets the state and sends. */
  lemma EnterShape(c: Ctl, next: StepState, r: Readings)
    ensures var d := EnterState(c, next, r);
            d == c.(state := next, mesh := d.mesh) && SameButLog(c.mesh, d.mesh)
    ensures var d := SendStatus(c, r);
            d == c.(mesh := d.mesh) && SameButLog(c.mesh, d.mesh)
  {
  }

  // ── The untimed invariant ──────────────────────────────────────────────────

  /** The bridge as the state machine believes it to be. */
  function Expected(s: StepState): Bridge {
    Bridge(s == Opening, s == Closing || s == AutoClosing, Moving(s))
  }

  /** The calls made to the driver: off first, and a stop before every start. */
  ghost predicate StopsBetween(ops: seq<Op>) {
    && ops != [] && ops[0] == Stop
    && forall i :: 0 < i < |ops| && ops[i].Start? ==> ops[i - 1] == Stop
  }

  /** Where a call leaves the bridge. */
  function PinsFor(op: Op): Bridge {
    match op
    case Start(d) => Bridge(d.DirOpen?, d.DirClose?, true)
    case Stop => Bridge(false, false, false)
  }

  /** The motor does what it was last told, and what the state says, but for STANDALONE. */
  ghost predicate InStep(c: Ctl) {
    && c.state != Initializing
    && StopsBetween(c.motor.ops)
    && (var last := c.motor.ops[|c.motor.ops| - 1];
        c.motor.running == last.Start? && c.motor.pins == PinsFor(last))
    && (c.state != Standalone ==> c.motor.running == Moving(c.state) && c.motor.pins == Expected(c.state))
  }

  /** The ignition key rules out an open or opening step. */
  ghost predicate KeyRespected(c: Ctl) {
    && c.mesh.who.address == Address(ID_STEP, false)
    && (c.mesh.keyOn ==> c.state != Open && c.state != Opening)
    && FlagsClear(c.mesh.log)
  }

  ghost predicate Sound(c: Ctl) {
    InStep(c) && KeyRespected(c)
  }

  // ── Each handler ───────────────────────────────────────────────────────────

  lemma StatusKeeps(c: Ctl, r: Readings)
    requires FlagsClear(c.mesh.log)
    ensures var d := SendStatus(c, r);
            d == c.(mesh := d.mesh) && SameButLog(c.mesh, d.mesh) && FlagsClear(d.mesh.log)
  {
    hide SendFrame, StatusPayload, FlagsClear;
    SendKeeps(c.mesh, c.mesh.rootMeshId, ID_MASTER, MSG_HEARTBEAT, StatusPayload(c.state, c.motor.lastMoveMs, r), false);
  }

  lemma EnterKeeps(c: Ctl, next: StepState, r: Readings)
    requires FlagsClear(c.mesh.log) && (next == Open ==> !c.mesh.keyOn)
    ensures var d := EnterState(c, next, r);
            d == c.(state := next, mesh := d.mesh) && SameButLog(c.mesh, d.mesh) && FlagsClear(d.mesh.log)
  {
    hide SendFrame, SendStatus, FlagsClear;
    var c1 := c.(state := next);
    if next == Open {
      SendKeeps(c1.mesh, 0, ID_BROADCAST, MSG_STEP_OPEN, OpenPayload(c1.mesh.keyOn), true);
      StatusKeeps(c1.(mesh := SendBroadcast(c1.mesh, MSG_STEP_OPEN, OpenPayload(c1.mesh.keyOn))), r);
    } else {
      StatusKeeps(c1, r);
    }
  }

  lemma StartKeeps(m: MotorState, d: Dir, now: uint32)
    requires StopsBetween(m.ops) && m.ops[|m.ops| - 1] == Stop
    ensures StopsBetween(Started(m, d, now).ops)
  {
  }

  lemma StopKeeps(m: MotorState, now: uint32)
    requires StopsBetween(m.ops)
    ensures StopsBetween(Stopped(m, now).ops)
  {
  }

  lemma CommandKeeps(c: Ctl, frame: seq<byte>, descriptor: seq<byte>, stopMs: uint32, startMs: uint32, r: Readings)
    requires |frame| >= 5 && Sound(c) && frame[0] == MSG_COMMAND
    ensures Sound(OnMessage(c, frame, descriptor, stopMs, startMs, r))
    ensures SameButLog(c.mesh, OnMessage(c, frame, descriptor, stopMs, startMs, r).mesh)
  {
    hide SendFrame, EnterState, SendStatus, FlagsClear, StopsBetween;
    StatusKeeps(c, r);
    if c.state == Closed && !c.mesh.keyOn {
      StartKeeps(c.motor, DirOpen, startMs);
      EnterKeeps(c.(motor := Started(c.motor, DirOpen, startMs)), Opening, r);
    } else if c.state == Open && !c.mesh.keyOn {
      StartKeeps(c.motor, DirClose, startMs);
      EnterKeeps(c.(motor := Started(c.motor, DirClose, startMs)), Closing, r);
    }
  }

  /** The handler, on a state whose key flag already tells of this message. */
  lemma HandlerKeeps(c: Ctl, frame: seq<byte>, descriptor: seq<byte>, stopMs: uint32, startMs: uint32, r: Readings)
    requires |frame| >= 5 && InStep(c) && FlagsClear(c.mesh.log)
    requires c.mesh.keyOn ==> frame[0] == MSG_KEY_ON || (c.state != Open && c.state != Opening)
    requires c.mesh.who.address == Address(ID_STEP, false)
    ensures Sound(OnMessage(c, frame, descriptor, stopMs, startMs, r))
    ensures SameButLog(c.mesh, OnMessage(c, frame, descriptor, stopMs, startMs, r).mesh)
  {
    hide SendFrame, EnterState, SendStatus, FlagsClear, StopsBetween;
    if frame[0] == MSG_REGISTER_ACK {
      SendKeeps(c.mesh, c.mesh.rootMeshId, ID_MASTER, MSG_DESCRIPTOR, descriptor, false);
      EnterKeeps(c.(mesh := SendToRoot(c.mesh, MSG_DESCRIPTOR, descriptor)), c.state, r);
    } else if frame[0] == MSG_KEY_ON {
      if c.state == Open || c.state == Opening {
        StopKeeps(c.motor, stopMs);
        StartKeeps(Stopped(c.motor, stopMs), DirClose, startMs);
        EnterKeeps(c.(motor := Started(Stopped(c.motor, stopMs), DirClose, startMs)), AutoClosing, r);
      }
    } else if frame[0] == MSG_COMMAND {
      CommandKeeps(c, frame, descriptor, stopMs, startMs, r);
    }
  }

  lemma SameMotor(c: Ctl, d: Ctl)
    requires InStep(c) && d.state == c.state && d.motor == c.motor
    ensures InStep(d)
  {
  }

  /** Receiving any text whatever keeps the invariant. */
  lemma DeliverKeeps(c: Ctl, from: nat, raw: string, descriptor: seq<byte>,
                     now: uint32, stopMs: uint32, startMs: uint32, r: Readings)
    requires Sound(c)
    ensures Sound(Deliver(c, from, raw, descriptor, now, stopMs, startMs, r))
  {
    hide Accept, OnMessage, FlagsClear, InStep;
    var c1 := c.(mesh := Received(c.mesh, from, raw, now));
    SameMotor(c, c1);
    match Accept(c.mesh.who.address, raw)
    case None =>
    case Some(frame) => HandlerKeeps(c1, frame, descriptor, stopMs, startMs, r);
  }

  lemma ConnectionKeeps(c: Ctl, now: uint32)
    requires Sound(c)
    ensures Sound(Reconnected(c, now))
    ensures var d := Reconnected(c, now);
            d == c.(mesh := d.mesh) && d.mesh.lastActivity == now && d.mesh.keyOn == c.mesh.keyOn
  {
    hide SendFrame, FlagsClear, InStep;
    var m := c.mesh.(lastActivity := now);
    SendKeeps(m, 0, ID_BROADCAST, MSG_REGISTER, RegisterPayload(m.who, false), true);
    SameMotor(c, Reconnected(c, now));
  }

  /** The mesh check keeps the invariant, and leaves motor, key flag and activity alone. */
  lemma MeshCheckKeeps(c: Ctl, meshEmpty: bool, now: uint32, jitter: uint32, beat: Readings, r: Readings)
    requires Sound(c) && jitter < HEARTBEAT_JITTER_MS
    ensures Sound(MeshCheck(c, meshEmpty, now, jitter, beat, r))
    ensures MeshCheck(c, meshEmpty, now, jitter, beat, r).motor == c.motor
    ensures MeshCheck(c, meshEmpty, now, jitter, beat, r).state
         == if GoesStandalone(c.mesh, meshEmpty, now) then Standalone else c.state
    ensures var n := MeshCheck(c, meshEmpty, now, jitter, beat, r).mesh;
            n.keyOn == c.mesh.keyOn && n.lastActivity == c.mesh.lastActivity
  {
    hide SendFrame, SendStatus, EnterState, FlagsClear, StopsBetween;
    var b := c.(mesh := HeartbeatNoted(c.mesh, now, jitter));
    StatusKeeps(b, beat);
    var c1 := if HeartbeatDue(c.mesh, now) then SendStatus(b, beat) else c;
    if GoesStandalone(c1.mesh, meshEmpty, now) {
      EnterKeeps(c1.(mesh := Alone(c1.mesh)), Standalone, r);
    } else if ComesBack(c1.mesh, meshEmpty) {
      var m := c1.mesh.(standalone := false);
      SendKeeps(m, 0, ID_BROADCAST, MSG_REGISTER, RegisterPayload(m.who, true), true);
      EnterKeeps(c1.(mesh := Back(c1.mesh)), c1.state, r);
    }
  }

  lemma ClosedStopKeeps(c: Ctl, fcClosed: bool, now: uint32, stopMs: uint32, r: Readings)
    requires Sound(c)
    ensures Sound(ClosedStop(c, fcClosed, now, stopMs, r))
    ensures SameButLog(c.mesh, ClosedStop(c, fcClosed, now, stopMs, r).mesh)
  {
    hide SendFrame, EnterState, FlagsClear, StopsBetween, Edge;
    if c.state == Closing || c.state == AutoClosing {
      StopKeeps(c.motor, stopMs);
      EnterKeeps(c.(lastFcMs := now, motor := Stopped(c.motor, stopMs)), Closed, r);
    }
  }

  lemma OpenStopKeeps(c: Ctl, fcOpen: bool, now: uint32, stopMs: uint32, r: Readings)
    requires Sound(c)
    ensures Sound(OpenStop(c, fcOpen, now, stopMs, r))
    ensures SameButLog(c.mesh, OpenStop(c, fcOpen, now, stopMs, r).mesh)
  {
    hide SendFrame, EnterState, FlagsClear, StopsBetween, Edge;
    if c.state == Opening {
      StopKeeps(c.motor, stopMs);
      EnterKeeps(c.(lastFcMs := now, motor := Stopped(c.motor, stopMs)), Open, r);
    }
  }

  lemma EndstopsKeep(c: Ctl, fcClosed: bool, fcOpen: bool, now: uint32, stopMs: uint32, r: Readings)
    requires Sound(c)
    ensures Sound(CheckEndstops(c, fcClosed, fcOpen, now, stopMs, r))
    ensures SameButLog(c.mesh, CheckEndstops(c, fcClosed, fcOpen, now, stopMs, r).mesh)
  {
    hide ClosedStop, OpenStop, FlagsClear, StopsBetween;
    ClosedStopKeeps(c, fcClosed, now, stopMs, r);
    OpenStopKeeps(ClosedStop(c, fcClosed, now, stopMs, r), fcOpen, now, stopMs, r);
  }

  lemma WatchKeeps(c: Ctl, now: uint32, stopMs: uint32, r: Readings)
    requires Sound(c)
    ensures Sound(CheckMotorTimeout(c, now, stopMs, r))
    ensures SameButLog(c.mesh, CheckMotorTimeout(c, now, stopMs, r).mesh)
  {
    hide SendFrame, EnterState, FlagsClear, StopsBetween;
    if Overdue(c, now) {
      StopKeeps(c.motor, stopMs);
      EnterKeeps(c.(motor := Stopped(c.motor, stopMs)), Error, r);
    }
  }

  lemma SetUpSound(who: Identity, pins: Bridge, fcClosed: bool, stopMs: uint32, now: uint32, jitter: uint32)
    requires jitter < HEARTBEAT_JITTER_MS && who.address == Address(ID_STEP, false)
    ensures var c := SetUp(who, pins, fcClosed, stopMs, now, jitter);
            Sound(c) && !c.motor.running && c.mesh.lastActivity == now && !c.mesh.keyOn
  {
    hide SendFrame, FlagsClear;
    var m := MeshState(who, 0, false, false, false, 0, 0, HEARTBEAT_MS, 0, []);
    var m1 := m.(interval := HEARTBEAT_MS + jitter, lastActivity := now);
    NothingSent();
    SendKeeps(m1, 0, ID_BROADCAST, MSG_REGISTER, RegisterPayload(who, false), true);
  }

  lemma NothingSent()
    ensures FlagsClear([])
  {
  }
}
