/** Whole runs of the STEP node under an adversarial clock, network and sensors. True time is
    unbounded; the node sees it modulo 2^32. Every turn of `loop` lasts at most `G` ms. */
module StepRuns {
  import opened Clock
  import opened Crc8
  import opened Hex
  import opened Wire
  import opened Motor
  import opened Mesh
  import opened Step
  import opened StepSafety

  // ── Runs ───────────────────────────────────────────────────────────────────

  /** Where in `loop` the node is: receiving messages, before the end stops, before the watchdog. */
  datatype Phase = Receiving | Polling | Watching

  /** The node, the true clock, and what an observer remembers: when this turn of the loop
      began, when the motor was last started and the mesh last heard (true times), when the
      motor was last powered from rest, and how many starts there were since. */
  datatype World = World(
    c: Ctl,
    descriptor: seq<byte>,
    phase: Phase,
    clock: nat,
    cycleStart: nat,
    startAt: nat,
    activeAt: nat,
    episodeAt: nat,
    starts: nat)

  datatype Event =
    | Text(from: nat, raw: string, at: nat, stopAt: nat, startAt: nat, r: Readings)
    | Connections(at: nat)
    | Check(meshEmpty: bool, jitter: uint32, at: nat, beat: Readings, r: Readings)
    | Endstops(fcClosed: bool, fcOpen: bool, at: nat, stopAt: nat, r: Readings)
    | Watchdog(at: nat, stopAt: nat, until: nat, r: Readings)

  /** The clock never runs back, and a turn of the loop takes at most `G`. */
  predicate Enabled(G: nat, w: World, e: Event) {
    var limit := w.cycleStart + G;
    match e
    case Text(_, raw, at, stopAt, startAt, _) =>
      && w.phase == Receiving && |raw| <= 2 * (HEADER + PAYLOAD_MAX + 2)
      && w.clock <= at <= stopAt <= startAt <= limit
    case Connections(at) => w.phase == Receiving && w.clock <= at <= limit
    case Check(_, jitter, at, _, _) =>
      w.phase == Receiving && jitter < HEARTBEAT_JITTER_MS && w.clock <= at <= limit
    case Endstops(_, _, at, stopAt, _) => w.phase == Polling && w.clock <= at <= stopAt <= limit
    case Watchdog(at, stopAt, until, _) =>
      w.phase == Watching && w.clock <= at <= stopAt <= until <= limit
  }

  /** The motor was started between two states of the node. */
  predicate StartedBetween(c: Ctl, d: Ctl) {
    |d.motor.ops| > |c.motor.ops| && d.motor.ops[|d.motor.ops| - 1].Start?
  }

  function Next(w: World, e: Event): World
    requires e.Check? ==> e.jitter < HEARTBEAT_JITTER_MS
  {
    match e
    case Text(from, raw, at, stopAt, startAt, r) =>
      var d := Deliver(w.c, from, raw, w.descriptor, Millis(at), Millis(stopAt), Millis(startAt), r);
      var started := StartedBetween(w.c, d);
      w.(c := d, clock := startAt, activeAt := at,
         startAt := if started then startAt else w.startAt,
         episodeAt := if started && !w.c.motor.running then startAt else w.episodeAt,
         starts := if !started then w.starts else if w.c.motor.running then w.starts + 1 else 1)
    case Connections(at) =>
      w.(c := Reconnected(w.c, Millis(at)), clock := at, activeAt := at)
    case Check(meshEmpty, jitter, at, beat, r) =>
      w.(c := MeshCheck(w.c, meshEmpty, Millis(at), jitter, beat, r), clock := at, phase := Polling)
    case Endstops(fcClosed, fcOpen, at, stopAt, r) =>
      w.(c := CheckEndstops(w.c, fcClosed, fcOpen, Millis(at), Millis(stopAt), r), clock := stopAt, phase := Watching)
    case Watchdog(at, stopAt, until, r) =>
      w.(c := CheckMotorTimeout(w.c, Millis(at), Millis(stopAt), r), clock := until, cycleStart := until,
         phase := Receiving)
  }

  /** The events of `run`, one after the other, are possible from `w`. */
  predicate Possible(G: nat, w: World, run: seq<Event>)
    decreases |run|
  {
    run == [] || (Enabled(G, w, run[0]) && Possible(G, Next(w, run[0]), run[1..]))
  }

  function After(G: nat, w: World, run: seq<Event>): World
    requires Possible(G, w, run)
    decreases |run|
  {
    if run == [] then w else After(G, Next(w, run[0]), run[1..])
  }

  /** After `setup`, at any time, from any pin levels. */
  ghost predicate Booted(w: World) {
    exists who: Identity, pins: Bridge, fcClosed: bool, stopAt: nat, at: nat, jitter: uint32 ::
      BootedWith(w, who, pins, fcClosed, stopAt, at, jitter)
  }

  predicate BootedWith(w: World, who: Identity, pins: Bridge, fcClosed: bool, stopAt: nat, at: nat, jitter: uint32) {
    && who.address == Address(ID_STEP, false) && jitter < HEARTBEAT_JITTER_MS
    && stopAt <= at <= w.clock == w.cycleStart
    && w.c == SetUp(who, pins, fcClosed, Millis(stopAt), Millis(at), jitter)
    && w.phase == Receiving && w.startAt == 0 && w.activeAt == at && w.episodeAt == 0 && w.starts == 0
  }

  // ── Without any bound on time ──────────────────────────────────────────────

  /** Whatever the timing, every event keeps bridge, broadcasts and key flag in order. */
  lemma SoundStep(w: World, e: Event)
    requires Sound(w.c) && (e.Check? ==> e.jitter < HEARTBEAT_JITTER_MS)
    ensures Sound(Next(w, e).c)
  {
    hide Sound, Deliver, Reconnected, MeshCheck, CheckEndstops, CheckMotorTimeout;
    match e
    case Text(from, raw, at, stopAt, startAt, r) =>
      DeliverKeeps(w.c, from, raw, w.descriptor, Millis(at), Millis(stopAt), Millis(startAt), r);
    case Connections(at) => ConnectionKeeps(w.c, Millis(at));
    case Check(meshEmpty, jitter, at, beat, r) => MeshCheckKeeps(w.c, meshEmpty, Millis(at), jitter, beat, r);
    case Endstops(fcClosed, fcOpen, at, stopAt, r) =>
      EndstopsKeep(w.c, fcClosed, fcOpen, Millis(at), Millis(stopAt), r);
    case Watchdog(at, stopAt, until, r) => WatchKeeps(w.c, Millis(at), Millis(stopAt), r);
  }

  lemma {:induction false} SoundRun(G: nat, w: World, run: seq<Event>)
    requires Sound(w.c) && Possible(G, w, run)
    ensures Sound(After(G, w, run).c)
    decreases |run|
  {
    hide Sound, Next;
    if run == [] {
    } else {
      SoundStep(w, run[0]);
      SoundRun(G, Next(w, run[0]), run[1..]);
    }
  }

  // ── The timed invariant ────────────────────────────────────────────────────

  /** Turns short enough for the 32-bit difference of the watchdog to be the true one. */
  predicate NoWrap(G: nat) {
    MOTOR_TIMEOUT_MS + 2 * G < WRAP
  }

  ghost predicate Inv(G: nat, w: World) {
    && Sound(w.c)
    && w.c.mesh.lastActivity == Millis(w.activeAt)
    && w.cycleStart <= w.clock <= w.cycleStart + G
    && w.activeAt <= w.clock
    && (w.c.motor.running ==>
          && w.c.motor.startMs == Millis(w.startAt)
          && w.startAt <= w.clock
          && w.startAt <= w.activeAt + G
          && w.cycleStart <= w.startAt + MOTOR_TIMEOUT_MS + G
          && Episode(G, w))
  }

  /** A powering episode has one start, or two if the second reversed an opening. */
  predicate Episode(G: nat, w: World) {
    || (w.starts == 1 && w.episodeAt == w.startAt)
    || (w.starts == 2 && w.c.motor.pins.Drives(DirClose) && w.startAt <= w.episodeAt + MOTOR_TIMEOUT_MS + 2 * G)
  }

  /** The state graph the code means to have. */
  predicate Edges(s: StepState, t: StepState) {
    || s == t
    || (s == Closed && t == Opening) || (s == Open && (t == Closing || t == AutoClosing))
    || (s == Opening && (t == Open || t == AutoClosing))
    || ((s == Closing || s == AutoClosing) && t == Closed)
    || (Moving(s) && t == Error)
    || (!Moving(s) && t == Standalone)
  }

  // ── What one text can do to the motor ──────────────────────────────────────

  lemma HandlerMotor(c: Ctl, frame: seq<byte>, descriptor: seq<byte>, stopMs: uint32, startMs: uint32, r: Readings)
    requires |frame| >= 5
    ensures var d := OnMessage(c, frame, descriptor, stopMs, startMs, r);
            && d.mesh.lastActivity == c.mesh.lastActivity
            && ((d.motor == c.motor && d.state == c.state)
                || (StartedBetween(c, d) && d.motor.running && d.motor.startMs == startMs
                    && (c.state, d.state) in {(Closed, Opening), (Open, Closing), (Open, AutoClosing), (Opening, AutoClosing)}))
  {
    hide SendFrame, EnterState, SendStatus;
    EnterShape(c, c.state, r);
    var a := c.(mesh := SendToRoot(c.mesh, MSG_DESCRIPTOR, descriptor));
    SendShape(c.mesh, c.mesh.rootMeshId, ID_MASTER, MSG_DESCRIPTOR, descriptor, false);
    EnterShape(a, a.state, r);
    EnterShape(c.(motor := Started(Stopped(c.motor, stopMs), DirClose, startMs)), AutoClosing, r);
    EnterShape(c.(motor := Started(c.motor, DirOpen, startMs)), Opening, r);
    EnterShape(c.(motor := Started(c.motor, DirClose, startMs)), Closing, r);
  }

  lemma DeliverMotor(c: Ctl, from: nat, raw: string, descriptor: seq<byte>,
                     now: uint32, stopMs: uint32, startMs: uint32, r: Readings)
    ensures var d := Deliver(c, from, raw, descriptor, now, stopMs, startMs, r);
            && d.mesh.lastActivity == now
            && ((d.motor == c.motor && d.state == c.state && !StartedBetween(c, d))
                || (StartedBetween(c, d) && d.motor.running && d.motor.startMs == startMs
                    && (c.state, d.state) in {(Closed, Opening), (Open, Closing), (Open, AutoClosing), (Opening, AutoClosing)}))
  {
    hide OnMessage, Accept;
    var c1 := c.(mesh := Received(c.mesh, from, raw, now));
    match Accept(c.mesh.who.address, raw)
    case None =>
    case Some(frame) => HandlerMotor(c1, frame, descriptor, stopMs, startMs, r);
  }

  // ── Each step keeps the invariant ──────────────────────────────────────────

  lemma RestingStates(c: Ctl)
    requires Sound(c)
    ensures c.state != Standalone ==> c.motor.running == Moving(c.state) && c.motor.pins == Expected(c.state)
    ensures !c.motor.running ==> c.motor.pins == Bridge(false, false, false)
  {
  }

  lemma TextStep(G: nat, w: World, e: Event)
    requires Inv(G, w) && e.Text? && Enabled(G, w, e)
    ensures Inv(G, Next(w, e)) && Edges(w.c.state, Next(w, e).c.state)
    ensures var d := Next(w, e).c;
            d.state == Standalone ==> d.motor == w.c.motor && w.c.state == Standalone
  {
    hide Deliver, Sound;
    SoundStep(w, e);
    DeliverMotor(w.c, e.from, e.raw, w.descriptor, Millis(e.at), Millis(e.stopAt), Millis(e.startAt), e.r);
    RestingStates(w.c);
    RestingStates(Next(w, e).c);
  }

  lemma ConnectionStep(G: nat, w: World, e: Event)
    requires Inv(G, w) && e.Connections? && Enabled(G, w, e)
    ensures Inv(G, Next(w, e)) && Next(w, e).c == w.c.(mesh := Next(w, e).c.mesh)
  {
    hide Sound, Reconnected;
    ConnectionKeeps(w.c, Millis(e.at));
  }

  lemma CheckStep(G: nat, w: World, e: Event)
    requires Inv(G, w) && e.Check? && Enabled(G, w, e)
    ensures Inv(G, Next(w, e)) && Next(w, e).c.motor == w.c.motor && Next(w, e).c.mesh.keyOn == w.c.mesh.keyOn
    ensures Next(w, e).c.state
         == if GoesStandalone(w.c.mesh, e.meshEmpty, Millis(e.at)) then Standalone else w.c.state
  {
    hide MeshCheck, Sound;
    MeshCheckKeeps(w.c, e.meshEmpty, Millis(e.at), e.jitter, e.beat, e.r);
  }

  lemma ClosedStopMotor(c: Ctl, fcClosed: bool, now: uint32, stopMs: uint32, r: Readings)
    requires Sound(c)
    ensures var d := ClosedStop(c, fcClosed, now, stopMs, r);
            || (d.state == c.state && d.motor == c.motor)
            || (c.state in {Closing, AutoClosing} && d.state == Closed && !d.motor.running)
  {
    hide Edge, EnterState, KeyRespected, StopsBetween;
    EnterShape(c.(lastFcMs := now, motor := Stopped(c.motor, stopMs)), Closed, r);
  }

  lemma OpenStopMotor(c: Ctl, fcOpen: bool, now: uint32, stopMs: uint32, r: Readings)
    requires Sound(c)
    ensures var d := OpenStop(c, fcOpen, now, stopMs, r);
            || (d.state == c.state && d.motor == c.motor)
            || (c.state == Opening && d.state == Open && !d.motor.running)
  {
    hide Edge, EnterState, KeyRespected, StopsBetween;
    EnterShape(c.(lastFcMs := now, motor := Stopped(c.motor, stopMs)), Open, r);
  }

  lemma EndstopMotor(c: Ctl, fcClosed: bool, fcOpen: bool, now: uint32, stopMs: uint32, r: Readings)
    requires Sound(c)
    ensures var d := CheckEndstops(c, fcClosed, fcOpen, now, stopMs, r);
            && Edges(c.state, d.state) && SameButLog(c.mesh, d.mesh)
            && (d.motor.running ==> d.motor == c.motor && d.state == c.state)
            && (c.state == Standalone || !c.motor.running ==> d.motor == c.motor && d.state == c.state)
  {
    hide ClosedStop, OpenStop, Sound;
    EndstopsKeep(c, fcClosed, fcOpen, now, stopMs, r);
    ClosedStopKeeps(c, fcClosed, now, stopMs, r);
    ClosedStopMotor(c, fcClosed, now, stopMs, r);
    var d := ClosedStop(c, fcClosed, now, stopMs, r);
    OpenStopMotor(d, fcOpen, now, stopMs, r);
    RestingStates(c);
  }

  lemma EndstopStep(G: nat, w: World, e: Event)
    requires Inv(G, w) && e.Endstops? && Enabled(G, w, e)
    ensures Inv(G, Next(w, e)) && Edges(w.c.state, Next(w, e).c.state)
    ensures Next(w, e).c.mesh.keyOn == w.c.mesh.keyOn
    ensures Next(w, e).c.motor.running ==> Next(w, e).c.motor == w.c.motor && Next(w, e).c.state == w.c.state
  {
    hide CheckEndstops, Sound;
    SoundStep(w, e);
    EndstopMotor(w.c, e.fcClosed, e.fcOpen, Millis(e.at), Millis(e.stopAt), e.r);
  }

  lemma WatchMotor(c: Ctl, now: uint32, stopMs: uint32, r: Readings)
    ensures var d := CheckMotorTimeout(c, now, stopMs, r);
            && SameButLog(c.mesh, d.mesh)
            && (if Overdue(c, now) then d.motor == Stopped(c.motor, stopMs) && d.state == Error else d == c)
  {
    hide EnterState;
    EnterShape(c.(motor := Stopped(c.motor, stopMs)), Error, r);
  }

  lemma WatchdogStep(G: nat, w: World, e: Event)
    requires Inv(G, w) && e.Watchdog? && Enabled(G, w, e) && NoWrap(G)
    ensures Inv(G, Next(w, e))
    ensures Next(w, e).c.mesh.keyOn == w.c.mesh.keyOn
    ensures var late := w.c.motor.running && e.at > w.startAt + MOTOR_TIMEOUT_MS;
            if late then !Next(w, e).c.motor.running && Next(w, e).c.state == Error else Next(w, e).c == w.c
  {
    hide CheckMotorTimeout, Sound;
    SoundStep(w, e);
    WatchMotor(w.c, Millis(e.at), Millis(e.stopAt), e.r);
    if w.c.motor.running {
      ElapsedIsTrueTime(e.at, w.startAt);
    }
  }

  lemma StepKeeps(G: nat, w: World, e: Event)
    requires Inv(G, w) && Enabled(G, w, e) && NoWrap(G)
    ensures Inv(G, Next(w, e))
  {
    hide Inv;
    match e
    case Text(_, _, _, _, _, _) => TextStep(G, w, e);
    case Connections(_) => ConnectionStep(G, w, e);
    case Check(_, _, _, _, _) => CheckStep(G, w, e);
    case Endstops(_, _, _, _, _) => EndstopStep(G, w, e);
    case Watchdog(_, _, _, _) => WatchdogStep(G, w, e);
  }

  lemma {:induction false} RunKeeps(G: nat, w: World, run: seq<Event>)
    requires Inv(G, w) && Possible(G, w, run) && NoWrap(G)
    ensures Inv(G, After(G, w, run))
    decreases |run|
  {
    hide Inv, Next;
    if run == [] {
    } else {
      StepKeeps(G, w, run[0]);
      RunKeeps(G, Next(w, run[0]), run[1..]);
    }
  }

  lemma BootInv(G: nat, w: World)
    requires Booted(w)
    ensures Inv(G, w) && !w.c.motor.running && !w.c.mesh.keyOn
  {
    hide Sound, SetUp;
    var who, pins, fcClosed, stopAt, at, jitter :| BootedWith(w, who, pins, fcClosed, stopAt, at, jitter);
    SetUpSound(who, pins, fcClosed, Millis(stopAt), Millis(at), jitter);
  }

  lemma InvSound(G: nat, w: World)
    requires Inv(G, w)
    ensures Sound(w.c)
  {
  }
}
