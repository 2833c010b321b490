/** The safety properties of the STEP node over all its runs. */
module StepTheorems {
  import opened Clock
  import opened Crc8
  import opened Hex
  import opened Wire
  import opened Motor
  import opened Mesh
  import opened Step
  import opened StepSafety
  import opened StepRuns

  /** `w` can be reached from a boot with loop turns of at most `G`. */
  ghost predicate Reachable(G: nat, w: World) {
    exists b: World, run: seq<Event> :: Booted(b) && Possible(G, b, run) && w == After(G, b, run)
  }

  lemma ReachableSound(G: nat, w: World)
    requires Reachable(G, w)
    ensures Sound(w.c)
  {
    hide Inv, Sound, Booted, Possible, After;
    var b: World, run: seq<Event> :| Booted(b) && Possible(G, b, run) && w == After(G, b, run);
    BootInv(G, b);
    InvSound(G, b);
    SoundRun(G, b, run);
  }

  lemma ReachableInv(G: nat, w: World)
    requires NoWrap(G) && Reachable(G, w)
    ensures Inv(G, w)
  {
    hide Inv, Booted, Possible, After;
    var b: World, run: seq<Event> :| Booted(b) && Possible(G, b, run) && w == After(G, b, run);
    BootInv(G, b);
    RunKeeps(G, b, run);
  }

  // ── Motor calls, whatever the timing ───────────────────────────────────────

  /** Every start of the motor came straight after a stop, and the first call was a stop. */
  lemma StartsFollowStops(G: nat, w: World)
    requires Reachable(G, w)
    ensures var ops := w.c.motor.ops;
            forall i :: 0 <= i < |ops| && ops[i].Start? ==> i > 0 && ops[i - 1] == Stop
  {
    hide Reachable, KeyRespected;
    ReachableSound(G, w);
  }

  predicate Dead(s: StepState) {
    s == Error || s == Standalone
  }

  /** `later` are the calls of `ops` and then stops only. */
  ghost predicate OnlyStopsAfter(ops: seq<Op>, later: seq<Op>) {
    ops <= later && forall i :: |ops| <= i < |later| ==> later[i] == Stop
  }

  lemma DeadStep(G: nat, w: World, e: Event)
    requires Sound(w.c) && Enabled(G, w, e) && Dead(w.c.state)
    ensures var d := Next(w, e).c;
            && Dead(d.state) && OnlyStopsAfter(w.c.motor.ops, d.motor.ops)
            && (!w.c.motor.running ==> d.motor == w.c.motor && (w.c.state == Standalone ==> d.state == Standalone))
  {
    hide Sound, Deliver, MeshCheck, CheckEndstops, CheckMotorTimeout, Reconnected;
    RestingStates(w.c);
    match e
    case Text(from, raw, at, stopAt, startAt, r) =>
      DeliverMotor(w.c, from, raw, w.descriptor, Millis(at), Millis(stopAt), Millis(startAt), r);
    case Connections(at) => ConnectionKeeps(w.c, Millis(at));
    case Check(meshEmpty, jitter, at, beat, r) => MeshCheckKeeps(w.c, meshEmpty, Millis(at), jitter, beat, r);
    case Endstops(fcClosed, fcOpen, at, stopAt, r) =>
      EndstopMotor(w.c, fcClosed, fcOpen, Millis(at), Millis(stopAt), r);
    case Watchdog(at, stopAt, until, r) => WatchMotor(w.c, Millis(at), Millis(stopAt), r);
  }

  lemma {:induction false} DeadRun(G: nat, w: World, run: seq<Event>)
    requires Sound(w.c) && Possible(G, w, run) && Dead(w.c.state)
    ensures var d := After(G, w, run).c;
            && Dead(d.state) && OnlyStopsAfter(w.c.motor.ops, d.motor.ops)
            && (!w.c.motor.running ==> d.motor == w.c.motor && (w.c.state == Standalone ==> d.state == Standalone))
    decreases |run|
  {
    hide Sound, Next;
    if run == [] {
    } else {
      DeadStep(G, w, run[0]);
      SoundStep(w, run[0]);
      DeadRun(G, Next(w, run[0]), run[1..]);
    }
  }

  /** From ERROR or STANDALONE no run without a reboot ever starts the motor again, nor leads
      to any other state; and with the motor off STANDALONE is never left. */
  lemma DeadUntilReboot(G: nat, w: World, run: seq<Event>)
    requires Reachable(G, w) && Possible(G, w, run)
    ensures var d := After(G, w, run).c;
            w.c.state == Error || w.c.state == Standalone ==>
              && (d.state == Error || d.state == Standalone) && OnlyStopsAfter(w.c.motor.ops, d.motor.ops)
              && (!w.c.motor.running ==> d.motor == w.c.motor && (w.c.state == Standalone ==> d.state == Standalone))
  {
    hide Reachable, Sound, Possible, After;
    ReachableSound(G, w);
    if Dead(w.c.state) {
      DeadRun(G, w, run);
    }
  }

  // ── The ignition key, whatever the timing ──────────────────────────────────

  /** What the accepted key messages of a run leave the key flag at. */
  function KeyHeard(me: Address, flag: bool, run: seq<Event>): bool
    decreases |run|
  {
    if run == [] then flag else KeyHeard(me, KeyOf(me, flag, run[0]), run[1..])
  }

  function KeyOf(me: Address, flag: bool, e: Event): bool {
    if !e.Text? then flag else
      match Accept(me, e.raw)
      case None => flag
      case Some(f) => if f[0] == MSG_KEY_ON then true else if f[0] == MSG_KEY_OFF then false else flag
  }

  lemma HandlerKey(c: Ctl, frame: seq<byte>, descriptor: seq<byte>, stopMs: uint32, startMs: uint32, r: Readings)
    requires |frame| >= 5
    ensures SameButLog(c.mesh, OnMessage(c, frame, descriptor, stopMs, startMs, r).mesh)
  {
    hide SendFrame, EnterState, SendStatus;
    EnterShape(c, c.state, r);
    var a := c.(mesh := SendToRoot(c.mesh, MSG_DESCRIPTOR, descriptor));
    SendShape(c.mesh, c.mesh.rootMeshId, ID_MASTER, MSG_DESCRIPTOR, descriptor, false);
    EnterShape(a, a.state, r);
    EnterShape(c.(motor := Started(Stopped(c.motor, stopMs), DirClose, startMs)), AutoClosing, r);
    EnterShape(c.(motor := Started(c.motor, DirOpen, startMs)), Opening, r);
    EnterShape(c.(motor := Started(c.motor, DirClose, startMs)), Closing, r);
  }

  lemma KeyStep(w: World, e: Event)
    requires Sound(w.c) && (e.Check? ==> e.jitter < HEARTBEAT_JITTER_MS)
    ensures Next(w, e).c.mesh.keyOn == KeyOf(Address(ID_STEP, false), w.c.mesh.keyOn, e)
  {
    hide Sound, OnMessage, MeshCheck, CheckEndstops, CheckMotorTimeout, Reconnected, Accept;
    StepAddress(w.c);
    match e
    case Text(from, raw, at, stopAt, startAt, r) =>
      var c1 := w.c.(mesh := Received(w.c.mesh, from, raw, Millis(at)));
      match Accept(w.c.mesh.who.address, raw) {
        case None =>
        case Some(frame) => HandlerKey(c1, frame, w.descriptor, Millis(stopAt), Millis(startAt), r);
      }
    case Connections(at) => ConnectionKeeps(w.c, Millis(at));
    case Check(meshEmpty, jitter, at, beat, r) => MeshCheckKeeps(w.c, meshEmpty, Millis(at), jitter, beat, r);
    case Endstops(fcClosed, fcOpen, at, stopAt, r) =>
      EndstopsKeep(w.c, fcClosed, fcOpen, Millis(at), Millis(stopAt), r);
    case Watchdog(at, stopAt, until, r) => WatchKeeps(w.c, Millis(at), Millis(stopAt), r);
  }

  lemma StepAddress(c: Ctl)
    requires Sound(c)
    ensures c.mesh.who.address == Address(ID_STEP, false)
  {
  }

  lemma {:induction false} KeyFlagRun(G: nat, w: World, run: seq<Event>)
    requires Sound(w.c) && Possible(G, w, run)
    ensures After(G, w, run).c.mesh.keyOn == KeyHeard(Address(ID_STEP, false), w.c.mesh.keyOn, run)
    decreases |run|
  {
    hide Sound, Next, KeyOf;
    if run == [] {
    } else {
      KeyStep(w, run[0]);
      SoundStep(w, run[0]);
      KeyFlagRun(G, Next(w, run[0]), run[1..]);
    }
  }

  /** In every run from boot the key flag says which key message was last accepted; off if none. */
  lemma KeyFlagIsLastHeard(G: nat, b: World, run: seq<Event>)
    requires Booted(b) && Possible(G, b, run)
    ensures After(G, b, run).c.mesh.keyOn == KeyHeard(Address(ID_STEP, false), false, run)
  {
    hide Booted, Inv, Sound, Possible, After, KeyHeard;
    BootInv(G, b);
    InvSound(G, b);
    KeyFlagRun(G, b, run);
  }

  lemma KeyedState(c: Ctl)
    requires Sound(c) && c.mesh.keyOn
    ensures c.state != Open && c.state != Opening
    ensures c.motor.pins.Drives(DirOpen) ==> c.state == Standalone && c.motor.running
  {
  }

  /** From an accepted KEY_ON to the next accepted KEY_OFF the step is neither open nor
      opening, in any run from boot; and the bridge is not driven in the opening direction,
      unless STANDALONE was entered with the motor on. */
  lemma KeySafety(G: nat, b: World, run: seq<Event>)
    requires Booted(b) && Possible(G, b, run)
    ensures var c := After(G, b, run).c;
            KeyHeard(Address(ID_STEP, false), false, run) ==>
              && c.mesh.keyOn && c.state != Open && c.state != Opening
              && (c.motor.pins.Drives(DirOpen) ==> c.state == Standalone && c.motor.running)
  {
    hide Booted, Inv, Sound, Possible, After, KeyHeard;
    BootInv(G, b);
    InvSound(G, b);
    KeyFlagIsLastHeard(G, b, run);
    SoundRun(G, b, run);
    if After(G, b, run).c.mesh.keyOn {
      KeyedState(After(G, b, run).c);
    }
  }

  /** A text the STEP accepts as KEY_ON. */
  predicate IsKeyOn(raw: string) {
    var r := Accept(Address(ID_STEP, false), raw);
    r.Some? && r.value[0] == MSG_KEY_ON
  }

  /** An accepted KEY_ON starts the closing exactly when the step is OPEN or OPENING; in every
      other state, STANDALONE and ERROR with the step out included, nothing moves. */
  lemma KeyOnClosesIff(G: nat, w: World, e: Event)
    requires Reachable(G, w) && Enabled(G, w, e)
    ensures var d := Next(w, e).c;
            e.Text? && IsKeyOn(e.raw) ==>
              && (StartedBetween(w.c, d) <==> w.c.state in {Open, Opening})
              && (StartedBetween(w.c, d) ==> d.state == AutoClosing && d.motor.pins.Drives(DirClose))
              && (!StartedBetween(w.c, d) ==> d.state == w.c.state && d.motor == w.c.motor)
  {
    hide Reachable, StopsBetween, EnterState, FlagsClear, Accept, MeshCheck, CheckEndstops, CheckMotorTimeout, Reconnected;
    if e.Text? && IsKeyOn(e.raw) {
      ReachableSound(G, w);
      var c1 := w.c.(mesh := Received(w.c.mesh, e.from, e.raw, Millis(e.at)));
      EnterShape(c1.(motor := Started(Stopped(c1.motor, Millis(e.stopAt)), DirClose, Millis(e.startAt))), AutoClosing, e.r);
    }
  }

  /** Every MSG_STEP_OPEN frame the node ever sends says the key is off: the warning its
      payload was meant for can never be raised. */
  lemma StepOpenNeverWarns(G: nat, w: World, i: nat, me: Address)
    requires Reachable(G, w) && i < |w.c.mesh.log|
    ensures match Accept(me, w.c.mesh.log[i].text)
            case None => true
            case Some(f) => f[0] == MSG_STEP_OPEN ==> |f| > 5 && f[5] == 0
  {
    hide Reachable, InStep, Valid;
    ReachableSound(G, w);
  }

  // ── The bridge under the key ───────────────────────────────────────────────

  /** Turns short enough that a node gone standalone with the motor on stops it before it
      hears anything again. */
  predicate Prompt(G: nat) {
    MOTOR_TIMEOUT_MS + G <= STANDALONE_TIMEOUT_MS
  }

  /** Powered in STANDALONE only between the mesh check and the watchdog of one turn, past the
      watchdog's limit, and not in the opening direction with the key on. */
  ghost predicate PromptInv(G: nat, w: World) {
    && Inv(G, w)
    && (w.c.state == Standalone && w.c.motor.running ==>
          w.phase != Receiving && w.clock > w.startAt + MOTOR_TIMEOUT_MS)
    && !(w.c.mesh.keyOn && w.c.motor.pins.Drives(DirOpen))
  }

  lemma KeyedBridge(c: Ctl)
    requires Sound(c) && !(c.state == Standalone && c.motor.running)
    ensures !(c.mesh.keyOn && c.motor.pins.Drives(DirOpen))
  {
  }

  lemma PromptStep(G: nat, w: World, e: Event)
    requires Prompt(G) && PromptInv(G, w) && Enabled(G, w, e)
    ensures PromptInv(G, Next(w, e))
  {
    hide Sound, Next;
    var v := Next(w, e);
    PhaseAfter(w, e);
    match e {
      case Text(_, _, _, _, _, _) => TextStep(G, w, e);
      case Connections(_) => ConnectionStep(G, w, e);
      case Check(meshEmpty, _, at, _, _) =>
        CheckStep(G, w, e);
        ElapsedIsTrueTime(at, w.activeAt);
      case Endstops(_, _, _, _, _) => EndstopStep(G, w, e);
      case Watchdog(_, _, _, _) => WatchdogStep(G, w, e);
    }
    RestingStates(v.c);
    if !(v.c.state == Standalone && v.c.motor.running) {
      KeyedBridge(v.c);
    }
  }

  lemma PhaseAfter(w: World, e: Event)
    requires e.Check? ==> e.jitter < HEARTBEAT_JITTER_MS
    ensures var v := Next(w, e);
            match e
            case Text(_, _, at, _, startAt, _) => v.phase == w.phase
            case Connections(at) => v.phase == w.phase
            case Check(_, _, at, _, _) => v.phase == Polling && v.clock == at && v.startAt == w.startAt
            case Endstops(_, _, _, stopAt, _) => v.phase == Watching && v.clock == stopAt && v.startAt == w.startAt
            case Watchdog(_, _, _, _) => v.phase == Receiving
  {
    hide Deliver, Reconnected, MeshCheck, CheckEndstops, CheckMotorTimeout;
  }

  lemma {:induction false} PromptRun(G: nat, w: World, run: seq<Event>)
    requires Prompt(G) && PromptInv(G, w) && Possible(G, w, run)
    ensures PromptInv(G, After(G, w, run))
    decreases |run|
  {
    hide PromptInv, Next;
    if run == [] {
    } else {
      PromptStep(G, w, run[0]);
      PromptRun(G, Next(w, run[0]), run[1..]);
    }
  }

  lemma BootPrompt(G: nat, b: World)
    requires Booted(b)
    ensures PromptInv(G, b)
  {
    hide Inv, Sound, Booted;
    BootInv(G, b);
    InvSound(G, b);
    RestingStates(b.c);
  }

  /** With such turns the bridge is never driven in the opening direction under the key. */
  lemma KeyBridgeSafe(G: nat, w: World)
    requires Prompt(G) && Reachable(G, w)
    ensures !(w.c.mesh.keyOn && w.c.motor.pins.Drives(DirOpen))
  {
    hide Inv, Booted, Possible, After;
    var b: World, run: seq<Event> :| Booted(b) && Possible(G, b, run) && w == After(G, b, run);
    BootPrompt(G, b);
    PromptRun(G, b, run);
  }

  // ── State and bridge ───────────────────────────────────────────────────────

  /** Loop turns short enough that the motor watchdog always beats the standalone timeout. */
  predicate QuickTurns(G: nat) {
    MOTOR_TIMEOUT_MS + 3 * G <= STANDALONE_TIMEOUT_MS
  }

  /** The heart of the matter: with the motor powered the mesh was heard too recently for the
      node to go standalone. */
  lemma NotAloneWhilePowered(G: nat, w: World, meshEmpty: bool, at: nat)
    requires Inv(G, w) && w.clock <= at <= w.cycleStart + G && QuickTurns(G)
    ensures w.c.motor.running ==> !GoesStandalone(w.c.mesh, meshEmpty, Millis(at))
  {
    hide Sound;
    ElapsedIsTrueTime(at, w.activeAt);
  }

  ghost predicate QuickInv(G: nat, w: World) {
    Inv(G, w) && !(w.c.state == Standalone && w.c.motor.running)
  }

  lemma QuickStep(G: nat, w: World, e: Event)
    requires QuickTurns(G) && QuickInv(G, w) && Enabled(G, w, e)
    ensures QuickInv(G, Next(w, e)) && Edges(w.c.state, Next(w, e).c.state)
  {
    hide Inv, Next, Sound;
    InvSound(G, w);
    RestingStates(w.c);
    match e
    case Text(_, _, _, _, _, _) => TextStep(G, w, e);
    case Connections(_) => ConnectionStep(G, w, e);
    case Check(meshEmpty, _, at, _, _) =>
      InvTimes(G, w);
      NotAloneWhilePowered(G, w, meshEmpty, at);
      CheckStep(G, w, e);
    case Endstops(_, _, _, _, _) => EndstopStep(G, w, e);
    case Watchdog(_, _, _, _) => WatchdogStep(G, w, e);
  }

  lemma InvTimes(G: nat, w: World)
    requires Inv(G, w)
    ensures w.cycleStart <= w.clock
  {
  }

  lemma {:induction false} QuickRun(G: nat, w: World, run: seq<Event>)
    requires QuickTurns(G) && QuickInv(G, w) && Possible(G, w, run)
    ensures QuickInv(G, After(G, w, run))
    decreases |run|
  {
    hide QuickInv, Next, Edges;
    if run == [] {
    } else {
      QuickStep(G, w, run[0]);
      QuickRun(G, Next(w, run[0]), run[1..]);
    }
  }

  lemma ReachableQuick(G: nat, w: World)
    requires QuickTurns(G) && Reachable(G, w)
    ensures QuickInv(G, w)
  {
    hide Inv, Booted, Possible, After;
    var b: World, run: seq<Event> :| Booted(b) && Possible(G, b, run) && w == After(G, b, run);
    BootInv(G, b);
    QuickRun(G, b, run);
  }

  /** The motor runs exactly in the three moving states, in the direction of the state, with
      the bridge off otherwise; in particular never in STANDALONE or ERROR. */
  lemma MotorRunsExactlyWhenMoving(G: nat, w: World)
    requires QuickTurns(G) && Reachable(G, w)
    ensures w.c.motor.running <==> w.c.state in {Opening, Closing, AutoClosing}
    ensures w.c.motor.pins.Drives(DirOpen) <==> w.c.state == Opening
    ensures w.c.motor.pins.Drives(DirClose) <==> w.c.state in {Closing, AutoClosing}
    ensures !w.c.motor.running ==> w.c.motor.pins == Bridge(false, false, false)
  {
    hide Reachable, StopsBetween, KeyRespected;
    ReachableQuick(G, w);
  }

  /** Every step from a reachable state follows an edge of the graph: CLOSED to OPENING; OPEN
      to CLOSING or AUTO_CLOSING; OPENING to OPEN or AUTO_CLOSING; CLOSING and AUTO_CLOSING to
      CLOSED; moving states to ERROR; resting states to STANDALONE; and no other. */
  lemma OnlyTheseEdges(G: nat, w: World, e: Event)
    requires QuickTurns(G) && Reachable(G, w) && Enabled(G, w, e)
    ensures Edges(w.c.state, Next(w, e).c.state)
    ensures w.c.state == AutoClosing ==> Next(w, e).c.state in {AutoClosing, Closed, Error}
    ensures w.c.state == Standalone ==> Next(w, e).c.state == Standalone
  {
    hide Reachable, QuickInv;
    ReachableQuick(G, w);
    QuickStep(G, w, e);
  }

  // ── How long the motor may be on ───────────────────────────────────────────

  /** The motor is never on for longer than the watchdog allows plus two turns of the loop;
      a powering episode has at most two starts, the second only to reverse an opening, so it
      ends within twice that. */
  lemma PoweringIsBounded(G: nat, w: World)
    requires NoWrap(G) && Reachable(G, w) && w.c.motor.running
    ensures w.startAt <= w.clock <= w.startAt + MOTOR_TIMEOUT_MS + 2 * G
    ensures w.starts == 1 || (w.starts == 2 && w.c.motor.pins.Drives(DirClose))
    ensures w.clock <= w.episodeAt + 2 * (MOTOR_TIMEOUT_MS + 2 * G)
  {
    hide Reachable, Sound;
    ReachableInv(G, w);
  }
}
