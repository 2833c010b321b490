/** How quick the loop of the STEP node must be: each bound of the safety properties is exact,
    shown by runs in which the mesh falls silent, or the clock wraps, during an opening. */
module StepLimits {
  import opened Clock
  import opened Crc8
  import opened Hex
  import opened Wire
  import opened Motor
  import opened Mesh
  import opened Step
  import opened StepSafety
  import opened StepRuns
  import opened StepTheorems

  // ── Building runs ──────────────────────────────────────────────────────────

  lemma {:induction false} PossibleConcat(G: nat, w: World, x: seq<Event>, y: seq<Event>)
    requires Possible(G, w, x) && Possible(G, After(G, w, x), y)
    ensures Possible(G, w, x + y) && After(G, w, x + y) == After(G, After(G, w, x), y)
    decreases |x|
  {
    hide Next;
    if x == [] {
      assert x + y == y;
    } else {
      PossibleConcat(G, Next(w, x[0]), x[1..], y);
      assert (x + y)[0] == x[0] && (x + y)[1..] == x[1..] + y;
    }
  }

  lemma OneEvent(G: nat, w: World, e: Event)
    requires Enabled(G, w, e)
    ensures Possible(G, w, [e]) && After(G, w, [e]) == Next(w, e)
  {
    hide Next;
    var v := Next(w, e);
    assert [e][1..] == [];
    assert Possible(G, v, []) && After(G, v, []) == v;
  }

  lemma ThreeEvents(G: nat, w: World, q: seq<Event>)
    requires |q| == 3 && Enabled(G, w, q[0]) && Enabled(G, Next(w, q[0]), q[1])
    requires Enabled(G, Next(Next(w, q[0]), q[1]), q[2])
    ensures Possible(G, w, q) && After(G, w, q) == Next(Next(Next(w, q[0]), q[1]), q[2])
  {
    hide Next;
    var w1 := Next(w, q[0]);
    var w2 := Next(w1, q[1]);
    OneEvent(G, w2, q[2]);
    assert q[1..][1..] == [q[2]];
    assert Possible(G, w1, q[1..]) && After(G, w1, q[1..]) == Next(w2, q[2]);
  }

  lemma {:induction false} SlowerIsPossible(G: nat, H: nat, w: World, run: seq<Event>)
    requires Possible(G, w, run) && G <= H
    ensures Possible(H, w, run) && After(H, w, run) == After(G, w, run)
    decreases |run|
  {
    hide Next;
    if run == [] {
    } else {
      SlowerIsPossible(G, H, Next(w, run[0]), run[1..]);
    }
  }

  lemma WitnessReached(G: nat, b: World, run: seq<Event>)
    requires Booted(b) && Possible(G, b, run)
    ensures Reachable(G, After(G, b, run))
  {
    hide Booted, Possible, After;
  }

  // ── An opening that waits ──────────────────────────────────────────────────

  const DARK: Readings := Readings(false, false, [])

  const STEP_NODE: Identity := Identity(Address(ID_STEP, false), 0x02, [], [])

  const OPEN_COMMAND: string := Wire.Text(MSG_COMMAND, 0x0B, ID_STEP, 0, [ACTION_OPEN, 0])

  function ClosedAtBoot(): World {
    World(SetUp(STEP_NODE, Bridge(false, false, false), true, 0, 0, 0), [], Receiving, 0, 0, 0, 0, 0, 0)
  }

  lemma BootsClosed()
    ensures Booted(ClosedAtBoot())
  {
    hide SetUp;
    assert BootedWith(ClosedAtBoot(), STEP_NODE, Bridge(false, false, false), true, 0, 0, 0);
  }

  /** A turn of the loop in which nothing happens, all tests at `t`. */
  function QuietTurn(meshEmpty: bool, t: nat, until: nat): seq<Event> {
    [Check(meshEmpty, 0, t, DARK, DARK), Endstops(false, false, t, t, DARK), Watchdog(t, t, until, DARK)]
  }

  /** Opening since `start`, unregistered, nothing heard since 0, end stops silent. */
  predicate Waiting(w: World, start: nat) {
    && w.phase == Receiving && w.c.state == Opening && w.c.motor.running
    && w.c.motor.pins == Bridge(true, false, true)
    && w.c.motor.startMs == Millis(start) && w.startAt == start && w.c.mesh.lastActivity == 0
    && !w.c.mesh.registered && !w.c.mesh.standalone && w.c.mesh.who.address == Address(ID_STEP, false)
    && !w.c.fcClosedPrev && !w.c.fcOpenPrev
  }

  /** Within both timeouts, or with the mesh populated, a turn changes nothing. */
  lemma QuietTests(w: World, start: nat, meshEmpty: bool, t: nat)
    requires Waiting(w, start) && Elapsed(Millis(t), Millis(start)) <= MOTOR_TIMEOUT_MS
    requires meshEmpty ==> t <= STANDALONE_TIMEOUT_MS
    ensures MeshCheck(w.c, meshEmpty, Millis(t), 0, DARK, DARK) == w.c
    ensures CheckEndstops(w.c, false, false, Millis(t), Millis(t), DARK) == w.c
    ensures CheckMotorTimeout(w.c, Millis(t), Millis(t), DARK) == w.c
  {
    hide EnterState, SendStatus;
    ElapsedIsTrueTime(t, 0);
  }

  lemma Quiet(G: nat, w: World, start: nat, meshEmpty: bool, t: nat, until: nat)
    requires Waiting(w, start) && w.clock <= t <= until <= w.cycleStart + G
    requires Elapsed(Millis(t), Millis(start)) <= MOTOR_TIMEOUT_MS
    requires meshEmpty ==> t <= STANDALONE_TIMEOUT_MS
    ensures Possible(G, w, QuietTurn(meshEmpty, t, until))
    ensures After(G, w, QuietTurn(meshEmpty, t, until)) == w.(clock := until, cycleStart := until)
  {
    hide MeshCheck, CheckEndstops, CheckMotorTimeout;
    QuietTests(w, start, meshEmpty, t);
    var q := QuietTurn(meshEmpty, t, until);
    var w1 := w.(clock := t, phase := Polling);
    var w2 := w1.(phase := Watching);
    assert Next(w, q[0]) == w1 && Next(w1, q[1]) == w2 && Next(w2, q[2]) == w.(clock := until, cycleStart := until);
    ThreeEvents(G, w, q);
  }

  /** A run to an opening that waits, continued by a quiet turn. */
  lemma QuietAfter(G: nat, run: seq<Event>, w: World, start: nat, meshEmpty: bool, t: nat, until: nat)
    returns (longer: seq<Event>)
    requires Possible(G, ClosedAtBoot(), run) && After(G, ClosedAtBoot(), run) == w
    requires Waiting(w, start) && w.clock <= t <= until <= w.cycleStart + G
    requires Elapsed(Millis(t), Millis(start)) <= MOTOR_TIMEOUT_MS
    requires meshEmpty ==> t <= STANDALONE_TIMEOUT_MS
    ensures Possible(G, ClosedAtBoot(), longer)
    ensures After(G, ClosedAtBoot(), longer) == w.(clock := until, cycleStart := until)
  {
    hide Possible, After, ClosedAtBoot, QuietTurn;
    Quiet(G, w, start, meshEmpty, t, until);
    PossibleConcat(G, ClosedAtBoot(), run, QuietTurn(meshEmpty, t, until));
    longer := run + QuietTurn(meshEmpty, t, until);
  }

  lemma OpenCommandAccepted()
    ensures |OPEN_COMMAND| <= 2 * (HEADER + PAYLOAD_MAX + 2)
    ensures var r := Accept(Address(ID_STEP, false), OPEN_COMMAND);
            r.Some? && r.value[0] == MSG_COMMAND && r.value[4] == ACTION_OPEN
  {
    hide Crc, Accept;
    RoundTripOnTheWire(Address(ID_STEP, false), MSG_COMMAND, 0x0B, ID_STEP, 0, [ACTION_OPEN, 0]);
    var f := Accept(Address(ID_STEP, false), OPEN_COMMAND).value;
    assert f[4] == Payload(f)[0];
  }

  /** An open command received at 0, its motor started at `start`, in the first turn. */
  lemma OpensLate(G: nat, start: nat) returns (run: seq<Event>, w: World)
    requires start <= G
    ensures Possible(G, ClosedAtBoot(), run) && After(G, ClosedAtBoot(), run) == w
    ensures Waiting(w, start) && w.clock == start && w.cycleStart == 0
  {
    hide Accept, SendFrame, EnterState;
    OpenCommandAccepted();
    var b := ClosedAtBoot();
    var e := Event.Text(1, OPEN_COMMAND, 0, 0, start, DARK);
    var m := MeshState(STEP_NODE, 0, false, false, false, 0, 0, HEARTBEAT_MS, 0, []);
    SendShape(m, 0, ID_BROADCAST, MSG_REGISTER, RegisterPayload(STEP_NODE, false), true);
    var c1 := b.c.(mesh := Received(b.c.mesh, 1, OPEN_COMMAND, 0));
    EnterShape(c1.(motor := Started(c1.motor, DirOpen, Millis(start))), Opening, DARK);
    OneEvent(G, b, e);
    run, w := [e], Next(b, e);
  }

  /** The mesh check at 30001 ms enters STANDALONE, with the motor as it was. */
  lemma GoesAlone(G: nat, w: World, start: nat)
    requires Waiting(w, start) && w.clock <= 30001 <= w.cycleStart + G
    ensures var e := Check(true, 0, 30001, DARK, DARK);
            && Enabled(G, w, e)
            && Next(w, e) == w.(c := Next(w, e).c, clock := 30001, phase := Polling)
            && Next(w, e).c == w.c.(state := Standalone, mesh := Next(w, e).c.mesh)
            && Next(w, e).c.mesh.who == w.c.mesh.who
  {
    hide EnterState, SendStatus;
    ElapsedIsTrueTime(30001, 0);
    EnterShape(w.c.(mesh := Alone(w.c.mesh)), Standalone, DARK);
  }

  // ── Standalone with the motor on ───────────────────────────────────────────

  /** Turns of 6667 ms are too slow: the mesh falls silent during an opening, and the
      standalone test comes before the watchdog. */
  lemma TooSlow() returns (run: seq<Event>, w: World)
    ensures Possible(6667, ClosedAtBoot(), run) && After(6667, ClosedAtBoot(), run) == w
    ensures Waiting(w, 6667)
    ensures var e := Check(true, 0, 30001, DARK, DARK);
            Enabled(6667, w, e) && Next(w, e).c.state == Standalone && Next(w, e).c.motor.running
  {
    hide Next, Enabled, ClosedAtBoot, Possible, After;
    run, w := OpensLate(6667, 6667);
    run := QuietAfter(6667, run, w, 6667, true, 6667, 6667);
    w := w.(clock := 6667, cycleStart := 6667);
    run := QuietAfter(6667, run, w, 6667, true, 13334, 13334);
    w := w.(clock := 13334, cycleStart := 13334);
    run := QuietAfter(6667, run, w, 6667, true, 16667, 16667);
    w := w.(clock := 16667, cycleStart := 16667);
    run := QuietAfter(6667, run, w, 6667, true, 16667, 23334);
    w := w.(clock := 23334, cycleStart := 23334);
    GoesAlone(6667, w, 6667);
  }

  /** In no run is STANDALONE entered with the motor powered. */
  ghost predicate NeverAlonePowered(G: nat) {
    forall w: World :: Reachable(G, w) ==> !(w.c.state == Standalone && w.c.motor.running)
  }

  /** STANDALONE is never entered with the motor powered exactly when ten seconds of watchdog
      and three turns of the loop fit into the standalone timeout. */
  lemma NeverAlonePoweredIff(G: nat)
    ensures NeverAlonePowered(G) <==> MOTOR_TIMEOUT_MS + 3 * G <= STANDALONE_TIMEOUT_MS
  {
    hide Reachable, Possible, After, Next, Enabled, Inv, ClosedAtBoot;
    if QuickTurns(G) {
      forall w: World | Reachable(G, w)
        ensures !(w.c.state == Standalone && w.c.motor.running)
      {
        MotorRunsExactlyWhenMoving(G, w);
      }
    } else {
      var run, w := TooSlow();
      var e := Check(true, 0, 30001, DARK, DARK);
      OneEvent(6667, w, e);
      PossibleConcat(6667, ClosedAtBoot(), run, [e]);
      BootsClosed();
      SlowerIsPossible(6667, G, ClosedAtBoot(), run + [e]);
      WitnessReached(G, ClosedAtBoot(), run + [e]);
    }
  }

  /** In every run every step follows the state graph the code means to have. */
  ghost predicate FollowsEdges(G: nat) {
    forall w: World, e: Event :: Reachable(G, w) && Enabled(G, w, e) ==> Edges(w.c.state, Next(w, e).c.state)
  }

  /** The same condition decides whether the state graph holds. */
  lemma FollowsEdgesIff(G: nat)
    ensures FollowsEdges(G) <==> MOTOR_TIMEOUT_MS + 3 * G <= STANDALONE_TIMEOUT_MS
  {
    hide Reachable, Possible, After, Next, ClosedAtBoot;
    if QuickTurns(G) {
      forall w: World, e: Event | Reachable(G, w) && Enabled(G, w, e)
        ensures Edges(w.c.state, Next(w, e).c.state)
      {
        OnlyTheseEdges(G, w, e);
      }
    } else {
      var run, w := TooSlow();
      BootsClosed();
      SlowerIsPossible(6667, G, ClosedAtBoot(), run);
      WitnessReached(G, ClosedAtBoot(), run);
      assert Enabled(G, w, Check(true, 0, 30001, DARK, DARK));
    }
  }

  // ── The bridge under the key ───────────────────────────────────────────────

  const KEY_ON_TEXT: string := Wire.Text(MSG_KEY_ON, ID_MASTER, ID_BROADCAST, 0, [])

  /** Standalone, the bridge driving open since 20001. */
  predicate DrivingAlone(w: World) {
    && w.c.state == Standalone && w.c.motor.running && w.c.motor.pins == Bridge(true, false, true)
    && w.c.motor.startMs == 20001 && w.c.mesh.who.address == Address(ID_STEP, false)
    && !w.c.fcClosedPrev && !w.c.fcOpenPrev
  }

  /** Ten seconds are not yet over at 30001: end stops and watchdog leave the motor on. */
  lemma DrivesOn(w: World)
    requires DrivingAlone(w)
    ensures CheckEndstops(w.c, false, false, 30001, 30001, DARK) == w.c
    ensures CheckMotorTimeout(w.c, 30001, 30001, DARK) == w.c
  {
    hide EnterState;
  }

  predicate SaysKeyOn(raw: string) {
    |raw| <= 2 * (HEADER + PAYLOAD_MAX + 2) && IsKeyOn(raw)
  }

  lemma KeyOnAccepted()
    ensures SaysKeyOn(KEY_ON_TEXT)
  {
    hide Crc, Accept;
    RoundTripOnTheWire(Address(ID_STEP, false), MSG_KEY_ON, ID_MASTER, ID_BROADCAST, 0, []);
  }

  lemma KeyOnIgnored(w: World, raw: string)
    requires DrivingAlone(w) && SaysKeyOn(raw)
    ensures var c := Deliver(w.c, 1, raw, w.descriptor, 30001, 30001, 30001, DARK);
            c.mesh.keyOn && c.motor == w.c.motor
  {
    hide Accept, EnterState;
  }

  /** And so does KEY_ON. */
  lemma KeyOnTooLate(w: World, raw: string) returns (run: seq<Event>)
    requires w.phase == Polling && w.clock == 30001 && w.cycleStart == 20001 && DrivingAlone(w) && SaysKeyOn(raw)
    ensures Possible(20001, w, run)
    ensures var c := After(20001, w, run).c;
            c.mesh.keyOn && c.motor.pins.Drives(DirOpen)
  {
    hide Deliver, CheckEndstops, CheckMotorTimeout, Accept, Possible, After;
    DrivesOn(w);
    var w1 := w.(phase := Watching);
    var w2 := w.(phase := Receiving, cycleStart := 30001);
    KeyOnIgnored(w2, raw);
    run := [Endstops(false, false, 30001, 30001, DARK), Watchdog(30001, 30001, 30001, DARK),
            Event.Text(1, raw, 30001, 30001, 30001, DARK)];
    assert Next(w, run[0]) == w1 && Next(w1, run[1]) == w2;
    ThreeEvents(20001, w, run);
  }

  lemma KeyedTooSlow() returns (run: seq<Event>)
    ensures Possible(20001, ClosedAtBoot(), run)
    ensures var c := After(20001, ClosedAtBoot(), run).c;
            c.mesh.keyOn && c.motor.pins.Drives(DirOpen)
  {
    hide Next, Enabled, ClosedAtBoot, Possible, After, SaysKeyOn;
    var w;
    run, w := OpensLate(20001, 20001);
    run := QuietAfter(20001, run, w, 20001, true, 20001, 20001);
    w := w.(clock := 20001, cycleStart := 20001);
    var e := Check(true, 0, 30001, DARK, DARK);
    GoesAlone(20001, w, 20001);
    OneEvent(20001, w, e);
    PossibleConcat(20001, ClosedAtBoot(), run, [e]);
    KeyOnAccepted();
    var rest := KeyOnTooLate(Next(w, e), KEY_ON_TEXT);
    PossibleConcat(20001, ClosedAtBoot(), run + [e], rest);
    run := run + [e] + rest;
  }

  /** In no run does the bridge drive the motor in the opening direction with the key on. */
  ghost predicate KeyHoldsBridge(G: nat) {
    forall w: World :: Reachable(G, w) ==> !(w.c.mesh.keyOn && w.c.motor.pins.Drives(DirOpen))
  }

  /** The key keeps the bridge from opening exactly when ten seconds of watchdog and one turn
      of the loop fit into the standalone timeout. */
  lemma KeyHoldsBridgeIff(G: nat)
    ensures KeyHoldsBridge(G) <==> MOTOR_TIMEOUT_MS + G <= STANDALONE_TIMEOUT_MS
  {
    hide Reachable, Possible, After, ClosedAtBoot;
    if Prompt(G) {
      forall w: World | Reachable(G, w)
        ensures !(w.c.mesh.keyOn && w.c.motor.pins.Drives(DirOpen))
      {
        KeyBridgeSafe(G, w);
      }
    } else {
      var run := KeyedTooSlow();
      BootsClosed();
      SlowerIsPossible(20001, G, ClosedAtBoot(), run);
      WitnessReached(G, ClosedAtBoot(), run);
    }
  }

  // ── The watchdog against the clock's wrap ──────────────────────────────────

  /** With turns so long that a full turn of the clock fits between two looks of the watchdog,
      a motor that no end stop stops may stay on for as many turns of the clock as one likes. */
  lemma {:induction false} StaysOn(G: nat, k: nat) returns (run: seq<Event>, w: World)
    requires !NoWrap(G)
    ensures Possible(G, ClosedAtBoot(), run) && After(G, ClosedAtBoot(), run) == w
    ensures Waiting(w, 0) && w.clock == w.cycleStart == k * WRAP
    decreases k
  {
    hide Next, Enabled, ClosedAtBoot, Possible, After;
    if k == 0 {
      run, w := OpensLate(G, 0);
    } else {
      run, w := StaysOn(G, k - 1);
      var t := (k - 1) * WRAP;
      var until := t + MOTOR_TIMEOUT_MS + (if G < WRAP - MOTOR_TIMEOUT_MS then G else WRAP - MOTOR_TIMEOUT_MS);
      Turns(k - 1);
      Turns(k);
      run := QuietAfter(G, run, w, 0, false, t, t + MOTOR_TIMEOUT_MS);
      w := w.(clock := t + MOTOR_TIMEOUT_MS, cycleStart := t + MOTOR_TIMEOUT_MS);
      run := QuietAfter(G, run, w, 0, false, t + MOTOR_TIMEOUT_MS, until);
      w := w.(clock := until, cycleStart := until);
      run := QuietAfter(G, run, w, 0, false, k * WRAP, k * WRAP);
      w := w.(clock := k * WRAP, cycleStart := k * WRAP);
    }
  }

  lemma Turns(k: nat)
    ensures Millis(k * WRAP) == 0 && Millis(k * WRAP + MOTOR_TIMEOUT_MS) == MOTOR_TIMEOUT_MS
  {
  }

  /** In every run every powering ends within ten seconds and two turns of the loop. */
  ghost predicate BoundedPowering(G: nat) {
    forall w: World :: Reachable(G, w) && w.c.motor.running ==> w.clock <= w.startAt + MOTOR_TIMEOUT_MS + 2 * G
  }

  /** The bound on powering holds exactly while the watchdog's 32-bit difference cannot wrap. */
  lemma BoundedPoweringIff(G: nat)
    ensures BoundedPowering(G) <==> MOTOR_TIMEOUT_MS + 2 * G < WRAP
  {
    hide Reachable, Possible, After, ClosedAtBoot;
    if NoWrap(G) {
      forall w: World | Reachable(G, w) && w.c.motor.running
        ensures w.clock <= w.startAt + MOTOR_TIMEOUT_MS + 2 * G
      {
        PoweringIsBounded(G, w);
      }
    } else {
      var k := MOTOR_TIMEOUT_MS + 2 * G + 1;
      var run, w := StaysOn(G, k);
      BootsClosed();
      WitnessReached(G, ClosedAtBoot(), run);
      assert k * WRAP > MOTOR_TIMEOUT_MS + 2 * G;
    }
  }
}
