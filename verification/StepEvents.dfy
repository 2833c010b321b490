/** What each event of the loop does to a STEP node in any run, and what it makes it say: the
    whole new state, told from the event and the old state alone, for any turn length. */
module StepEvents {
  import opened Clock
  import opened Crc8
  import opened Hex
  import opened Wire
  import opened Motor
  import opened Mesh
  import opened MeshTheorems
  import opened Step
  import opened StepSafety
  import opened StepRuns
  import opened StepTheorems

  // ── Reports ────────────────────────────────────────────────────────────────

  /** The number of a state on the wire. */
  function Code(s: StepState): nat {
    match s
    case Initializing => 0 case Closed => 1 case Open => 2 case Opening => 3
    case Closing => 4 case AutoClosing => 5 case Error => 6 case Standalone => 7
  }

  /** A status report, field by field: state, end stops, error, the low sixteen bits of the
      last duration, padding, climate. */
  lemma StatusLayout(s: StepState, lastMoveMs: uint32, r: Readings)
    ensures var p := StatusPayload(s, lastMoveMs, r);
            && |p| == 7 + |r.climate| && Value(p[0]) == Code(s)
            && (p[1] == if r.fcClosed then 1 else 0) && (p[2] == if r.fcOpen then 1 else 0)
            && (p[3] == if s == Error then 1 else 0)
            && Value(p[4]) + 256 * Value(p[5]) == lastMoveMs % 65536
            && p[6] == 0 && p[7..] == r.climate
  {
    hide Value, StateByte, Code;
    StateNumber(s);
    ByteValue(lastMoveMs % 256);
    ByteValue(lastMoveMs / 256 % 256);
    TwoBytes(lastMoveMs);
  }

  lemma StateNumber(s: StepState)
    ensures Value(StateByte(s)) == Code(s)
  {
  }

  lemma ByteValue(x: nat)
    requires x < 256
    ensures Value(x as byte) == x
  {
  }

  lemma TwoBytes(x: nat)
    ensures x % 256 + 256 * (x / 256 % 256) == x % 65536
  {
    var high, middle, low := x / 256 / 256, x / 256 % 256, x % 256;
    assert x == 65536 * high + (256 * middle + low);
    Remainder(high, 256 * middle + low);
  }

  lemma Remainder(q: nat, r: nat)
    requires r < 65536
    ensures (65536 * q + r) % 65536 == r
  {
  }

  /** What entering a state says: MSG_STEP_OPEN with the key flag to all if it is OPEN, and the
      status to the ROOT. */
  function Report(s: StepState, keyOn: bool, lastMoveMs: uint32, r: Readings): seq<Saying> {
    (if s == Open then [ToAll(0x13, [0, if keyOn then 1 else 0, 0])] else [])
    + [ToRoot(0x06, StatusPayload(s, lastMoveMs, r))]
  }

  lemma StatusSays(m: MeshState, c: Ctl, says: seq<Saying>, r: Readings)
    requires Says(m, c.mesh, says)
    ensures var d := SendStatus(c, r);
            && d == c.(mesh := d.mesh) && SameButLog(c.mesh, d.mesh)
            && Says(m, d.mesh, says + [ToRoot(0x06, StatusPayload(c.state, c.motor.lastMoveMs, r))])
  {
    hide Says, SendFrame, StatusPayload;
    SendShape(c.mesh, c.mesh.rootMeshId, ID_MASTER, MSG_HEARTBEAT, StatusPayload(c.state, c.motor.lastMoveMs, r), false);
    SaysMore(m, c.mesh, says, ToRoot(0x06, StatusPayload(c.state, c.motor.lastMoveMs, r)));
  }

  lemma EnterSays(m: MeshState, c: Ctl, says: seq<Saying>, s: StepState, r: Readings)
    requires Says(m, c.mesh, says)
    ensures var d := EnterState(c, s, r);
            && d == c.(state := s, mesh := d.mesh) && SameButLog(c.mesh, d.mesh)
            && Says(m, d.mesh, says + Report(s, c.mesh.keyOn, c.motor.lastMoveMs, r))
  {
    hide Says, SendFrame, SendStatus, StatusPayload;
    var c1 := c.(state := s);
    var more := Report(s, c.mesh.keyOn, c.motor.lastMoveMs, r);
    if s == Open {
      var x := ToAll(0x13, [0, if c.mesh.keyOn then 1 else 0, 0]);
      SaysMore(m, c1.mesh, says, x);
      SendShape(c1.mesh, 0, ID_BROADCAST, MSG_STEP_OPEN, OpenPayload(c1.mesh.keyOn), true);
      StatusSays(m, c1.(mesh := SendBroadcast(c1.mesh, 0x13, x.payload)), says + [x], r);
      assert says + more == says + [x] + [more[1]];
    } else {
      StatusSays(m, c1, says, r);
      assert says + more == says + [more[0]];
    }
  }

  lemma EnterSaysOnly(c: Ctl, s: StepState, r: Readings)
    ensures var d := EnterState(c, s, r);
            && d == c.(state := s, mesh := d.mesh) && SameButLog(c.mesh, d.mesh)
            && Says(c.mesh, d.mesh, Report(s, c.mesh.keyOn, c.motor.lastMoveMs, r))
  {
    hide Says, EnterState, Report;
    SaysNothing(c.mesh, c.mesh);
    EnterSays(c.mesh, c, [], s, r);
    assert [] + Report(s, c.mesh.keyOn, c.motor.lastMoveMs, r) == Report(s, c.mesh.keyOn, c.motor.lastMoveMs, r);
  }

  // ── Texts ──────────────────────────────────────────────────────────────────

  const ME: Address := Address(ID_STEP, false)

  /** A text the STEP accepts as a message of this type. */
  predicate IsA(raw: string, msgType: byte) {
    Accept(ME, raw).Some? && Accept(ME, raw).value[0] == msgType
  }

  /** The first payload byte of an accepted text; of an empty payload, the CRC byte. */
  function Action(raw: string): byte
    requires Accept(ME, raw).Some?
  {
    Accept(ME, raw).value[4]
  }

  lemma ReachableAddress(G: nat, w: World)
    requires Reachable(G, w)
    ensures Sound(w.c) && w.c.mesh.who.address == ME
  {
    hide Reachable, Sound;
    ReachableSound(G, w);
    StepAddress(w.c);
  }

  /** A registration acknowledgement: its sender is the ROOT from now on, the node registered;
      it answers with its descriptor and the state it is in. */
  lemma AckDoes(G: nat, w: World, e: Event)
    requires Reachable(G, w) && Enabled(G, w, e)
    ensures var c, d := w.c, Next(w, e).c;
            e.Text? && IsA(e.raw, 0x09) ==>
              && d == c.(mesh := d.mesh)
              && d.mesh == c.mesh.(lastActivity := Millis(e.at), rootMeshId := e.from, registered := true,
                                   seqNum := d.mesh.seqNum, log := d.mesh.log)
              && Says(c.mesh, d.mesh, [ToRoot(0x07, w.descriptor)] + Report(c.state, c.mesh.keyOn, c.motor.lastMoveMs, e.r))
  {
    hide Reachable, Sound, Says, Report, Accept, EnterState, SendFrame, MeshCheck, CheckEndstops, CheckMotorTimeout, Reconnected;
    ReachableAddress(G, w);
    if e.Text? && IsA(e.raw, 0x09) {
      var m1 := Received(w.c.mesh, e.from, e.raw, Millis(e.at));
      SayingStarts(w.c.mesh, m1);
      SaysMore(w.c.mesh, m1, [], ToRoot(0x07, w.descriptor));
      assert [] + [ToRoot(0x07, w.descriptor)] == [ToRoot(0x07, w.descriptor)];
      SendShape(m1, m1.rootMeshId, ID_MASTER, MSG_DESCRIPTOR, w.descriptor, false);
      EnterSays(w.c.mesh, w.c.(mesh := SendToRoot(m1, 0x07, w.descriptor)), [ToRoot(0x07, w.descriptor)], w.c.state, e.r);
    }
  }

  /** Nothing said yet, whatever else changed. */
  lemma SayingStarts(m: MeshState, n: MeshState)
    requires n.who == m.who && n.seqNum == m.seqNum && n.log == m.log
    ensures Says(m, n, [])
  {
    SaysNothing(m, n);
  }

  /** KEY_ON: the key flag is set; an open or opening step stops, starts closing and reports
      AUTO_CLOSING; any other does nothing more. */
  lemma KeyOnDoes(G: nat, w: World, e: Event)
    requires Reachable(G, w) && Enabled(G, w, e)
    ensures var c, d := w.c, Next(w, e).c;
            e.Text? && IsA(e.raw, 0x11) ==>
              var moves := c.state == Open || c.state == Opening;
              && d == c.(state := if moves then AutoClosing else c.state, motor := d.motor, mesh := d.mesh)
              && d.mesh == c.mesh.(lastActivity := Millis(e.at), keyOn := true, seqNum := d.mesh.seqNum, log := d.mesh.log)
              && d.motor == (if !moves then c.motor else
                   MotorState(Bridge(false, true, true), true, Millis(e.startAt), Elapsed(Millis(e.stopAt), c.motor.startMs),
                              c.motor.ops + [Stop, Start(DirClose)]))
              && Says(c.mesh, d.mesh, if moves then Report(AutoClosing, true, d.motor.lastMoveMs, e.r) else [])
  {
    hide Reachable, Sound, Says, Report, Accept, EnterState, SendFrame, MeshCheck, CheckEndstops, CheckMotorTimeout, Reconnected;
    ReachableAddress(G, w);
    if e.Text? && IsA(e.raw, 0x11) {
      var c1 := w.c.(mesh := Received(w.c.mesh, e.from, e.raw, Millis(e.at)));
      SayingStarts(w.c.mesh, c1.mesh);
      var m := Started(Stopped(c1.motor, Millis(e.stopAt)), DirClose, Millis(e.startAt));
      assert m.ops == w.c.motor.ops + [Stop, Start(DirClose)];
      EnterSays(w.c.mesh, c1.(motor := m), [], AutoClosing, e.r);
      NothingFirst(Report(AutoClosing, true, m.lastMoveMs, e.r));
    }
  }

  lemma NothingFirst(says: seq<Saying>)
    ensures [] + says == says
  {
  }

  /** A command: OPEN starts the opening exactly if the step is CLOSED and the key off, CLOSE the
      closing exactly if it is OPEN and the key off; nothing else moves, and GET_STATUS is
      answered, key or no key, with one status to the ROOT. */
  lemma CommandIff(G: nat, w: World, e: Event)
    requires Reachable(G, w) && Enabled(G, w, e)
    ensures var c, d := w.c, Next(w, e).c;
            e.Text? && IsA(e.raw, 0x01) ==>
              var action := Action(e.raw);
              var opens := action == 0x01 && !c.mesh.keyOn && c.state == Closed;
              var closes := action == 0x02 && !c.mesh.keyOn && c.state == Open;
              && (StartedBetween(c, d) && d.state == Opening && d.motor.pins.Drives(DirOpen) <==> opens)
              && (StartedBetween(c, d) && d.state == Closing && d.motor.pins.Drives(DirClose) <==> closes)
              && (!opens && !closes ==> d.motor == c.motor && d.state == c.state)
              && (opens ==> d.motor == MotorState(Bridge(true, false, true), true, Millis(e.startAt), c.motor.lastMoveMs,
                                                  c.motor.ops + [Start(DirOpen)]))
              && (closes ==> d.motor == MotorState(Bridge(false, true, true), true, Millis(e.startAt), c.motor.lastMoveMs,
                                                   c.motor.ops + [Start(DirClose)]))
              && d == c.(state := d.state, motor := d.motor, mesh := d.mesh)
              && d.mesh == c.mesh.(lastActivity := Millis(e.at), seqNum := d.mesh.seqNum, log := d.mesh.log)
              && Says(c.mesh, d.mesh, if opens || closes then Report(d.state, false, c.motor.lastMoveMs, e.r)
                                      else if action == 0x0F then [ToRoot(0x06, StatusPayload(c.state, c.motor.lastMoveMs, e.r))]
                                      else [])
  {
    hide Reachable, Sound, Says, Report, Accept, EnterState, SendStatus, SendFrame, StatusPayload,
      MeshCheck, CheckEndstops, CheckMotorTimeout, Reconnected;
    ReachableAddress(G, w);
    if e.Text? && IsA(e.raw, 0x01) {
      var c1 := w.c.(mesh := Received(w.c.mesh, e.from, e.raw, Millis(e.at)));
      SayingStarts(w.c.mesh, c1.mesh);
      EnterSays(w.c.mesh, c1.(motor := Started(c1.motor, DirOpen, Millis(e.startAt))), [], Opening, e.r);
      EnterSays(w.c.mesh, c1.(motor := Started(c1.motor, DirClose, Millis(e.startAt))), [], Closing, e.r);
      StatusSays(w.c.mesh, c1, [], e.r);
      NothingFirst(Report(Opening, false, w.c.motor.lastMoveMs, e.r));
      NothingFirst(Report(Closing, false, w.c.motor.lastMoveMs, e.r));
      NothingFirst([ToRoot(0x06, StatusPayload(w.c.state, w.c.motor.lastMoveMs, e.r))]);
    }
  }

  /** KEY_OFF clears the key flag; any other text, accepted or not, only counts as activity. */
  lemma OtherTextsDo(G: nat, w: World, e: Event)
    requires Reachable(G, w) && Enabled(G, w, e)
    ensures var c, d := w.c, Next(w, e).c;
            e.Text? && !IsA(e.raw, 0x01) && !IsA(e.raw, 0x09) && !IsA(e.raw, 0x11) ==>
              d == c.(mesh := c.mesh.(lastActivity := Millis(e.at), keyOn := c.mesh.keyOn && !IsA(e.raw, 0x12)))
  {
    hide Reachable, Sound, Accept, MeshCheck, CheckEndstops, CheckMotorTimeout, Reconnected;
    ReachableAddress(G, w);
  }

  // ── Connections, mesh check ────────────────────────────────────────────────

  /** A change of connections counts as activity, and makes a node that is neither registered
      nor standalone register, without reconnect. */
  lemma ConnectionsDo(G: nat, w: World, e: Event)
    requires Reachable(G, w) && Enabled(G, w, e)
    ensures var c, d := w.c, Next(w, e).c;
            e.Connections? ==>
              && d == c.(mesh := d.mesh)
              && d.mesh == c.mesh.(lastActivity := Millis(e.at), seqNum := d.mesh.seqNum, log := d.mesh.log)
              && Says(c.mesh, d.mesh, if !c.mesh.registered && !c.mesh.standalone
                                      then [ToAll(0x05, RegisterPayload(c.mesh.who, false))] else [])
  {
    hide Reachable, Sound, Says, RegisterPayload, SendFrame, Deliver, MeshCheck, CheckEndstops, CheckMotorTimeout;
    ReachableAddress(G, w);
    if e.Connections? {
      var m1 := w.c.mesh.(lastActivity := Millis(e.at));
      SayingStarts(w.c.mesh, m1);
      SaysMore(w.c.mesh, m1, [], ToAll(0x05, RegisterPayload(m1.who, false)));
      NothingFirst([ToAll(0x05, RegisterPayload(m1.who, false))]);
      SendShape(m1, 0, ID_BROADCAST, MSG_REGISTER, RegisterPayload(m1.who, false), true);
    }
  }

  /** The mesh check: a heartbeat is due exactly for a registered node whose interval is over, and
      then the interval starts anew; STANDALONE is entered exactly after more than 30 s without
      activity on an empty mesh; the mesh coming back ends it with a registration with reconnect
      and a report of the unchanged state. */
  lemma CheckDoes(G: nat, w: World, e: Event)
    requires Reachable(G, w) && Enabled(G, w, e)
    ensures var c, d := w.c, Next(w, e).c;
            e.Check? ==>
              var due := c.mesh.registered && Elapsed(Millis(e.at), c.mesh.lastHeartbeat) >= c.mesh.interval;
              var alone := !c.mesh.standalone && e.meshEmpty && Elapsed(Millis(e.at), c.mesh.lastActivity) > 30000;
              var back := c.mesh.standalone && !e.meshEmpty;
              && d == c.(state := if alone then Standalone else c.state, mesh := d.mesh)
              && d.mesh == c.mesh.(lastHeartbeat := if due then Millis(e.at) else c.mesh.lastHeartbeat,
                                   interval := if due then 5000 + e.jitter else c.mesh.interval,
                                   standalone := alone || (c.mesh.standalone && !back),
                                   registered := c.mesh.registered && !alone,
                                   seqNum := d.mesh.seqNum, log := d.mesh.log)
              && Says(c.mesh, d.mesh,
                   (if due then [ToRoot(0x06, StatusPayload(c.state, c.motor.lastMoveMs, e.beat))] else [])
                   + (if alone then Report(Standalone, c.mesh.keyOn, c.motor.lastMoveMs, e.r)
                      else if back then [ToAll(0x05, RegisterPayload(c.mesh.who, true))]
                                        + Report(c.state, c.mesh.keyOn, c.motor.lastMoveMs, e.r)
                      else []))
  {
    hide Reachable, Sound, Says, Report, RegisterPayload, StatusPayload, SendFrame, SendStatus, EnterState,
      Deliver, CheckEndstops, CheckMotorTimeout, Reconnected;
    ReachableAddress(G, w);
    if e.Check? {
      var c := w.c;
      var b := c.(mesh := HeartbeatNoted(c.mesh, Millis(e.at), e.jitter));
      SayingStarts(c.mesh, c.mesh);
      SayingStarts(c.mesh, b.mesh);
      StatusSays(c.mesh, b, [], e.beat);
      var beat := [ToRoot(0x06, StatusPayload(c.state, c.motor.lastMoveMs, e.beat))];
      NothingFirst(beat);
      var due := HeartbeatDue(c.mesh, Millis(e.at));
      var says := if due then beat else [];
      var c1 := if due then SendStatus(b, e.beat) else c;
      CheckTail(c.mesh, c1, says, e.r);
      assert says + [] == says;
    }
  }

  /** The two changes of the standalone flag, after whatever was said before. */
  lemma CheckTail(m: MeshState, c: Ctl, says: seq<Saying>, r: Readings)
    requires Says(m, c.mesh, says)
    ensures var d := EnterState(c.(mesh := Alone(c.mesh)), Standalone, r);
            && d == c.(state := Standalone, mesh := d.mesh) && SameButLog(Alone(c.mesh), d.mesh)
            && Says(m, d.mesh, says + Report(Standalone, c.mesh.keyOn, c.motor.lastMoveMs, r))
    ensures var d := EnterState(c.(mesh := Back(c.mesh)), c.state, r);
            && d == c.(mesh := d.mesh) && SameButLog(c.mesh.(standalone := false), d.mesh)
            && Says(m, d.mesh, says + ([ToAll(0x05, RegisterPayload(c.mesh.who, true))]
                                       + Report(c.state, c.mesh.keyOn, c.motor.lastMoveMs, r)))
  {
    hide Report, RegisterPayload, SendFrame, EnterState, Emits, Advance, Wire.Text;
    EnterSays(m, c.(mesh := Alone(c.mesh)), says, Standalone, r);
    var n := c.mesh.(standalone := false);
    var x := ToAll(0x05, RegisterPayload(c.mesh.who, true));
    SaysMore(m, n, says, x);
    SendShape(n, 0, ID_BROADCAST, MSG_REGISTER, RegisterPayload(n.who, true), true);
    var more := Report(c.state, c.mesh.keyOn, c.motor.lastMoveMs, r);
    EnterSays(m, c.(mesh := Back(c.mesh)), says + [x], c.state, r);
    assert says + [x] + more == says + ([x] + more);
  }

  // ── End stops, watchdog ────────────────────────────────────────────────────

  /** The motor as a stop leaves it. */
  predicate StoppedAt(m: MotorState, n: MotorState, now: uint32) {
    n == MotorState(Bridge(false, false, false), false, m.startMs, Elapsed(now, m.startMs), m.ops + [Stop])
  }

  /** The poll of the end stops. An edge is a stop active now and not at the last poll, more than
      50 ms after the last accepted edge; one of the closed stop restarts this time for the other.
      A closing step stops and is CLOSED exactly at the edge of the closed stop, an opening one
      stops and is OPEN exactly at that of the open stop; otherwise motor and state stay. */
  lemma EndstopsDo(G: nat, w: World, e: Event)
    requires Reachable(G, w) && Enabled(G, w, e)
    ensures var c, d := w.c, Next(w, e).c;
            e.Endstops? ==>
              var now := Millis(e.at);
              var atClosed := e.fcClosed && !c.fcClosedPrev && Elapsed(now, c.lastFcMs) > 50;
              var atOpen := e.fcOpen && !c.fcOpenPrev && Elapsed(now, c.lastFcMs) > 50 && !atClosed;
              var closes := atClosed && c.state in {Closing, AutoClosing};
              var opens := atOpen && c.state == Opening;
              && (d.state == Closed && d.motor.pins == Bridge(false, false, false) <==> c.state == Closed || closes)
              && (d.state == Open && d.motor.pins == Bridge(false, false, false) <==> c.state == Open || opens)
              && (if closes || opens then StoppedAt(c.motor, d.motor, Millis(e.stopAt))
                  else d.motor == c.motor && d.state == c.state)
              && d == c.(state := d.state, motor := d.motor, mesh := d.mesh, fcClosedPrev := e.fcClosed,
                         fcOpenPrev := e.fcOpen, lastFcMs := if atClosed || atOpen then now else c.lastFcMs)
              && SameButLog(c.mesh, d.mesh)
              && Says(c.mesh, d.mesh, if closes || opens then Report(d.state, c.mesh.keyOn, d.motor.lastMoveMs, e.r) else [])
  {
    hide Reachable, Says, Report, StopsBetween, KeyRespected, SendFrame, EnterState,
      Deliver, MeshCheck, CheckMotorTimeout, Reconnected;
    ReachableAddress(G, w);
    if e.Endstops? {
      SayingStarts(w.c.mesh, w.c.mesh);
      RestingStates(w.c);
      var c1 := w.c.(lastFcMs := Millis(e.at), motor := Stopped(w.c.motor, Millis(e.stopAt)));
      EnterSaysOnly(c1, Closed, e.r);
      EnterSaysOnly(c1, Open, e.r);
    }
  }

  /** While 10000 + 2G stays below a turn of the clock: the watchdog stops the motor, with state
      ERROR and a report of it, exactly if it has been running for more than 10 s of true time. */
  lemma WatchdogIff(G: nat, w: World, e: Event)
    requires NoWrap(G) && Reachable(G, w) && Enabled(G, w, e)
    ensures var c, d := w.c, Next(w, e).c;
            e.Watchdog? ==>
              var late := c.motor.running && e.at - w.startAt > 10000;
              && (if late then StoppedAt(c.motor, d.motor, Millis(e.stopAt)) && d.state == Error else d == c)
              && d == c.(state := d.state, motor := d.motor, mesh := d.mesh) && SameButLog(c.mesh, d.mesh)
              && Says(c.mesh, d.mesh, if late then Report(Error, c.mesh.keyOn, d.motor.lastMoveMs, e.r) else [])
  {
    hide Reachable, Sound, Says, Report, SendFrame, EnterState, Deliver, MeshCheck, CheckEndstops, Reconnected;
    ReachableInv(G, w);
    if e.Watchdog? {
      SayingStarts(w.c.mesh, w.c.mesh);
      EnterSaysOnly(w.c.(motor := Stopped(w.c.motor, Millis(e.stopAt))), Error, e.r);
      if w.c.motor.running {
        ElapsedIsTrueTime(e.at, w.startAt);
      }
    }
  }

  /** What a stop records is the true time since the start. */
  lemma DurationIsTrue(m: MotorState, d: Dir, start: nat, stop: nat)
    requires start <= stop < start + WRAP
    ensures Stopped(Started(m, d, Millis(start)), Millis(stop)).lastMoveMs == stop - start
  {
    ElapsedIsTrueTime(stop, start);
  }

  // ── Boot ───────────────────────────────────────────────────────────────────

  /** After `setup`: CLOSED if the closed stop is active and OPEN otherwise, the motor off
      whatever the pins were, no key, not registered, and one thing said: a registration without
      reconnect. */
  lemma BootDoes(w: World, who: Identity, pins: Bridge, fcClosed: bool, stopAt: nat, at: nat, jitter: uint32)
    requires BootedWith(w, who, pins, fcClosed, stopAt, at, jitter)
    ensures var c := w.c;
            && c.state == (if fcClosed then Closed else Open)
            && c.motor.pins == Bridge(false, false, false) && !c.motor.running && c.motor.ops == [Stop]
            && !c.mesh.keyOn && !c.mesh.registered && !c.mesh.standalone && c.mesh.rootMeshId == 0
            && c.mesh.lastActivity == Millis(at) && c.mesh.interval == 5000 + jitter
            && !c.fcClosedPrev && !c.fcOpenPrev && c.lastFcMs == 0
            && c.mesh.seqNum == 1 && c.mesh.log == [Broadcast(Wire.Text(0x05, 0x02, 0xFF, 0, RegisterPayload(who, false)))]
  {
    hide RegisterPayload, Wire.Text;
  }
}
