/** To whom a STEP node answers, over every run from boot. */
module StepRegistration {
  import opened Clock
  import opened Crc8
  import opened Hex
  import opened Wire
  import opened Motor
  import opened Mesh
  import opened MeshTheorems
  import opened Step
  import opened StepSafety
  import opened StepRuns
  import opened StepTheorems
  import opened StepEvents

  predicate IsAck(e: Event) {
    e.Text? && IsA(e.raw, 0x09)
  }

  /** The sender of the last accepted acknowledgement. */
  function RootHeard(root: nat, run: seq<Event>): nat {
    if run == [] then root
    else if IsAck(run[|run| - 1]) then run[|run| - 1].from
    else RootHeard(root, run[..|run| - 1])
  }

  predicate EntersStandalone(w: World, e: Event)
    requires e.Check? ==> e.jitter < HEARTBEAT_JITTER_MS
  {
    !w.c.mesh.standalone && Next(w, e).c.mesh.standalone
  }

  /** An acknowledgement was accepted since the run began, or since STANDALONE was last entered. */
  ghost predicate AckedSince(G: nat, w: World, flag: bool, run: seq<Event>)
    requires Possible(G, w, run)
    decreases |run|
  {
    if run == [] then flag
    else
      var now := if IsAck(run[0]) then true else flag && !EntersStandalone(w, run[0]);
      AckedSince(G, Next(w, run[0]), now, run[1..])
  }

  // ── One event ──────────────────────────────────────────────────────────────

  /** What any event makes of the registration, and that it says something, if only nothing. */
  lemma EventRegisters(G: nat, w: World, e: Event) returns (says: seq<Saying>)
    requires Reachable(G, w) && Enabled(G, w, e)
    ensures var m, n := w.c.mesh, Next(w, e).c.mesh;
            && n.rootMeshId == (if IsAck(e) then e.from else m.rootMeshId)
            && n.registered == (if IsAck(e) then true else m.registered && !EntersStandalone(w, e))
            && Says(m, n, says)
  {
    hide Reachable, Next, Says, IsA, Report;
    OnlyJitter(G, w, e);
    match e
    case Text(_, raw, _, _, _, _) => says := TextRegisters(G, w, e);
    case Connections(_) =>
      ConnectionsDo(G, w, e);
      says := if !w.c.mesh.registered && !w.c.mesh.standalone then [ToAll(0x05, RegisterPayload(w.c.mesh.who, false))] else [];
    case Check(_, _, _, _, _) =>
      CheckDoes(G, w, e);
      says := CheckSaying(w, e);
    case Endstops(_, _, _, _, _) =>
      EndstopsDo(G, w, e);
      var d := Next(w, e).c;
      says :| says in {[], Report(d.state, w.c.mesh.keyOn, d.motor.lastMoveMs, e.r)} && Says(w.c.mesh, d.mesh, says);
    case Watchdog(_, _, _, _) => says := WatchdogRegisters(G, w, e);
  }

  lemma OnlyJitter(G: nat, w: World, e: Event)
    requires Enabled(G, w, e)
    ensures e.Check? ==> e.jitter < HEARTBEAT_JITTER_MS
  {
  }

  function CheckSaying(w: World, e: Event): seq<Saying>
    requires e.Check?
  {
    var c := w.c;
    var due := c.mesh.registered && Elapsed(Millis(e.at), c.mesh.lastHeartbeat) >= c.mesh.interval;
    var alone := !c.mesh.standalone && e.meshEmpty && Elapsed(Millis(e.at), c.mesh.lastActivity) > 30000;
    var back := c.mesh.standalone && !e.meshEmpty;
    (if due then [ToRoot(0x06, StatusPayload(c.state, c.motor.lastMoveMs, e.beat))] else [])
    + (if alone then Report(Standalone, c.mesh.keyOn, c.motor.lastMoveMs, e.r)
       else if back then [ToAll(0x05, RegisterPayload(c.mesh.who, true))]
                         + Report(c.state, c.mesh.keyOn, c.motor.lastMoveMs, e.r)
       else [])
  }

  lemma TextRegisters(G: nat, w: World, e: Event) returns (says: seq<Saying>)
    requires Reachable(G, w) && Enabled(G, w, e) && e.Text?
    ensures var m, n := w.c.mesh, Next(w, e).c.mesh;
            && n.rootMeshId == (if IsAck(e) then e.from else m.rootMeshId)
            && n.registered == (IsAck(e) || m.registered) && n.standalone == m.standalone
            && Says(m, n, says)
  {
    hide Reachable, Next, Says, IsA, Report;
    OneType(e.raw);
    var d := Next(w, e).c;
    if IsA(e.raw, 0x09) {
      AckDoes(G, w, e);
      says := [ToRoot(0x07, w.descriptor)] + Report(w.c.state, w.c.mesh.keyOn, w.c.motor.lastMoveMs, e.r);
    } else if IsA(e.raw, 0x11) {
      KeyOnDoes(G, w, e);
      says := if w.c.state == Open || w.c.state == Opening then Report(AutoClosing, true, d.motor.lastMoveMs, e.r) else [];
    } else if IsA(e.raw, 0x01) {
      CommandIff(G, w, e);
      says :| says in {Report(d.state, false, w.c.motor.lastMoveMs, e.r),
                       [ToRoot(0x06, StatusPayload(w.c.state, w.c.motor.lastMoveMs, e.r))], []}
              && Says(w.c.mesh, d.mesh, says);
    } else {
      OtherTextsDo(G, w, e);
      SaysNothing(w.c.mesh, d.mesh);
      says := [];
    }
  }

  lemma OneType(raw: string)
    ensures IsA(raw, 0x09) ==> !IsA(raw, 0x11) && !IsA(raw, 0x01)
    ensures IsA(raw, 0x11) ==> !IsA(raw, 0x01)
  {
    hide Accept;
  }

  lemma WatchdogRegisters(G: nat, w: World, e: Event) returns (says: seq<Saying>)
    requires Reachable(G, w) && Enabled(G, w, e) && e.Watchdog?
    ensures var m, n := w.c.mesh, Next(w, e).c.mesh;
            n.rootMeshId == m.rootMeshId && n.registered == m.registered && n.standalone == m.standalone && Says(m, n, says)
  {
    hide Reachable, Says, Report, EnterState, SendFrame;
    var now := Millis(e.stopAt);
    EnterSaysOnly(w.c.(motor := Stopped(w.c.motor, now)), Error, e.r);
    SaysNothing(w.c.mesh, w.c.mesh);
    says := if Overdue(w.c, Millis(e.at)) then Report(Error, w.c.mesh.keyOn, Stopped(w.c.motor, now).lastMoveMs, e.r) else [];
  }

  // ── Runs ───────────────────────────────────────────────────────────────────

  lemma ReachableNext(G: nat, w: World, e: Event)
    requires Reachable(G, w) && Enabled(G, w, e)
    ensures Reachable(G, Next(w, e))
  {
    hide Booted, Next;
    var b: World, run: seq<Event> :| Booted(b) && Possible(G, b, run) && w == After(G, b, run);
    PossibleOneMore(G, b, run, e);
  }

  lemma {:induction false} PossibleOneMore(G: nat, b: World, run: seq<Event>, e: Event)
    requires Possible(G, b, run) && Enabled(G, After(G, b, run), e)
    ensures Possible(G, b, run + [e]) && After(G, b, run + [e]) == Next(After(G, b, run), e)
    decreases |run|
  {
    hide Next;
    if run == [] {
      var v := Next(b, e);
      assert run + [e] == [e] && [e][1..] == [];
      assert Possible(G, v, []) && After(G, v, []) == v;
    } else {
      PossibleOneMore(G, Next(b, run[0]), run[1..], e);
      assert (run + [e])[0] == run[0] && (run + [e])[1..] == run[1..] + [e];
    }
  }

  /** The last acknowledgement seen from the front of the run. */
  lemma {:induction false} HeardFirst(root: nat, e: Event, run: seq<Event>)
    ensures RootHeard(root, [e] + run) == RootHeard(if IsAck(e) then e.from else root, run)
    decreases |run|
  {
    hide IsAck;
    if run == [] {
      assert [e] + run == [e] && [e][..0] == [];
      assert RootHeard(root, []) == root;
    } else {
      var front := run[..|run| - 1];
      HeardFirst(root, e, front);
      assert ([e] + run)[..|run|] == [e] + front;
    }
  }

  lemma {:induction false} RegistrationRun(G: nat, w: World, run: seq<Event>)
    requires Reachable(G, w) && Possible(G, w, run)
    ensures After(G, w, run).c.mesh.rootMeshId == RootHeard(w.c.mesh.rootMeshId, run)
    ensures After(G, w, run).c.mesh.registered == AckedSince(G, w, w.c.mesh.registered, run)
    decreases |run|
  {
    hide Reachable, Next, IsAck, EntersStandalone, Says;
    if run == [] {
    } else {
      var says := EventRegisters(G, w, run[0]);
      ReachableNext(G, w, run[0]);
      RegistrationRun(G, Next(w, run[0]), run[1..]);
      HeardFirst(w.c.mesh.rootMeshId, run[0], run[1..]);
      assert run == [run[0]] + run[1..];
    }
  }

  lemma BootReached(G: nat, b: World)
    requires Booted(b)
    ensures Reachable(G, b) && b.c.mesh.rootMeshId == 0 && !b.c.mesh.registered
  {
    hide SetUp;
    assert Possible(G, b, []) && After(G, b, []) == b;
    var who, pins, fcClosed, stopAt, at, jitter :| BootedWith(b, who, pins, fcClosed, stopAt, at, jitter);
    BootDoes(b, who, pins, fcClosed, stopAt, at, jitter);
  }

  /** In every run from boot the node takes for its ROOT the sender of the last accepted
      acknowledgement, none if there was none; and it counts as registered exactly if one was
      accepted since boot or since STANDALONE was last entered. */
  lemma RegistrationIsLastAck(G: nat, b: World, run: seq<Event>)
    requires Booted(b) && Possible(G, b, run)
    ensures var m := After(G, b, run).c.mesh;
            m.rootMeshId == RootHeard(0, run) && m.registered == AckedSince(G, b, false, run)
  {
    hide Booted, Reachable, Possible, After, AckedSince, RootHeard;
    BootReached(G, b);
    RegistrationRun(G, b, run);
  }

  /** Nothing said is unsaid, and every text to a single node goes to the sender of the last
      acknowledgement accepted up to the event that sent it. */
  lemma SinglesFollowAcks(G: nat, b: World, run: seq<Event>, e: Event)
    requires Booted(b) && Possible(G, b, run) && Enabled(G, After(G, b, run), e)
    ensures var before, after := After(G, b, run).c.mesh.log, Next(After(G, b, run), e).c.mesh.log;
            && before <= after
            && forall i :: |before| <= i < |after| && after[i].Single? ==> after[i].to == RootHeard(0, run + [e]) != 0
  {
    hide Booted, Possible, After, Next, Emits, Advance, IsAck;
    BootReached(G, b);
    var w := After(G, b, run);
    WitnessOf(G, b, run);
    RegistrationIsLastAck(G, b, run);
    var says := EventRegisters(G, w, e);
    var n := Next(w, e).c.mesh;
    SinglesToRoot(w.c.mesh.who.address.id, n.rootMeshId, w.c.mesh.seqNum, says);
    assert (run + [e])[..|run|] == run;
  }

  lemma WitnessOf(G: nat, b: World, run: seq<Event>)
    requires Booted(b) && Possible(G, b, run)
    ensures Reachable(G, After(G, b, run))
  {
    hide Booted, Possible, After;
  }

  /** An acknowledgement makes a due heartbeat go out, first of all in the next mesh check, and to
      its sender. */
  lemma AckedNodeBeats(G: nat, w: World, e: Event, check: Event)
    requires Reachable(G, w) && Enabled(G, w, e) && IsAck(e) && e.from != 0
    requires check.Check? && Enabled(G, Next(w, e), check)
    requires Elapsed(Millis(check.at), w.c.mesh.lastHeartbeat) >= w.c.mesh.interval
    ensures var log := Next(Next(w, e), check).c.mesh.log;
            var k := |Next(w, e).c.mesh.log|;
            k < |log| && log[k].Single? && log[k].to == e.from
  {
    hide Reachable, Next, IsA, Report, Advance, StatusPayload, Wire.Text;
    AckDoes(G, w, e);
    ReachableNext(G, w, e);
    var v := Next(w, e);
    CheckDoes(G, v, check);
    var says := CheckSaying(v, check);
    FirstToRoot(v.c.mesh.who.address.id, e.from, v.c.mesh.seqNum, says);
    var n := Next(v, check).c.mesh;
    assert n.log == v.c.mesh.log + Emits(v.c.mesh.who.address.id, e.from, v.c.mesh.seqNum, says);
  }

  lemma {:induction false} FirstToRoot(id: byte, root: nat, n: byte, says: seq<Saying>)
    requires says != [] && says[0].ToRoot? && root != 0
    ensures var log := Emits(id, root, n, says); log != [] && log[0].Single? && log[0].to == root
  {
    hide Wire.Text, Advance;
    if |says| == 1 {
      assert Emits(id, root, n, says[..0]) == [];
    } else {
      FirstToRoot(id, root, n, says[..|says| - 1]);
    }
  }
}
