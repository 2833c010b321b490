/** The loop of the STEP firmware driven through a run: the objects of `step.cpp` go exactly
    through the states the run model says. */
module StepLoop {
  import opened Clock
  import opened Mesh
  import opened Step
  import opened StepRuns

  /** Performs one event on the node. */
  method Perform(node: StepNode, ghost w: World, e: Event)
    requires node.Valid() && node.Now() == w.c && node.descriptor == w.descriptor
    requires e.Check? ==> e.jitter < HEARTBEAT_JITTER_MS
    requires e.Text? ==> |e.raw| <= 412
    modifies node, node.mesh, node.motor
    ensures node.Valid() && node.Now() == Next(w, e).c
  {
    hide Deliver, MeshCheck, CheckEndstops, CheckMotorTimeout, Reconnected;
    match e
    case Text(from, raw, at, stopAt, startAt, r) =>
      node.Receive(from, raw, Millis(at), Millis(stopAt), Millis(startAt), r);
    case Connections(at) => node.ConnectionsChange(Millis(at));
    case Check(meshEmpty, jitter, at, beat, r) => node.UpdateTail(meshEmpty, Millis(at), jitter, beat, r);
    case Endstops(fcClosed, fcOpen, at, stopAt, r) =>
      node.PollEndstops(fcClosed, fcOpen, Millis(at), Millis(stopAt), r);
    case Watchdog(at, stopAt, until, r) => node.Watch(Millis(at), Millis(stopAt), r);
  }

  /** Any run of the model is what the objects do, event by event. */
  method Drive(node: StepNode, ghost G: nat, ghost w: World, run: seq<Event>)
    requires node.Valid() && node.Now() == w.c && node.descriptor == w.descriptor
    requires Possible(G, w, run)
    modifies node, node.mesh, node.motor
    ensures node.Valid() && node.Now() == After(G, w, run).c
  {
    hide Next;
    ghost var v := w;
    for i := 0 to |run|
      invariant node.Valid() && node.Now() == v.c && node.descriptor == v.descriptor
      invariant Possible(G, v, run[i..]) && After(G, v, run[i..]) == After(G, w, run)
    {
      assert run[i..][0] == run[i] && run[i..][1..] == run[i + 1..];
      assert Enabled(G, v, run[i]);
      KeepsDescriptor(v, run[i]);
      Perform(node, v, run[i]);
      v := Next(v, run[i]);
    }
    assert run[|run|..] == [];
  }

  lemma KeepsDescriptor(w: World, e: Event)
    requires e.Check? ==> e.jitter < HEARTBEAT_JITTER_MS
    ensures Next(w, e).descriptor == w.descriptor
  {
    hide Deliver, MeshCheck, CheckEndstops, CheckMotorTimeout, Reconnected;
  }
}
