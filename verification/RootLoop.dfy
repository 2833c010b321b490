/** The ROOT's objects driven through a run: registry, monitor and flash go exactly through the
    states the run model says, and the HMI is told exactly what its log holds. */
module RootLoop {
  import opened Clock
  import opened Registry
  import opened RegistrySteps
  import opened Root

  /** The notifications in a log, in order. */
  function Tellings(log: seq<Note>): seq<(uint16, nat)> {
    if log == [] then []
    else
      var before := Tellings(log[..|log| - 1]);
      match log[|log| - 1]
      case Heard(_, _) => before
      case Told(id, rank, _) => before + [(id, rank)]
  }

  function Ranked(notified: seq<(uint16, NodeStatus)>): seq<(uint16, nat)> {
    seq(|notified|, i requires 0 <= i < |notified| => (notified[i].0, Rank(notified[i].1)))
  }

  lemma TellingsGrow(log: seq<Note>, x: Note)
    ensures Tellings(log + [x]) == Tellings(log) + (if x.Told? then [(x.id, x.rank)] else [])
  {
    assert (log + [x])[..|log|] == log;
  }

  /** The objects are in the state of the model. */
  ghost predicate Shows(registry: NodeRegistry, monitor: HeartbeatMonitor, nvs: Nvs, s: System)
    reads registry, registry.slots, monitor
  {
    && registry.Valid() && registry.State() == s.table && nvs == s.nvs
    && monitor.registry == registry && monitor.snapshot == s.pending
    && (s.pending != [] ==> monitor.now == Millis(s.snapAt))
    && Ranked(monitor.notified) == Tellings(s.log)
  }

  method PerformRegister(registry: NodeRegistry, monitor: HeartbeatMonitor, ghost s: System, reg: RegPayload, mac: Mac,
                         at: nat)
    requires Shows(registry, monitor, s.nvs, s)
    modifies registry, registry.slots
    ensures Shows(registry, monitor, s.nvs, Registered(s, reg, mac, at))
  {
    hide Registry.Register, FirstMac, Tellings, Ranked;
    var id := registry.RegisterNode(reg, mac, Millis(at));
    TellingsGrow(s.log, Heard(id, at));
  }

  method PerformBeat(registry: NodeRegistry, monitor: HeartbeatMonitor, ghost s: System, id: uint16, rssi: int,
                     payload: seq<byte>, at: nat)
    requires Shows(registry, monitor, s.nvs, s)
    modifies registry.slots
    ensures Shows(registry, monitor, s.nvs, Beaten(s, id, rssi, payload, at))
  {
    hide Heartbeat, FirstId, Tellings, Ranked;
    registry.UpdateHeartbeat(id, rssi, payload, Millis(at));
    UnknownIsUnchanged(s.table, id, rssi, payload, Millis(at));
    TellingsGrow(s.log, Heard(id, at));
  }

  method PerformReset(nvs: Nvs, ghost s: System, order: seq<string>)
    returns (registry: NodeRegistry, monitor: HeartbeatMonitor)
    requires nvs == s.nvs && Listed(s.nvs.blobs, order)
    ensures Shows(registry, monitor, nvs, Restarted(s, order))
    ensures fresh(registry) && fresh(registry.slots) && fresh(monitor)
  {
    hide Registry.Booted;
    registry := new NodeRegistry();
    registry.LoadFromNvs(nvs, order);
    monitor := new HeartbeatMonitor(registry);
  }

  method PerformJudge(registry: NodeRegistry, monitor: HeartbeatMonitor, ghost s: System)
    requires Shows(registry, monitor, s.nvs, s) && s.pending != []
    modifies registry, registry.slots, monitor
    ensures Shows(registry, monitor, s.nvs, JudgedFirst(s))
  {
    hide SetStatus, Verdict;
    ghost var p := s.pending[0];
    monitor.JudgeNext();
    match Verdict(s.table, p, Millis(s.snapAt))
    case None =>
    case Some(status) => TellingsGrow(s.log, Told(p.nodeId, Rank(status), s.snapAt));
  }

  lemma UnknownIsUnchanged(t: Table, id: uint16, rssi: int, payload: seq<byte>, now: uint32)
    ensures FirstId(t.slots, id, 0) == |t.slots| ==> Heartbeat(t, id, rssi, payload, now) == t
  {
  }

  /** Performs one step; a reset starts over with new objects and the old flash. */
  method Perform(registry: NodeRegistry, monitor: HeartbeatMonitor, nvs: Nvs, ghost gap: nat, ghost s: System, st: Step)
    returns (registry': NodeRegistry, monitor': HeartbeatMonitor, nvs': Nvs)
    requires Shows(registry, monitor, nvs, s) && Enabled(gap, s, st)
    modifies registry, registry.slots, monitor
    ensures Shows(registry', monitor', nvs', Next(gap, s, st))
    ensures if st.Reset? then fresh(registry') && fresh(registry'.slots) && fresh(monitor')
            else registry' == registry && monitor' == monitor
  {
    hide Registered, Beaten, JudgedFirst, Restarted, Saved, Iterates, Tellings, Ranked;
    registry', monitor', nvs' := registry, monitor, nvs;
    match st
    case Registers(reg, mac, at) => PerformRegister(registry, monitor, s, reg, mac, at);
    case Beats(id, rssi, payload, at) => PerformBeat(registry, monitor, s, id, rssi, payload, at);
    case Snapshot(at) => monitor.TakeSnapshot(Millis(at));
    case Judge => PerformJudge(registry, monitor, s);
    case Flush(opens) => nvs' := FlushTurn(registry, nvs, opens);
    case Reset(order) => registry', monitor' := PerformReset(nvs, s, order);
  }

  /** A ROOT from the factory, through any run: in the end the objects hold what the model says. */
  method Drive(ghost gap: nat, run: seq<Step>) returns (registry: NodeRegistry, monitor: HeartbeatMonitor, nvs: Nvs)
    requires Possible(gap, FirstBoot(), run)
    ensures Shows(registry, monitor, nvs, After(gap, FirstBoot(), run))
  {
    hide Next, Enabled;
    registry := new NodeRegistry();
    monitor := new HeartbeatMonitor(registry);
    nvs := ERASED;
    ghost var s := FirstBoot();
    assert run[0..] == run;
    for i := 0 to |run|
      invariant fresh(registry) && fresh(registry.slots) && fresh(monitor)
      invariant Shows(registry, monitor, nvs, s)
      invariant Possible(gap, s, run[i..]) && After(gap, s, run[i..]) == After(gap, FirstBoot(), run)
    {
      assert run[i..][0] == run[i] && run[i..][1..] == run[i + 1..];
      registry, monitor, nvs := Perform(registry, monitor, nvs, gap, s, run[i]);
      s := Next(gap, s, run[i]);
    }
    assert run[|run|..] == [];
  }
}
