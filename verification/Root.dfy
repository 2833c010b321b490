/** The ROOT as interleaved tasks over one registry: reception (registrations, heartbeats),
    the heartbeat monitor, the NVS flush, and resets. */
module Root {
  import opened Clock
  import opened Hex
  import opened Registry
  import opened RegistrySteps

  const WARNING_MS: uint32 := 15000
  const OFFLINE_MS: uint32 := 30000
  const LOST_MS: uint32 := 120000

  // ── The monitor's decision ─────────────────────────────────────────────────

  /** What the monitor does about one snapshot entry: nothing, or a new status that is also
      notified. Whether it is the HMI is read from the live table. */
  function Verdict(t: Table, n: NodeInfo, now: uint32): Option<NodeStatus> {
    if IsHmi(t, n.nodeId) || n.status == Lost then None
    else
      var delta := Elapsed(now, n.lastSeen);
      if delta >= LOST_MS then Some(Lost)
      else if delta >= OFFLINE_MS && n.status != Offline then Some(Offline)
      else if delta >= WARNING_MS && n.status == Online then Some(Warning)
      else None
  }

  function Judged(t: Table, n: NodeInfo, now: uint32): Table {
    match Verdict(t, n, now)
    case None => t
    case Some(status) => SetStatus(t, n.nodeId, status)
  }

  /** `heartbeat_monitor_task`, cut where other tasks may run: the snapshot, then one entry
      at a time. */
  class HeartbeatMonitor {
    const registry: NodeRegistry
    var snapshot: seq<NodeInfo>
    var now: uint32
    /** MSG_NODE_WARNING, MSG_NODE_OFFLINE and MSG_NODE_LOST sent on to the HMI. */
    var notified: seq<(uint16, NodeStatus)>

    constructor (registry: NodeRegistry)
      ensures this.registry == registry && snapshot == [] && notified == []
    {
      this.registry := registry;
      snapshot, now, notified := [], 0, [];
    }

    method TakeSnapshot(clock: uint32)
      requires registry.Valid() && snapshot == []
      modifies this
      ensures now == clock && notified == old(notified)
      ensures snapshot == Valids(registry.State().slots)
    {
      now := clock;
      snapshot := registry.Dump(MAX_NODES);
      ValidsGrow(registry.slots[..], 0);
    }

    method JudgeNext()
      requires registry.Valid() && snapshot != []
      modifies this, registry, registry.slots
      ensures registry.Valid() && now == old(now) && snapshot == old(snapshot)[1..]
      ensures registry.State() == Judged(old(registry.State()), old(snapshot)[0], now)
      ensures notified == match Verdict(old(registry.State()), old(snapshot)[0], now)
                          case None => old(notified)
                          case Some(status) => old(notified) + [(old(snapshot)[0].nodeId, status)]
    {
      var n := snapshot[0];
      snapshot := snapshot[1..];
      var hmi := registry.NodeIsHmi(n.nodeId);
      if hmi {
        return;
      }
      if n.status == Lost {
        return;
      }
      var delta := Elapsed(now, n.lastSeen);
      if delta >= LOST_MS && n.status != Lost {
        registry.SetNodeStatus(n.nodeId, Lost);
        notified := notified + [(n.nodeId, Lost)];
      } else if delta >= OFFLINE_MS && n.status != Offline {
        registry.SetNodeStatus(n.nodeId, Offline);
        notified := notified + [(n.nodeId, Offline)];
      } else if delta >= WARNING_MS && n.status == Online {
        registry.SetNodeStatus(n.nodeId, Warning);
        notified := notified + [(n.nodeId, Warning)];
      }
    }
  }

  /** One turn of `nvs_persist_task`; flash that does not open leaves everything as it is. */
  method FlushTurn(registry: NodeRegistry, nvs: Nvs, opens: bool) returns (nvs': Nvs)
    requires registry.Valid()
    modifies registry`dirty
    ensures registry.Valid()
    ensures (registry.State(), nvs') == Flushed(old(registry.State()), nvs, opens)
  {
    nvs' := nvs;
    if registry.dirty && opens {
      nvs' := registry.SaveToNvs(nvs);
    }
  }

  function Flushed(t: Table, nvs: Nvs, opens: bool): (Table, Nvs) {
    if t.dirty && opens then Saved(t, nvs) else (t, nvs)
  }

  // ── The system and its steps ───────────────────────────────────────────────

  /** What was heard from a node, and what was told about it, since the last reset; times are
      true times since that reset, `rank` is 1, 2, 3 for WARNING, OFFLINE, LOST. */
  datatype Note =
    | Heard(id: uint16, at: nat)
    | Told(id: uint16, rank: nat, snapAt: nat)

  /** The registry, flash, the true clock since reset, the monitor between its snapshot and
      the end of its pass, and what an observer remembers: when each id was last heard (0 for
      boot), that map as of the snapshot, the notes, and how many known MACs registered
      without `reconnect`. */
  datatype System = System(
    table: Table,
    nvs: Nvs,
    clock: nat,
    pending: seq<NodeInfo>,
    snapAt: nat,
    seen: map<uint16, nat>,
    snapSeen: map<uint16, nat>,
    log: seq<Note>,
    again: nat)

  datatype Step =
    | Registers(reg: RegPayload, mac: Mac, at: nat)
    | Beats(id: uint16, rssi: int, payload: seq<byte>, at: nat)
    | Snapshot(at: nat)
    | Judge
    | Flush(opens: bool)
    | Reset(order: seq<string>)

  function SeenAt(seen: map<uint16, nat>, id: uint16): nat {
    if id in seen then seen[id] else 0
  }

  function Rank(s: NodeStatus): nat {
    match s
    case Unset => 0 case Online => 0 case Warning => 1 case Offline => 2 case Lost => 3
    case Updating => 0 case Faulty => 0
  }

  /** Snapshots come at most `gap` ms apart; everything else may fall anywhere. */
  ghost predicate Enabled(gap: nat, s: System, st: Step) {
    match st
    case Registers(_, _, at) => s.clock <= at
    case Beats(_, _, _, at) => s.clock <= at
    case Snapshot(at) => s.pending == [] && s.clock <= at <= s.snapAt + gap
    case Judge => s.pending != []
    case Flush(_) => true
    case Reset(order) => Iterates(s.nvs.blobs, order) && Listed(s.nvs.blobs, order)
  }

  function Registered(s: System, reg: RegPayload, mac: Mac, at: nat): System {
    var (u, id) := Registry.Register(s.table, reg, mac, Millis(at));
    if id == 0 then s.(table := u, clock := at) else
      var known := FirstMac(s.table.slots, mac, 0) < |s.table.slots|;
      s.(table := u, clock := at, seen := s.seen[id := at], log := s.log + [Heard(id, at)],
         again := if known && !reg.reconnect then s.again + 1 else s.again)
  }

  function Beaten(s: System, id: uint16, rssi: int, payload: seq<byte>, at: nat): System {
    if FirstId(s.table.slots, id, 0) == |s.table.slots| then s.(clock := at) else
      s.(table := Heartbeat(s.table, id, rssi, payload, Millis(at)), clock := at,
         seen := s.seen[id := at], log := s.log + [Heard(id, at)])
  }

  function JudgedFirst(s: System): System
    requires s.pending != []
  {
    var n := s.pending[0];
    var rest := s.(pending := s.pending[1..]);
    match Verdict(s.table, n, Millis(s.snapAt))
    case None => rest
    case Some(status) =>
      rest.(table := SetStatus(s.table, n.nodeId, status), log := s.log + [Told(n.nodeId, Rank(status), s.snapAt)])
  }

  function Restarted(s: System, order: seq<string>): System
    requires Listed(s.nvs.blobs, order)
  {
    System(Registry.Booted(s.nvs, order), s.nvs, 0, [], 0, map[], map[], [], 0)
  }

  ghost function Next(gap: nat, s: System, st: Step): System
    requires Enabled(gap, s, st)
  {
    match st
    case Registers(reg, mac, at) => Registered(s, reg, mac, at)
    case Beats(id, rssi, payload, at) => Beaten(s, id, rssi, payload, at)
    case Snapshot(at) => s.(clock := at, snapAt := at, pending := Valids(s.table.slots), snapSeen := s.seen)
    case Judge => JudgedFirst(s)
    case Flush(opens) =>
      var (t, nvs) := Flushed(s.table, s.nvs, opens);
      s.(table := t, nvs := nvs)
    case Reset(order) => Restarted(s, order)
  }

  ghost predicate Possible(gap: nat, s: System, run: seq<Step>)
    decreases |run|
  {
    run == [] || (Enabled(gap, s, run[0]) && Possible(gap, Next(gap, s, run[0]), run[1..]))
  }

  ghost function After(gap: nat, s: System, run: seq<Step>): System
    requires Possible(gap, s, run)
    decreases |run|
  {
    if run == [] then s else After(gap, Next(gap, s, run[0]), run[1..])
  }

  /** A ROOT fresh from the factory. */
  function FirstBoot(): System {
    System(AtReset(), ERASED, 0, [], 0, map[], map[], [], 0)
  }

  ghost predicate Reachable(gap: nat, s: System) {
    exists run: seq<Step> :: Possible(gap, FirstBoot(), run) && s == After(gap, FirstBoot(), run)
  }
}
