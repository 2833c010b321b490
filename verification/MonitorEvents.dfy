/** What heartbeats, verdicts and flushes do to a reachable ROOT, told from the step and the old
    state alone; and that the HMI is left alone over every run. */
module MonitorEvents {
  import opened Clock
  import opened Hex
  import opened Registry
  import opened RegistryImage
  import opened RegistrySteps
  import opened Root
  import opened RegistryRuns
  import opened Monitor
  import opened MonitorTheorems

  // ── Registrations ──────────────────────────────────────────────────────────

  /** The node that holds this MAC. */
  function Holder(slots: seq<NodeInfo>, mac: Mac): Option<NodeInfo> {
    var k := FirstMac(slots, mac, 0);
    if k < |slots| then Some(slots[k]) else None
  }

  /** A registration: a known MAC keeps its id, becomes ONLINE and, without reconnect, takes the
      new data; a new one, if a slot is free, gets the next id, passing over 0x000F; a full table
      refuses it. Nothing about any other node changes. */
  lemma RegisterDoes(gap: nat, s: System, reg: RegPayload, mac: Mac, at: nat)
    requires Reachable(gap, s) && Enabled(gap, s, Registers(reg, mac, at))
    ensures var u, holder := Next(gap, s, Registers(reg, mac, at)), Holder(s.table.slots, mac);
            var id := Registry.Register(s.table, reg, mac, Millis(at)).1;
            if holder.None? && (forall i :: 0 <= i < |s.table.slots| ==> s.table.slots[i].valid) then id == 0 && u == s.(clock := at)
            else
              && id == (if holder.Some? then holder.value.nodeId else if s.table.nextId == 0x000F then 0x0010 else s.table.nextId)
              && Node(u.table.slots, id).Some?
              && (var x := Node(u.table.slots, id).value;
                  && x.valid && x.nodeId == id && x.mac == mac && x.status == Online && x.lastSeen == Millis(at)
                  && (if holder.Some? && reg.reconnect then x == holder.value.(status := Online, lastSeen := Millis(at))
                      else x.nodeType == reg.nodeType && x.fw == reg.fw && x.name == reg.name)
                  && (holder.Some? ==> x.rssi == holder.value.rssi && x.cache == holder.value.cache))
              && (forall o: uint16 :: o != id ==> Node(u.table.slots, o) == Node(s.table.slots, o))
              && u.table.dirty
              && u.table.count == s.table.count + (if holder.Some? && reg.reconnect then 0 else 1)
              && u.table.nextId == (if holder.Some? then s.table.nextId else id + 1)
  {
    hide Reachable, Store, MonitorOk, DistinctIds;
    AlwaysOk(gap, s);
    StepKeeps(gap, s, Registers(reg, mac, at));
    RegisterHears(s, reg, mac, at);
    StoreDistinct(s);
    SmallId(s);
    var u := Registered(s, reg, mac, at);
    StoreDistinct(u);
    var k := FirstMac(s.table.slots, mac, 0);
    var f := if k < |s.table.slots| then k else FirstFree(s.table.slots, 0);
    if f < |s.table.slots| {
      HolderId(s, mac);
      NodePut(s.table.slots, f, u.table.slots[f]);
    }
  }

  lemma SmallId(s: System)
    requires Store(s)
    ensures 2 <= s.table.nextId <= 67
  {
    hide Image, NvsOk, Extends, InSync;
    var n: nat :| StoreOk(s, n);
    AtLeastTwo(Image(s.table.slots), s.table.nextId);
  }

  lemma HolderId(s: System, mac: Mac)
    requires Store(s)
    ensures var h := Holder(s.table.slots, mac); h.Some? ==> h.value.nodeId != 0
  {
    hide Image, NvsOk, Extends, InSync, MacKey, Allocated;
    var n: nat :| StoreOk(s, n);
    KnownMac(s.table, n, mac);
    SlotCount(s.table, n);
    if Holder(s.table.slots, mac).Some? {
      IdPositive(Image(s.table.slots), s.table.nextId, MacKey(mac));
    }
  }

  // ── Heartbeats ─────────────────────────────────────────────────────────────

  /** A heartbeat of a known node: WARNING and OFFLINE become ONLINE, LOST stays LOST; time and
      signal are noted, and the payload overwrites the cache, byte by byte as far as both go;
      nothing else about the node, and nothing about any other, changes. */
  lemma HeartbeatDoes(gap: nat, s: System, id: uint16, rssi: int, payload: seq<byte>, at: nat)
    requires Reachable(gap, s) && Enabled(gap, s, Beats(id, rssi, payload, at))
    ensures var u := Next(gap, s, Beats(id, rssi, payload, at));
            match Node(s.table.slots, id)
            case None => u == s.(clock := at)
            case Some(n) =>
              && Node(u.table.slots, id).Some?
              && var x := Node(u.table.slots, id).value;
                 && x.status == (if n.status == Lost then Lost else Online)
                 && x == n.(lastSeen := Millis(at), rssi := rssi, status := x.status, cache := x.cache)
                 && (forall i :: 0 <= i < 32 ==> x.cache[i] == if i < |payload| then payload[i] else n.cache[i])
                 && (forall o: uint16 :: o != id ==> Node(u.table.slots, o) == Node(s.table.slots, o))
                 && u.table == s.table.(slots := u.table.slots)
  {
    hide Reachable, Store, MonitorOk, DistinctIds;
    AlwaysOk(gap, s);
    StepKeeps(gap, s, Beats(id, rssi, payload, at));
    IsNodeOk(s, id);
    var u := Beaten(s, id, rssi, payload, at);
    var k := FirstId(s.table.slots, id, 0);
    if k < |s.table.slots| {
      StoreDistinct(s);
      StoreDistinct(u);
      NodePut(s.table.slots, k, u.table.slots[k]);
    }
  }

  /** After every run that ends with a heartbeat of a known node, that node is ONLINE or LOST. */
  lemma HeardIsOnlineOrLost(gap: nat, run: seq<Step>, id: uint16, rssi: int, payload: seq<byte>, at: nat)
    requires Possible(gap, FirstBoot(), run)
    requires var s := After(gap, FirstBoot(), run);
             Enabled(gap, s, Beats(id, rssi, payload, at)) && Node(s.table.slots, id).Some?
    ensures var n := Node(Next(gap, After(gap, FirstBoot(), run), Beats(id, rssi, payload, at)).table.slots, id);
            n.Some? && (n.value.status == Online || n.value.status == Lost)
  {
    hide Possible, After, FirstBoot, Node, Next, Enabled;
    var s := After(gap, FirstBoot(), run);
    RunReaches(gap, run);
    HeartbeatDoes(gap, s, id, rssi, payload, at);
  }

  lemma RunReaches(gap: nat, run: seq<Step>)
    requires Possible(gap, FirstBoot(), run)
    ensures Reachable(gap, After(gap, FirstBoot(), run))
  {
    hide Possible, After, FirstBoot;
  }

  // ── Verdicts ───────────────────────────────────────────────────────────────

  /** What the monitor makes of a difference of `delta` ms for a node it last saw as `status`. */
  function Calls(status: NodeStatus, delta: nat): Option<NodeStatus> {
    if status == Lost then None
    else if delta >= 120000 then Some(Lost)
    else if delta >= 30000 then (if status == Offline then None else Some(Offline))
    else if delta >= 15000 then (if status == Online then Some(Warning) else None)
    else None
  }

  predicate IsHmiNode(s: System, id: uint16) {
    var n := Node(s.table.slots, id);
    n.Some? && n.value.nodeType == 0x06
  }

  /** One verdict: nothing at all for the HMI; otherwise, if one is called for, the status is set,
      told, and marked to be saved; no other node changes. */
  lemma JudgeDoes(gap: nat, s: System)
    requires Reachable(gap, s) && Enabled(gap, s, Judge)
    ensures var p, u := s.pending[0], Next(gap, s, Judge);
            var call := if IsHmiNode(s, p.nodeId) then None else Calls(p.status, Elapsed(Millis(s.snapAt), p.lastSeen));
            && u == s.(table := u.table, log := u.log, pending := s.pending[1..])
            && Node(s.table.slots, p.nodeId).Some?
            && match call
               case None => u.table == s.table && u.log == s.log
               case Some(status) =>
                 && u.log == s.log + [Told(p.nodeId, Rank(status), s.snapAt)]
                 && u.table == s.table.(slots := u.table.slots, dirty := true)
                 && Node(u.table.slots, p.nodeId) == Some(Node(s.table.slots, p.nodeId).value.(status := status))
                 && forall o: uint16 :: o != p.nodeId ==> Node(u.table.slots, o) == Node(s.table.slots, o)
  {
    hide Reachable, Store, MonitorOk, DistinctIds, SetStatus;
    AlwaysOk(gap, s);
    StepKeeps(gap, s, Judge);
    var p, u := s.pending[0], JudgedFirst(s);
    IsPendingOk(s, 0);
    match Verdict(s.table, p, Millis(s.snapAt))
    case None =>
    case Some(status) =>
      StoreDistinct(s);
      StoreDistinct(u);
      StatusNode(s.table, p.nodeId, status);
      StatusTable(s.table, p.nodeId, status);
  }

  lemma IsPendingOk(s: System, i: nat)
    requires MonitorOk(s) && i < |s.pending|
    ensures PendingOk(s, s.pending[i])
  {
  }

  lemma StatusTable(t: Table, id: uint16, status: NodeStatus)
    requires Node(t.slots, id).Some?
    ensures SetStatus(t, id, status) == t.(slots := SetStatus(t, id, status).slots, dirty := true)
  {
  }

  // ── The HMI ────────────────────────────────────────────────────────────────

  /** How often a node was told about. */
  function Tellings(log: seq<Note>, id: uint16): nat {
    if log == [] then 0
    else Tellings(log[..|log| - 1], id) + (if log[|log| - 1].Told? && log[|log| - 1].id == id then 1 else 0)
  }

  lemma TellingsGrow(log: seq<Note>, x: Note, id: uint16)
    ensures Tellings(log + [x], id) == Tellings(log, id) + (if x.Told? && x.id == id then 1 else 0)
  {
    assert (log + [x])[..|log|] == log;
  }

  /** The steps by which a node makes itself heard, and a reset. */
  predicate Touches(s: System, st: Step, id: uint16) {
    Recalls(s, st, id) || (st.Beats? && st.id == id)
  }

  /** While the live table has a node as the HMI, no step tells about it, and none but its own
      registration and heartbeat, or a reset, changes its status. */
  lemma HmiStep(gap: nat, s: System, st: Step, id: uint16)
    requires Reachable(gap, s) && Enabled(gap, s, st) && IsHmiNode(s, id)
    ensures var u := Next(gap, s, st);
            && Tellings(u.log, id) <= Tellings(s.log, id)
            && (!Touches(s, st, id) ==>
                  IsHmiNode(u, id) && Node(u.table.slots, id).value.status == Node(s.table.slots, id).value.status)
  {
    hide Reachable, Store, MonitorOk, Registered, Saved, Registry.Booted, Registry.Register, Node, Iterates, Heartbeat;
    AlwaysOk(gap, s);
    StepKeeps(gap, s, st);
    match st
    case Registers(reg, mac, at) =>
      RegisterHears(s, reg, mac, at);
      TellingsGrow(s.log, Heard(Registry.Register(s.table, reg, mac, Millis(at)).1, at), id);
    case Beats(o, rssi, payload, at) =>
      HeartbeatDoes(gap, s, o, rssi, payload, at);
      TellingsGrow(s.log, Heard(o, at), id);
    case Snapshot(at) =>
    case Judge =>
      JudgeDoes(gap, s);
      TellingsGrow(s.log, Told(s.pending[0].nodeId, 0, s.snapAt), id);
      JudgeTells(s, id);
    case Flush(opens) => SavedSlots(s.table, s.nvs);
    case Reset(order) =>
  }

  lemma JudgeTells(s: System, id: uint16)
    ensures forall r: nat, at: nat :: Tellings(s.log + [Told(id, r, at)], id) == Tellings(s.log, id) + 1
    ensures forall o: uint16, r: nat, at: nat :: o != id ==> Tellings(s.log + [Told(o, r, at)], id) == Tellings(s.log, id)
  {
    forall o: uint16, r: nat, at: nat
      ensures Tellings(s.log + [Told(o, r, at)], id) == Tellings(s.log, id) + (if o == id then 1 else 0)
    {
      TellingsGrow(s.log, Told(o, r, at), id);
    }
  }

  /** All along a run the live table has the node as the HMI. */
  ghost predicate HmiThroughout(gap: nat, s: System, run: seq<Step>, id: uint16)
    requires Possible(gap, s, run)
    decreases |run|
  {
    IsHmiNode(s, id) && (run == [] || HmiThroughout(gap, Next(gap, s, run[0]), run[1..], id))
  }

  ghost predicate Untouched(gap: nat, s: System, run: seq<Step>, id: uint16)
    requires Possible(gap, s, run)
    decreases |run|
  {
    run == [] || (!Touches(s, run[0], id) && Untouched(gap, Next(gap, s, run[0]), run[1..], id))
  }

  lemma {:induction false} HmiRun(gap: nat, s: System, run: seq<Step>, id: uint16)
    requires Reachable(gap, s) && Possible(gap, s, run) && HmiThroughout(gap, s, run, id)
    ensures Tellings(After(gap, s, run).log, id) <= Tellings(s.log, id)
    ensures Untouched(gap, s, run, id) ==>
              Node(After(gap, s, run).table.slots, id).Some? &&
              Node(After(gap, s, run).table.slots, id).value.status == Node(s.table.slots, id).value.status
    decreases |run|
  {
    hide Reachable, Next, Enabled, Node, Touches, Tellings;
    if run == [] {
    } else {
      HmiStep(gap, s, run[0], id);
      NextReached(gap, s, run[0]);
      HmiRun(gap, Next(gap, s, run[0]), run[1..], id);
    }
  }

  lemma NextReached(gap: nat, s: System, st: Step)
    requires Reachable(gap, s) && Enabled(gap, s, st)
    ensures Reachable(gap, Next(gap, s, st))
  {
    hide Next, Enabled, FirstBoot;
    var run: seq<Step> :| Possible(gap, FirstBoot(), run) && s == After(gap, FirstBoot(), run);
    PossibleOneMore(gap, FirstBoot(), run, st);
  }

  lemma {:induction false} PossibleOneMore(gap: nat, s: System, run: seq<Step>, st: Step)
    requires Possible(gap, s, run) && Enabled(gap, After(gap, s, run), st)
    ensures Possible(gap, s, run + [st]) && After(gap, s, run + [st]) == Next(gap, After(gap, s, run), st)
    decreases |run|
  {
    hide Next, Enabled;
    if run == [] {
      var v := Next(gap, s, st);
      assert run + [st] == [st] && [st][1..] == [];
      assert Possible(gap, v, []) && After(gap, v, []) == v;
    } else {
      PossibleOneMore(gap, Next(gap, s, run[0]), run[1..], st);
      assert (run + [st])[0] == run[0] && (run + [st])[1..] == run[1..] + [st];
    }
  }

  /** Over every run along which a node is the HMI: nobody is told anything more about it; and
      without registrations or heartbeats of its own, or resets, its status stays as it was. */
  lemma HmiIsLeftAlone(gap: nat, s: System, run: seq<Step>, id: uint16)
    requires Reachable(gap, s) && Possible(gap, s, run)
    ensures HmiThroughout(gap, s, run, id) ==>
              && Tellings(After(gap, s, run).log, id) <= Tellings(s.log, id)
              && (Untouched(gap, s, run, id) ==>
                    Node(After(gap, s, run).table.slots, id).Some? &&
                    Node(After(gap, s, run).table.slots, id).value.status == Node(s.table.slots, id).value.status)
  {
    hide Reachable, Possible, After, Node, HmiThroughout, Untouched, Tellings;
    if HmiThroughout(gap, s, run, id) {
      HmiRun(gap, s, run, id);
    }
  }

  // ── Flash ──────────────────────────────────────────────────────────────────

  /** A flush writes exactly if something is dirty and flash opens: then flash equals the
      persistent part of the table and nothing is dirty; otherwise nothing changes. */
  lemma FlushIff(gap: nat, s: System, opens: bool)
    requires Reachable(gap, s)
    ensures var u := Next(gap, s, Flush(opens));
            if s.table.dirty && opens then
              && u == s.(table := s.table.(dirty := false), nvs := u.nvs)
              && u.nvs == Nvs(true, Image(s.table.slots), Some(s.table.nextId))
            else u == s
  {
    hide Reachable, Image, StoreOk;
    ReachableStore(gap, s);
    var n: nat :| StoreOk(s, n);
    SavedKeeps(s, n);
    SavedFields(s.table, s.nvs);
  }

  lemma SavedFields(t: Table, nvs: Nvs)
    ensures Saved(t, nvs).0 == t.(dirty := false)
    ensures Saved(t, nvs).1.present && Saved(t, nvs).1.nextId == Some(t.nextId)
  {
    hide Image;
  }
}
