/** The heartbeat monitor against reception, over every interleaving: what it tells, and when. */
module Monitor {
  import opened Clock
  import opened Hex
  import opened Registry
  import opened RegistryImage
  import opened RegistrySteps
  import opened Root
  import opened RegistryRuns

  // ── One node of the table ──────────────────────────────────────────────────

  /** The node of this id, as the lookups by id find it. */
  function Node(slots: seq<NodeInfo>, id: uint16): Option<NodeInfo> {
    var k := FirstId(slots, id, 0);
    if k < |slots| then Some(slots[k]) else None
  }

  lemma NodeAt(slots: seq<NodeInfo>, k: nat)
    requires DistinctIds(slots) && k < |slots| && slots[k].valid
    ensures Node(slots, slots[k].nodeId) == Some(slots[k])
  {
    assert HasId(slots[k], slots[k].nodeId);
  }

  /** Writing a slot changes the node of that slot's id, and no other. */
  lemma NodePut(slots: seq<NodeInfo>, k: nat, x: NodeInfo)
    requires k < |slots| && DistinctIds(slots) && DistinctIds(slots[k := x]) && x.valid
    requires slots[k].valid ==> slots[k].nodeId == x.nodeId
    ensures Node(slots[k := x], x.nodeId) == Some(x)
    ensures forall id: uint16 :: id != x.nodeId ==> Node(slots[k := x], id) == Node(slots, id)
  {
    NodeAt(slots[k := x], k);
    forall id: uint16 | id != x.nodeId
      ensures Node(slots[k := x], id) == Node(slots, id)
    {
      NodeElse(slots, k, x, id, 0);
    }
  }

  lemma {:induction false} NodeElse(slots: seq<NodeInfo>, k: nat, x: NodeInfo, id: uint16, i: nat)
    requires k < |slots| && i <= |slots| && x.nodeId != id
    requires slots[k].valid ==> slots[k].nodeId != id
    ensures FirstId(slots[k := x], id, i) == FirstId(slots, id, i)
    ensures FirstId(slots, id, i) != k
    decreases |slots| - i
  {
    if i == |slots| {
    } else {
      NodeElse(slots, k, x, id, i + 1);
    }
  }

  /** The nodes a snapshot holds: all in use, and each once. */
  lemma {:induction false} ValidsAre(slots: seq<NodeInfo>)
    requires DistinctIds(slots)
    ensures forall i :: 0 <= i < |Valids(slots)| ==> Node(slots, Valids(slots)[i].nodeId) == Some(Valids(slots)[i])
    ensures Apart(Valids(slots))
  {
    hide Node;
    if slots == [] {
    } else {
      var n := |slots| - 1;
      var front := slots[..n];
      ValidsAre(front);
      forall i | 0 <= i < |Valids(front)|
        ensures Node(slots, Valids(front)[i].nodeId) == Some(Valids(front)[i])
        ensures slots[n].valid ==> Valids(front)[i].nodeId != slots[n].nodeId
      {
        NodeInFront(slots, Valids(front)[i].nodeId);
      }
      if slots[n].valid {
        NodeAt(slots, n);
      }
    }
  }

  /** A node found in front of the last slot is found in the whole table, and is not the last. */
  lemma NodeInFront(slots: seq<NodeInfo>, id: uint16)
    requires slots != [] && Node(slots[..|slots| - 1], id).Some?
    ensures Node(slots, id) == Node(slots[..|slots| - 1], id)
    ensures DistinctIds(slots) && slots[|slots| - 1].valid ==> slots[|slots| - 1].nodeId != id
  {
    FirstInFront(slots, id, 0);
  }

  lemma {:induction false} FirstInFront(slots: seq<NodeInfo>, id: uint16, i: nat)
    requires i < |slots| && FirstId(slots[..|slots| - 1], id, i) < |slots| - 1
    ensures FirstId(slots, id, i) == FirstId(slots[..|slots| - 1], id, i)
    decreases |slots| - i
  {
  }

  /** And every node is among them. */
  lemma {:induction false} ValidsHold(slots: seq<NodeInfo>, k: nat)
    requires k < |slots| && slots[k].valid
    ensures exists i :: 0 <= i < |Valids(slots)| && Valids(slots)[i] == slots[k]
  {
    var n := |slots| - 1;
    var v := Valids(slots);
    if k < n {
      ValidsHold(slots[..n], k);
      var i :| 0 <= i < |Valids(slots[..n])| && Valids(slots[..n])[i] == slots[k];
      assert v[i] == slots[k];
    } else {
      assert v[|v| - 1] == slots[k];
    }
  }

  /** No two entries for the same node. */
  ghost predicate Apart(v: seq<NodeInfo>) {
    forall i, j :: 0 <= i < j < |v| ==> v[i].nodeId != v[j].nodeId
  }

  // ── The log ────────────────────────────────────────────────────────────────

  /** The rank last told about a node since it was last heard; 0 if none. */
  function LastTold(log: seq<Note>, id: uint16): nat {
    if log == [] then 0
    else
      var x := log[|log| - 1];
      if x.id != id then LastTold(log[..|log| - 1], id)
      else if x.Heard? then 0 else x.rank
  }

  function Threshold(rank: nat): nat {
    if rank == 1 then WARNING_MS else if rank == 2 then OFFLINE_MS else LOST_MS
  }

  /** A notification, given what was noted before it: higher than what was told since the node
      was last heard, and the node had really been silent for the threshold at its snapshot:
      whatever was heard of it came that long before, or after the snapshot. */
  ghost predicate ToldWell(before: seq<Note>, x: Note)
    requires x.Told?
  {
    && 1 <= x.rank <= 3 && LastTold(before, x.id) < x.rank
    && x.snapAt >= Threshold(x.rank)
    && forall j :: 0 <= j < |before| && before[j].Heard? && before[j].id == x.id ==>
         before[j].at <= x.snapAt - Threshold(x.rank) || before[j].at >= x.snapAt
  }

  ghost predicate LogOk(log: seq<Note>) {
    forall k :: 0 <= k < |log| && log[k].Told? ==> ToldWell(log[..k], log[k])
  }

  lemma LogGrows(log: seq<Note>, x: Note)
    requires LogOk(log) && (x.Told? ==> ToldWell(log, x))
    ensures LogOk(log + [x])
  {
    hide ToldWell;
    var u := log + [x];
    forall k | 0 <= k < |u| && u[k].Told? ensures ToldWell(u[..k], u[k]) {
      assert u[..k] == log[..k];
      assert log[..|log|] == log;
    }
  }

  lemma LastToldGrows(log: seq<Note>, x: Note, id: uint16)
    ensures LastTold(log + [x], id) == if x.id != id then LastTold(log, id) else if x.Heard? then 0 else x.rank
  {
    assert (log + [x])[..|log|] == log;
  }

  // ── Invariant ──────────────────────────────────────────────────────────────

  predicate Monitored(s: NodeStatus) {
    s == Online || s == Warning || s == Offline || s == Lost
  }

  /** The record of a node agrees with what was heard and told. */
  ghost predicate NodeOk(s: System, id: uint16) {
    match Node(s.table.slots, id)
    case None => true
    case Some(n) =>
      && Monitored(n.status) && n.lastSeen == Millis(SeenAt(s.seen, id))
      && LastTold(s.log, id) <= Rank(n.status)
  }

  ghost predicate TimesOk(s: System, id: uint16) {
    && SeenAt(s.snapSeen, id) <= SeenAt(s.seen, id) <= s.clock
    && SeenAt(s.snapSeen, id) <= s.snapAt
  }

  /** An entry still to be judged is never milder than the live record. */
  ghost predicate PendingOk(s: System, p: NodeInfo) {
    var n := Node(s.table.slots, p.nodeId);
    && n.Some? && Monitored(p.status) && Rank(n.value.status) <= Rank(p.status)
    && p.lastSeen == Millis(SeenAt(s.snapSeen, p.nodeId))
  }

  ghost predicate HeardOk(s: System, x: Note) {
    x.Heard? ==> x.at <= SeenAt(s.seen, x.id) && (x.at <= SeenAt(s.snapSeen, x.id) || x.at >= s.snapAt)
  }

  ghost predicate MonitorOk(s: System) {
    && s.snapAt <= s.clock
    && (forall id: uint16 :: NodeOk(s, id))
    && (forall id: uint16 :: TimesOk(s, id))
    && (forall i :: 0 <= i < |s.pending| ==> PendingOk(s, s.pending[i]))
    && Apart(s.pending)
    && (forall i :: 0 <= i < |s.log| ==> HeardOk(s, s.log[i]))
    && LogOk(s.log)
  }

  // ── Hearing from a node ────────────────────────────────────────────────────

  /** Heard from, a node is ONLINE or as it was. */
  ghost predicate Recovers(s: System, u: System, id: uint16)
    requires Node(u.table.slots, id).Some?
  {
    var x, n := Node(u.table.slots, id).value.status, Node(s.table.slots, id);
    x == Online || (n.Some? && x == n.value.status && Monitored(x))
  }

  /** `u` is `s` after hearing from `id` at `at`: the node's record is fresh, no other moved. */
  ghost predicate Hears(s: System, u: System, id: uint16, at: nat) {
    && s.clock <= at && u.clock == at && u.seen == s.seen[id := at] && u.log == s.log + [Heard(id, at)]
    && u.pending == s.pending && u.snapAt == s.snapAt && u.snapSeen == s.snapSeen
    && Node(u.table.slots, id).Some?
    && Node(u.table.slots, id).value.lastSeen == Millis(at) && Recovers(s, u, id)
    && forall o: uint16 :: o != id ==> Node(u.table.slots, o) == Node(s.table.slots, o)
  }

  lemma RegisterHears(s: System, reg: RegPayload, mac: Mac, at: nat)
    requires Store(s) && Store(Registered(s, reg, mac, at)) && s.clock <= at
    ensures var u := Registered(s, reg, mac, at);
            var id := Registry.Register(s.table, reg, mac, Millis(at)).1;
            if id == 0 then u == s.(clock := at)
            else Hears(s, u, id, at) && Node(u.table.slots, id).value.status == Online
  {
    hide Store, FirstMac, FirstId, FirstFree, Skip, DistinctIds;
    var u := Registered(s, reg, mac, at);
    var id := Registry.Register(s.table, reg, mac, Millis(at)).1;
    if id != 0 {
      StoreDistinct(s);
      StoreDistinct(u);
      var k := FirstMac(s.table.slots, mac, 0);
      var f := if k < |s.table.slots| then k else FirstFree(s.table.slots, 0);
      NodePut(s.table.slots, f, u.table.slots[f]);
    } else {
      RefusalIsHarmless(s, reg, mac, at);
    }
  }

  lemma BeatHears(s: System, id: uint16, rssi: int, payload: seq<byte>, at: nat)
    requires Store(s) && Store(Beaten(s, id, rssi, payload, at)) && s.clock <= at && NodeOk(s, id)
    ensures var u := Beaten(s, id, rssi, payload, at);
            if Node(s.table.slots, id).None? then u == s.(clock := at)
            else Hears(s, u, id, at) &&
                 Node(u.table.slots, id).value.status == Revived(Node(s.table.slots, id).value.status) &&
                 Node(u.table.slots, id).value.nodeType == Node(s.table.slots, id).value.nodeType
  {
    hide Store, DistinctIds, Cached;
    var u := Beaten(s, id, rssi, payload, at);
    var k := FirstId(s.table.slots, id, 0);
    if k < |s.table.slots| {
      StoreDistinct(s);
      StoreDistinct(u);
      NodePut(s.table.slots, k, u.table.slots[k]);
    }
  }

  lemma HearingKeeps(s: System, u: System, id: uint16, at: nat)
    requires MonitorOk(s) && Hears(s, u, id, at)
    ensures MonitorOk(u)
  {
    hide LogOk, ToldWell, LastTold, Node;
    LogGrows(s.log, Heard(id, at));
    forall o: uint16 ensures NodeOk(u, o) && TimesOk(u, o) {
      assert NodeOk(s, o) && TimesOk(s, o);
      LastToldGrows(s.log, Heard(id, at), o);
    }
    forall i | 0 <= i < |u.pending| ensures PendingOk(u, u.pending[i]) {
      assert PendingOk(s, s.pending[i]);
    }
    forall i | 0 <= i < |u.log| ensures HeardOk(u, u.log[i]) {
      if i < |s.log| {
        assert HeardOk(s, s.log[i]) && TimesOk(s, s.log[i].id);
      }
    }
  }

  // ── The monitor's own steps ────────────────────────────────────────────────

  lemma SnapshotKeeps(s: System, at: nat)
    requires Store(s) && MonitorOk(s) && s.pending == [] && s.clock <= at
    ensures MonitorOk(s.(clock := at, snapAt := at, pending := Valids(s.table.slots), snapSeen := s.seen))
  {
    hide LogOk, LastTold, Node, Valids, Store, DistinctIds;
    var u := s.(clock := at, snapAt := at, pending := Valids(s.table.slots), snapSeen := s.seen);
    StoreDistinct(s);
    ValidsAre(s.table.slots);
    forall id: uint16 ensures NodeOk(u, id) && TimesOk(u, id) {
      assert NodeOk(s, id) && TimesOk(s, id);
    }
    forall i | 0 <= i < |u.pending| ensures PendingOk(u, u.pending[i]) {
      SnapshotEntry(s, i);
      assert NodeOk(s, u.pending[i].nodeId);
    }
    forall i | 0 <= i < |u.log| ensures HeardOk(u, u.log[i]) {
      assert HeardOk(s, s.log[i]);
    }
  }

  /** An entry of a fresh snapshot is the live record. */
  lemma SnapshotEntry(s: System, i: nat)
    requires Store(s) && i < |Valids(s.table.slots)|
    ensures var p := Valids(s.table.slots)[i];
            && Node(s.table.slots, p.nodeId) == Some(p)
            && (NodeOk(s, p.nodeId) ==> Monitored(p.status) && p.lastSeen == Millis(SeenAt(s.seen, p.nodeId)))
  {
    hide Store, Valids, DistinctIds, LastTold, Node;
    StoreDistinct(s);
    ValidsAre(s.table.slots);
  }

  /** What a verdict is worth: a status above the entry's, after at least its threshold of
      unsigned difference, which true silence never falls short of. */
  lemma VerdictIsDue(t: Table, p: NodeInfo, snapAt: nat, seen: nat)
    requires Monitored(p.status) && seen <= snapAt && p.lastSeen == Millis(seen)
    ensures match Verdict(t, p, Millis(snapAt))
            case None => true
            case Some(status) => Monitored(status) && Rank(p.status) < Rank(status) <= 3 && snapAt - seen >= Threshold(Rank(status))
  {
    ElapsedIsTrueTime(snapAt, seen);
  }

  lemma StatusNode(t: Table, id: uint16, status: NodeStatus)
    requires DistinctIds(t.slots) && DistinctIds(SetStatus(t, id, status).slots) && Node(t.slots, id).Some?
    ensures Node(SetStatus(t, id, status).slots, id) == Some(Node(t.slots, id).value.(status := status))
    ensures forall o: uint16 :: o != id ==> Node(SetStatus(t, id, status).slots, o) == Node(t.slots, o)
  {
    hide DistinctIds;
    var k := FirstId(t.slots, id, 0);
    NodePut(t.slots, k, t.slots[k].(status := status));
  }

  lemma JudgeKeeps(s: System)
    requires Store(s) && MonitorOk(s) && s.pending != [] && Store(JudgedFirst(s))
    ensures MonitorOk(JudgedFirst(s))
  {
    hide LogOk, LastTold, Node, Store, DistinctIds, SetStatus, Verdict, ToldWell;
    var u := JudgedFirst(s);
    var p := s.pending[0];
    assert PendingOk(s, p) && TimesOk(s, p.nodeId) && NodeOk(s, p.nodeId);
    VerdictIsDue(s.table, p, s.snapAt, SeenAt(s.snapSeen, p.nodeId));
    assert forall i :: 0 <= i < |u.pending| ==> u.pending[i] == s.pending[i + 1];
    forall id: uint16 ensures TimesOk(u, id) {
      assert TimesOk(s, id);
    }
    match Verdict(s.table, p, Millis(s.snapAt))
    case None =>
      assert u == s.(pending := s.pending[1..]);
      QuietKeeps(s, u);
    case Some(status) =>
      StoreDistinct(s);
      StoreDistinct(u);
      StatusNode(s.table, p.nodeId, status);
      ToldNow(s, p, status);
      TellingKeeps(s, u, p, status);
  }

  lemma QuietKeeps(s: System, u: System)
    requires MonitorOk(s) && s.pending != [] && u == s.(pending := s.pending[1..])
    ensures MonitorOk(u)
  {
    hide LogOk, LastTold, Node;
    forall id: uint16 ensures NodeOk(u, id) && TimesOk(u, id) {
      assert NodeOk(s, id) && TimesOk(s, id);
    }
    forall i | 0 <= i < |u.pending| ensures PendingOk(u, u.pending[i]) {
      assert PendingOk(s, s.pending[i + 1]);
    }
    forall i | 0 <= i < |u.log| ensures HeardOk(u, u.log[i]) {
      assert HeardOk(s, s.log[i]);
    }
  }

  lemma ToldNow(s: System, p: NodeInfo, status: NodeStatus)
    requires MonitorOk(s) && PendingOk(s, p)
    requires Rank(p.status) < Rank(status) <= 3
    requires s.snapAt - SeenAt(s.snapSeen, p.nodeId) >= Threshold(Rank(status))
    ensures ToldWell(s.log, Told(p.nodeId, Rank(status), s.snapAt))
  {
    hide LogOk, LastTold, Node;
    assert NodeOk(s, p.nodeId);
    forall j | 0 <= j < |s.log| && s.log[j].Heard? && s.log[j].id == p.nodeId
      ensures s.log[j].at <= s.snapAt - Threshold(Rank(status)) || s.log[j].at >= s.snapAt
    {
      assert HeardOk(s, s.log[j]);
    }
  }

  lemma TellingKeeps(s: System, u: System, p: NodeInfo, status: NodeStatus)
    requires MonitorOk(s) && s.pending != [] && p == s.pending[0] && Monitored(status)
    requires ToldWell(s.log, Told(p.nodeId, Rank(status), s.snapAt))
    requires u == s.(table := u.table, pending := s.pending[1..], log := s.log + [Told(p.nodeId, Rank(status), s.snapAt)])
    requires Node(s.table.slots, p.nodeId).Some?
    requires Node(u.table.slots, p.nodeId) == Some(Node(s.table.slots, p.nodeId).value.(status := status))
    requires forall o: uint16 :: o != p.nodeId ==> Node(u.table.slots, o) == Node(s.table.slots, o)
    ensures MonitorOk(u)
  {
    hide LogOk, LastTold, Node, ToldWell;
    var x := Told(p.nodeId, Rank(status), s.snapAt);
    LogGrows(s.log, x);
    forall o: uint16 ensures NodeOk(u, o) && TimesOk(u, o) {
      assert NodeOk(s, o) && TimesOk(s, o);
      LastToldGrows(s.log, x, o);
    }
    forall i | 0 <= i < |u.pending| ensures PendingOk(u, u.pending[i]) {
      assert PendingOk(s, s.pending[i + 1]);
      assert s.pending[0].nodeId != s.pending[i + 1].nodeId;
    }
    forall i | 0 <= i < |u.log| ensures HeardOk(u, u.log[i]) {
      if i < |s.log| {
        assert HeardOk(s, s.log[i]);
      }
    }
  }

  // ── Runs ───────────────────────────────────────────────────────────────────

  lemma LaterKeeps(s: System, u: System)
    requires MonitorOk(s) && s.clock <= u.clock && u == s.(clock := u.clock, table := u.table, nvs := u.nvs)
    requires u.table.slots == s.table.slots
    ensures MonitorOk(u)
  {
    hide LogOk, LastTold, Node;
    forall id: uint16 ensures NodeOk(u, id) && TimesOk(u, id) {
      assert NodeOk(s, id) && TimesOk(s, id);
    }
    forall i | 0 <= i < |u.pending| ensures PendingOk(u, u.pending[i]) {
      assert PendingOk(s, s.pending[i]);
    }
    forall i | 0 <= i < |u.log| ensures HeardOk(u, u.log[i]) {
      assert HeardOk(s, s.log[i]);
    }
  }

  /** After a reset nobody has been heard, and everyone loaded is OFFLINE. */
  lemma FreshOk(s: System)
    requires s.clock == s.snapAt == 0 && s.seen == s.snapSeen == map[] && s.pending == [] && s.log == []
    requires forall i :: 0 <= i < |s.table.slots| && s.table.slots[i].valid ==>
               s.table.slots[i].status == Offline && s.table.slots[i].lastSeen == 0
    ensures MonitorOk(s)
  {
  }

  lemma BootedOffline(s: System, order: seq<string>)
    requires Store(s) && Iterates(s.nvs.blobs, order) && Listed(s.nvs.blobs, order)
    ensures var t := Registry.Booted(s.nvs, order);
            forall i :: 0 <= i < |t.slots| && t.slots[i].valid ==> t.slots[i].status == Offline && t.slots[i].lastSeen == 0
  {
    hide Registry.Booted, Image, NvsOk, Allocated, Extends;
    var n: nat :| StoreOk(s, n);
    LoadRestores(s.nvs, order);
  }
}
