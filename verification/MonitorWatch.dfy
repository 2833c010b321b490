/** What the monitor may not miss, and how slow it may be: a node silent past a threshold is
    marked by the end of the pass, provided the 32-bit difference is the true silence. */
module MonitorWatch {
  import opened Clock
  import opened Hex
  import opened Registry
  import opened RegistrySteps
  import opened Root
  import opened RegistryRuns
  import opened Monitor
  import opened MonitorTheorems

  /** The rank a silence of `ms` calls for. */
  function Due(ms: int): nat {
    if ms >= LOST_MS then 3 else if ms >= OFFLINE_MS then 2 else if ms >= WARNING_MS then 1 else 0
  }

  /** Silence of a node at the last snapshot; not positive if it was heard since. */
  function Silence(s: System, id: uint16): int {
    s.snapAt - SeenAt(s.seen, id)
  }

  predicate IsWatched(n: NodeInfo) {
    n.nodeType != NODE_TYPE_HMI
  }

  ghost predicate IsPending(s: System, id: uint16) {
    exists i :: 0 <= i < |s.pending| && s.pending[i].nodeId == id
  }

  /** Whoever calls for a rank has it, or is still to be judged. */
  ghost predicate Caught(s: System, id: uint16) {
    match Node(s.table.slots, id)
    case None => true
    case Some(n) => IsWatched(n) ==> Due(Silence(s, id)) <= Rank(n.status) || IsPending(s, id)
  }

  /** A pending entry is of a node heard since, or still the live record, with a silence that
      the 32-bit difference shows exactly if it matters. */
  ghost predicate EntryExact(gap: nat, s: System, p: NodeInfo) {
    Silence(s, p.nodeId) <= 0 ||
    match Node(s.table.slots, p.nodeId)
    case None => true
    case Some(n) =>
      && n.status == p.status && SeenAt(s.snapSeen, p.nodeId) == SeenAt(s.seen, p.nodeId)
      && (IsWatched(n) && p.status != Lost ==> Silence(s, p.nodeId) < LOST_MS + gap)
  }

  ghost predicate Watchful(gap: nat, s: System) {
    && (forall id: uint16 :: Caught(s, id))
    && forall i :: 0 <= i < |s.pending| ==> EntryExact(gap, s, s.pending[i])
  }

  // ── Steps ──────────────────────────────────────────────────────────────────

  lemma HearingWatched(gap: nat, s: System, u: System, id: uint16, at: nat)
    requires MonitorOk(s) && Watchful(gap, s) && Hears(s, u, id, at)
    ensures Watchful(gap, u)
  {
    hide Node, LogOk, LastTold;
    forall o: uint16 ensures Caught(u, o) {
      assert Caught(s, o);
      if IsPending(s, o) {
        assert IsPending(u, o);
      }
    }
    forall i | 0 <= i < |u.pending| ensures EntryExact(gap, u, u.pending[i]) {
      assert EntryExact(gap, s, s.pending[i]);
    }
  }

  lemma LaterWatched(gap: nat, s: System, u: System)
    requires Watchful(gap, s) && u == s.(clock := u.clock, table := u.table, nvs := u.nvs)
    requires u.table.slots == s.table.slots
    ensures Watchful(gap, u)
  {
    hide Node;
    forall o: uint16 ensures Caught(u, o) {
      assert Caught(s, o);
      if IsPending(s, o) {
        assert IsPending(u, o);
      }
    }
    forall i | 0 <= i < |u.pending| ensures EntryExact(gap, u, u.pending[i]) {
      assert EntryExact(gap, s, s.pending[i]);
    }
  }

  lemma SnapshotWatched(gap: nat, s: System, at: nat)
    requires Store(s) && MonitorOk(s) && Watchful(gap, s) && Enabled(gap, s, Snapshot(at))
    ensures Watchful(gap, Next(gap, s, Snapshot(at)))
  {
    hide Store, Node, LogOk, LastTold, Valids;
    var u := Next(gap, s, Snapshot(at));
    StoreDistinct(s);
    forall o: uint16 ensures Caught(u, o) {
      if Node(s.table.slots, o).Some? {
        NodeIsPending(s, o);
        assert IsPending(u, o);
      }
    }
    forall i | 0 <= i < |u.pending| ensures EntryExact(gap, u, u.pending[i]) {
      SnapshotEntry(s, i);
      assert Caught(s, u.pending[i].nodeId) && !IsPending(s, u.pending[i].nodeId);
      assert NodeOk(s, u.pending[i].nodeId);
    }
  }

  lemma NodeIsPending(s: System, id: uint16)
    requires Node(s.table.slots, id).Some?
    ensures exists i :: 0 <= i < |Valids(s.table.slots)| && Valids(s.table.slots)[i].nodeId == id
  {
    hide Valids;
    ValidsHold(s.table.slots, FirstId(s.table.slots, id, 0));
  }

  /** The verdict on an exact entry brings the node up to the rank it calls for. */
  lemma VerdictCatches(t: Table, p: NodeInfo, snapAt: nat, seen: nat)
    requires Monitored(p.status) && seen <= snapAt && p.lastSeen == Millis(seen) && !IsHmi(t, p.nodeId)
    requires p.status != Lost ==> snapAt - seen < WRAP
    ensures match Verdict(t, p, Millis(snapAt))
            case None => Due(snapAt - seen) <= Rank(p.status)
            case Some(status) => Due(snapAt - seen) <= Rank(status)
  {
    ElapsedIsTrueTime(snapAt, seen);
  }

  lemma JudgeWatched(gap: nat, s: System)
    requires Store(s) && MonitorOk(s) && Watchful(gap, s) && s.pending != [] && Store(JudgedFirst(s))
    requires LOST_MS + gap <= WRAP
    ensures Watchful(gap, JudgedFirst(s))
  {
    hide Store, Node, LogOk, LastTold, DistinctIds, SetStatus, Verdict;
    var u := JudgedFirst(s);
    var p := s.pending[0];
    assert PendingOk(s, p) && TimesOk(s, p.nodeId) && EntryExact(gap, s, p);
    JudgedNode(s);
    forall o: uint16 ensures Caught(u, o) {
      assert Caught(s, o);
      if o != p.nodeId && IsPending(s, o) {
        var i :| 0 <= i < |s.pending| && s.pending[i].nodeId == o;
        assert u.pending[i - 1].nodeId == o;
      }
      if o == p.nodeId && Silence(s, o) > 0 && IsWatched(Node(s.table.slots, o).value) {
        WatchedIsNotHmi(s.table, o);
        VerdictCatches(s.table, p, s.snapAt, SeenAt(s.snapSeen, o));
      }
    }
    forall i | 0 <= i < |u.pending| ensures EntryExact(gap, u, u.pending[i]) {
      assert u.pending[i] == s.pending[i + 1] && s.pending[0].nodeId != s.pending[i + 1].nodeId;
      assert EntryExact(gap, s, s.pending[i + 1]);
    }
  }

  lemma WatchedIsNotHmi(t: Table, id: uint16)
    requires Node(t.slots, id).Some?
    ensures IsHmi(t, id) <==> !IsWatched(Node(t.slots, id).value)
  {
  }

  /** Judging writes the verdict into the judged node, and into no other. */
  lemma JudgedNode(s: System)
    requires Store(s) && s.pending != [] && Store(JudgedFirst(s)) && Node(s.table.slots, s.pending[0].nodeId).Some?
    ensures var p, u := s.pending[0], JudgedFirst(s);
            && u.seen == s.seen && u.snapSeen == s.snapSeen && u.snapAt == s.snapAt && u.pending == s.pending[1..]
            && (forall o: uint16 :: o != p.nodeId ==> Node(u.table.slots, o) == Node(s.table.slots, o))
            && match Verdict(s.table, p, Millis(s.snapAt))
               case None => Node(u.table.slots, p.nodeId) == Node(s.table.slots, p.nodeId)
               case Some(status) => Node(u.table.slots, p.nodeId) == Some(Node(s.table.slots, p.nodeId).value.(status := status))
  {
    hide Store, Node, DistinctIds, SetStatus, Verdict;
    match Verdict(s.table, s.pending[0], Millis(s.snapAt))
    case None =>
    case Some(status) =>
      StoreDistinct(s);
      StoreDistinct(JudgedFirst(s));
      StatusNode(s.table, s.pending[0].nodeId, status);
  }

  lemma FreshWatched(gap: nat, s: System)
    requires s.snapAt == 0 && s.pending == []
    ensures Watchful(gap, s)
  {
  }

  lemma WatchedStep(gap: nat, s: System, st: Step)
    requires Store(s) && MonitorOk(s) && Watchful(gap, s) && Enabled(gap, s, st) && LOST_MS + gap <= WRAP
    ensures Watchful(gap, Next(gap, s, st))
  {
    hide MonitorOk, Store, Watchful, Registered, Beaten, JudgedFirst, Hears, Saved, Registry.Booted, Node, Iterates;
    StepKeeps(gap, s, st);
    var u := Next(gap, s, st);
    match st
    case Registers(reg, mac, at) =>
      RegisterHears(s, reg, mac, at);
      HeardOrLaterWatched(gap, s, u, Registry.Register(s.table, reg, mac, Millis(at)).1, at);
    case Beats(id, rssi, payload, at) =>
      IsNodeOk(s, id);
      BeatHears(s, id, rssi, payload, at);
      HeardOrLaterWatched(gap, s, u, id, at);
    case Snapshot(at) => SnapshotWatched(gap, s, at);
    case Judge => JudgeWatched(gap, s);
    case Flush(opens) =>
      SavedSlots(s.table, s.nvs);
      LaterWatched(gap, s, u);
    case Reset(order) => FreshWatched(gap, u);
  }

  lemma HeardOrLaterWatched(gap: nat, s: System, u: System, id: uint16, at: nat)
    requires MonitorOk(s) && Watchful(gap, s) && s.clock <= at && (u == s.(clock := at) || Hears(s, u, id, at))
    ensures Watchful(gap, u)
  {
    hide MonitorOk, Watchful, Hears;
    if u == s.(clock := at) {
      LaterWatched(gap, s, u);
    } else {
      HearingWatched(gap, s, u, id, at);
    }
  }

  lemma {:induction false} WatchedRun(gap: nat, s: System, run: seq<Step>)
    requires Store(s) && MonitorOk(s) && Watchful(gap, s) && Possible(gap, s, run) && LOST_MS + gap <= WRAP
    ensures Watchful(gap, After(gap, s, run))
    decreases |run|
  {
    hide MonitorOk, Store, Watchful, Next, Enabled;
    if run == [] {
    } else {
      MonitorStep(gap, s, run[0]);
      WatchedStep(gap, s, run[0]);
      WatchedRun(gap, Next(gap, s, run[0]), run[1..]);
    }
  }

  lemma AlwaysWatchful(gap: nat, s: System)
    requires Reachable(gap, s) && LOST_MS + gap <= WRAP
    ensures Watchful(gap, s)
  {
    hide MonitorOk, Store, Watchful, Possible, After;
    var run: seq<Step> :| Possible(gap, FirstBoot(), run) && s == After(gap, FirstBoot(), run);
    FirstBootOk();
    FreshOk(FirstBoot());
    FreshWatched(gap, FirstBoot());
    WatchedRun(gap, FirstBoot(), run);
  }

  // ── Theorems ───────────────────────────────────────────────────────────────

  /** When a pass is over, every node but the HMI that was silent for 15 s, 30 s or 120 s at
      its snapshot is at least WARNING, OFFLINE or LOST. */
  lemma NobodyIsMissed(gap: nat, s: System, id: uint16)
    requires Reachable(gap, s) && LOST_MS + gap <= WRAP && s.pending == []
    requires Node(s.table.slots, id).Some? && IsWatched(Node(s.table.slots, id).value)
    ensures Due(s.snapAt - SeenAt(s.seen, id)) <= Rank(Node(s.table.slots, id).value.status)
  {
    hide Reachable, Node;
    AlwaysWatchful(gap, s);
    assert Caught(s, id);
  }

  /** At the next snapshot, the unsigned difference the monitor computes for a node. */
  function Shown(s: System, id: uint16, at: nat): uint32
    requires Node(s.table.slots, id).Some?
  {
    Elapsed(Millis(at), Node(s.table.slots, id).value.lastSeen)
  }

  /** At any snapshot, a node that is neither the HMI nor LOST has been silent for less than
      120 s plus the gap, and the unsigned 32-bit difference is its true silence. */
  lemma WrapIsHarmless(gap: nat, s: System, at: nat, id: uint16)
    requires Reachable(gap, s) && LOST_MS + gap <= WRAP && Enabled(gap, s, Snapshot(at))
    requires Node(s.table.slots, id).Some? && IsWatched(Node(s.table.slots, id).value) && !IsLost(s, id)
    ensures 0 <= at - SeenAt(s.seen, id) < LOST_MS + gap
    ensures Shown(s, id, at) == at - SeenAt(s.seen, id)
  {
    hide Reachable, Node, Store, LogOk, LastTold;
    AlwaysOk(gap, s);
    assert NodeOk(s, id) && TimesOk(s, id);
    NobodyIsMissed(gap, s, id);
    ElapsedIsTrueTime(at, SeenAt(s.seen, id));
  }

  /** Only the first slot in use: only it is in the snapshot. */
  lemma {:induction false} OnlyFirst(slots: seq<NodeInfo>)
    requires slots != [] && slots[0].valid && forall i :: 1 <= i < |slots| ==> !slots[i].valid
    ensures Valids(slots) == [slots[0]]
  {
    if |slots| == 1 {
    } else {
      OnlyFirst(slots[..|slots| - 1]);
    }
  }

  const PLAIN: RegPayload := RegPayload(0x01, "node", Firmware(1, 0, 0), false)

  /** The first registration ever, at time 0. */
  lemma FirstNode()
    ensures var mac := [1, 2, 3, 4, 5, 6];
            var u := Registered(FirstBoot(), PLAIN, mac, 0);
            && Registry.Register(FirstBoot().table, PLAIN, mac, 0).1 == 2
            && Node(u.table.slots, 2) == Some(Filled(EMPTY, 2, PLAIN, mac, 0))
            && Valids(u.table.slots) == [Filled(EMPTY, 2, PLAIN, mac, 0)]
            && u.seen == map[2 := 0] && u.clock == 0 && u.snapAt == 0 && u.pending == []
  {
    hide Valids;
    var mac := [1, 2, 3, 4, 5, 6];
    var t := AtReset();
    assert FirstMac(t.slots, mac, 0) == |t.slots|;
    assert FirstFree(t.slots, 0) == 0;
    var u := Registered(FirstBoot(), PLAIN, mac, 0);
    assert u.table.slots == t.slots[0 := Filled(EMPTY, 2, PLAIN, mac, 0)];
    OnlyFirst(u.table.slots);
  }

  lemma RunOfThree(gap: nat, s: System, run: seq<Step>, a: System, b: System, c: System)
    requires |run| == 3 && Enabled(gap, s, run[0]) && a == Next(gap, s, run[0])
    requires Enabled(gap, a, run[1]) && b == Next(gap, a, run[1])
    requires Enabled(gap, b, run[2]) && c == Next(gap, b, run[2])
    ensures Possible(gap, s, run) && After(gap, s, run) == c
  {
    hide Next, Enabled;
    assert run[1..][0] == run[1] && run[2..][0] == run[2] && run[1..][1..] == run[2..] && run[2..][1..] == [];
    assert Possible(gap, c, []);
    assert Possible(gap, b, run[2..]) && After(gap, b, run[2..]) == c;
    assert Possible(gap, a, run[1..]) && After(gap, a, run[1..]) == c;
  }

  /** With a longer gap, a node is OFFLINE at 119999 ms, and the next snapshot, a full turn of
      the clock after it was heard, takes it for fresh. */
  lemma WrapHurts(gap: nat) returns (s: System)
    requires LOST_MS + gap > WRAP
    ensures Reachable(gap, s) && Enabled(gap, s, Snapshot(WRAP))
    ensures Node(s.table.slots, 2).Some? && IsWatched(Node(s.table.slots, 2).value) && !IsLost(s, 2)
    ensures SeenAt(s.seen, 2) == 0 && Shown(s, 2, WRAP) == 0
  {
    hide Node, Registry.Register, Registered, Store, MonitorOk, Valids, SetStatus;
    var mac := [1, 2, 3, 4, 5, 6];
    var run := [Registers(PLAIN, mac, 0), Snapshot(LOST_MS - 1), Judge];
    FirstNode();
    var a := Next(gap, FirstBoot(), run[0]);
    var b := Next(gap, a, run[1]);
    var c := JudgedFirst(b);
    FirstBootOk();
    StepKeeps(gap, FirstBoot(), run[0]);
    StepKeeps(gap, a, run[1]);
    StepKeeps(gap, b, Judge);
    JudgedNode(b);
    s := c;
    RunOfThree(gap, FirstBoot(), run, a, b, c);
  }

  /** The monitor's 32-bit arithmetic shows the true silence of everyone it watches, in runs
      of any length, exactly if snapshots come at most 2^32 - 120000 ms apart. */
  lemma WrapIsHarmlessIff(gap: nat)
    ensures (forall s: System, at: nat, id: uint16 ::
               Reachable(gap, s) && Enabled(gap, s, Snapshot(at)) && Node(s.table.slots, id).Some? &&
               IsWatched(Node(s.table.slots, id).value) && !IsLost(s, id) ==>
                 Shown(s, id, at) == at - SeenAt(s.seen, id))
            <==> LOST_MS + gap <= WRAP
  {
    hide Reachable, Node, Enabled, IsLost, Shown;
    if LOST_MS + gap <= WRAP {
      forall s: System, at: nat, id: uint16 |
        Reachable(gap, s) && Enabled(gap, s, Snapshot(at)) && Node(s.table.slots, id).Some? &&
        IsWatched(Node(s.table.slots, id).value) && !IsLost(s, id)
        ensures Shown(s, id, at) == at - SeenAt(s.seen, id)
      {
        WrapIsHarmless(gap, s, at, id);
      }
    } else {
      var s := WrapHurts(gap);
      assert Shown(s, 2, WRAP) != WRAP - SeenAt(s.seen, 2);
    }
  }
}
