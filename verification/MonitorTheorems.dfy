/** What the HMI is told about a node, over every run: escalation, justification, and LOST. */
module MonitorTheorems {
  import opened Clock
  import opened Hex
  import opened Registry
  import opened RegistrySteps
  import opened Root
  import RegistryRuns
  import opened Monitor

  // ── Every step, every run ──────────────────────────────────────────────────

  lemma MonitorStep(gap: nat, s: System, st: Step)
    requires RegistryRuns.Store(s) && MonitorOk(s) && Enabled(gap, s, st)
    ensures RegistryRuns.Store(Next(gap, s, st)) && MonitorOk(Next(gap, s, st))
  {
    hide MonitorOk, RegistryRuns.Store, Registered, Beaten, JudgedFirst, Hears, Saved, Registry.Booted, Node, Iterates;
    RegistryRuns.StepKeeps(gap, s, st);
    var u := Next(gap, s, st);
    match st
    case Registers(reg, mac, at) =>
      RegisterHears(s, reg, mac, at);
      HeardOrLater(s, u, Registry.Register(s.table, reg, mac, Millis(at)).1, at);
    case Beats(id, rssi, payload, at) =>
      IsNodeOk(s, id);
      BeatHears(s, id, rssi, payload, at);
      HeardOrLater(s, u, id, at);
    case Snapshot(at) => SnapshotKeeps(s, at);
    case Judge => JudgeKeeps(s);
    case Flush(opens) =>
      RegistryRuns.SavedSlots(s.table, s.nvs);
      LaterKeeps(s, u);
    case Reset(order) =>
      BootedOffline(s, order);
      FreshOk(u);
  }

  lemma IsNodeOk(s: System, id: uint16)
    requires MonitorOk(s)
    ensures NodeOk(s, id) && TimesOk(s, id)
  {
  }

  lemma HeardOrLater(s: System, u: System, id: uint16, at: nat)
    requires MonitorOk(s) && s.clock <= at && (u == s.(clock := at) || Hears(s, u, id, at))
    ensures MonitorOk(u)
  {
    hide MonitorOk, Hears;
    if u == s.(clock := at) {
      LaterKeeps(s, u);
    } else {
      HearingKeeps(s, u, id, at);
    }
  }

  lemma {:induction false} MonitorRun(gap: nat, s: System, run: seq<Step>)
    requires RegistryRuns.Store(s) && MonitorOk(s) && Possible(gap, s, run)
    ensures RegistryRuns.Store(After(gap, s, run)) && MonitorOk(After(gap, s, run))
    decreases |run|
  {
    hide MonitorOk, RegistryRuns.Store, Next, Enabled;
    if run == [] {
    } else {
      MonitorStep(gap, s, run[0]);
      MonitorRun(gap, Next(gap, s, run[0]), run[1..]);
    }
  }

  lemma AlwaysOk(gap: nat, s: System)
    requires Reachable(gap, s)
    ensures RegistryRuns.Store(s) && MonitorOk(s)
  {
    hide MonitorOk, RegistryRuns.Store, Possible, After;
    var run: seq<Step> :| Possible(gap, FirstBoot(), run) && s == After(gap, FirstBoot(), run);
    RegistryRuns.FirstBootOk();
    FreshOk(FirstBoot());
    MonitorRun(gap, FirstBoot(), run);
  }

  // ── Escalation ─────────────────────────────────────────────────────────────

  /** Told at `i` and not heard since, what was last told is no less. */
  lemma {:induction false} ToldSince(log: seq<Note>, i: nat, k: nat)
    requires LogOk(log) && i < k <= |log| && log[i].Told?
    requires forall j :: i < j < k ==> !(log[j].Heard? && log[j].id == log[i].id)
    ensures LastTold(log[..k], log[i].id) >= log[i].rank
  {
    assert log[..k][..k - 1] == log[..k - 1];
    if i == k - 1 {
    } else {
      ToldSince(log, i, k - 1);
      if log[k - 1].Told? {
        assert ToldWell(log[..k - 1], log[k - 1]);
      }
    }
  }

  /** In every interleaving, between two hearings of a node (heartbeats or registrations) its
      notifications strictly increase in WARNING < OFFLINE < LOST. */
  lemma Escalation(gap: nat, s: System, i: nat, k: nat)
    requires Reachable(gap, s) && i < k < |s.log|
    requires s.log[i].Told? && s.log[k].Told? && s.log[i].id == s.log[k].id
    requires forall j :: i < j < k ==> !(s.log[j].Heard? && s.log[j].id == s.log[i].id)
    ensures 1 <= s.log[i].rank < s.log[k].rank <= 3
  {
    hide Reachable, LastTold, Node;
    AlwaysOk(gap, s);
    ToldSince(s.log, i, k);
    assert ToldWell(s.log[..k], s.log[k]) && ToldWell(s.log[..i], s.log[i]);
  }

  /** Every notification was justified by real silence at its snapshot: 15 s, 30 s or 120 s
      since the reset, and since anything heard of the node before that snapshot, clock wraps
      notwithstanding. */
  lemma Justified(gap: nat, s: System, k: nat)
    requires Reachable(gap, s) && k < |s.log| && s.log[k].Told?
    ensures var x := s.log[k];
            && x.snapAt >= Threshold(x.rank)
            && forall j :: 0 <= j < k && s.log[j].Heard? && s.log[j].id == x.id && s.log[j].at < x.snapAt ==>
                 x.snapAt - s.log[j].at >= Threshold(x.rank)
  {
    hide Reachable, LastTold, Node;
    AlwaysOk(gap, s);
    var before := s.log[..k];
    assert ToldWell(before, s.log[k]);
    forall j | 0 <= j < k && s.log[j].Heard? && s.log[j].id == s.log[k].id && s.log[j].at < s.log[k].snapAt
      ensures s.log[k].snapAt - s.log[j].at >= Threshold(s.log[k].rank)
    {
      assert before[j] == s.log[j];
    }
  }

  // ── LOST ───────────────────────────────────────────────────────────────────

  predicate IsLost(s: System, id: uint16) {
    var n := Node(s.table.slots, id);
    n.Some? && n.value.status == Lost
  }

  /** The steps that may bring a node back: its own registration, and a reset. */
  predicate Recalls(s: System, st: Step, id: uint16) {
    st.Reset? || (st.Registers? && Registry.Register(s.table, st.reg, st.mac, Millis(st.at)).1 == id)
  }

  lemma LostStays(gap: nat, s: System, st: Step, id: uint16)
    requires RegistryRuns.Store(s) && MonitorOk(s) && Enabled(gap, s, st)
    requires IsLost(s, id) && !Recalls(s, st, id)
    ensures IsLost(Next(gap, s, st), id)
  {
    hide MonitorOk, RegistryRuns.Store, Registered, Beaten, JudgedFirst, Saved, Registry.Booted, Node, Registry.Register;
    RegistryRuns.StepKeeps(gap, s, st);
    match st
    case Registers(reg, mac, at) => RegisterHears(s, reg, mac, at);
    case Beats(o, rssi, payload, at) =>
      IsNodeOk(s, o);
      BeatHears(s, o, rssi, payload, at);
    case Snapshot(at) =>
    case Judge => LostIsNotJudged(s, id);
    case Flush(opens) => RegistryRuns.SavedSlots(s.table, s.nvs);
  }

  /** No verdict touches a LOST node: its pending entry is LOST too. */
  lemma LostIsNotJudged(s: System, id: uint16)
    requires RegistryRuns.Store(s) && MonitorOk(s) && s.pending != [] && IsLost(s, id)
    requires RegistryRuns.Store(JudgedFirst(s))
    ensures IsLost(JudgedFirst(s), id)
  {
    hide RegistryRuns.Store, Node, LogOk, LastTold, SetStatus, RegistryRuns.DistinctIds;
    var p := s.pending[0];
    assert PendingOk(s, p);
    match Verdict(s.table, p, Millis(s.snapAt))
    case None =>
    case Some(status) =>
      RegistryRuns.StoreDistinct(s);
      RegistryRuns.StoreDistinct(JudgedFirst(s));
      StatusNode(s.table, p.nodeId, status);
  }

  ghost predicate NeverRecalled(gap: nat, s: System, run: seq<Step>, id: uint16)
    requires Possible(gap, s, run)
    decreases |run|
  {
    run == [] || (!Recalls(s, run[0], id) && NeverRecalled(gap, Next(gap, s, run[0]), run[1..], id))
  }

  lemma {:induction false} LostRun(gap: nat, s: System, run: seq<Step>, id: uint16)
    requires RegistryRuns.Store(s) && MonitorOk(s) && Possible(gap, s, run)
    requires IsLost(s, id) && NeverRecalled(gap, s, run, id)
    ensures IsLost(After(gap, s, run), id)
    decreases |run|
  {
    hide MonitorOk, RegistryRuns.Store, Next, Enabled, IsLost, Recalls;
    if run == [] {
    } else {
      MonitorStep(gap, s, run[0]);
      LostStays(gap, s, run[0], id);
      LostRun(gap, Next(gap, s, run[0]), run[1..], id);
    }
  }

  /** A LOST node stays LOST through any run, heartbeats of its own included, until it
      registers or the ROOT resets. */
  lemma LostPersists(gap: nat, s: System, run: seq<Step>, id: uint16)
    requires Reachable(gap, s) && Possible(gap, s, run)
    requires IsLost(s, id) && NeverRecalled(gap, s, run, id)
    ensures IsLost(After(gap, s, run), id)
  {
    hide Reachable, MonitorOk, RegistryRuns.Store, Possible, After, IsLost, NeverRecalled;
    AlwaysOk(gap, s);
    LostRun(gap, s, run, id);
  }

  /** Its registration makes it ONLINE again, a reset OFFLINE or unknown. */
  lemma RecalledIsNotLost(gap: nat, s: System, st: Step, id: uint16)
    requires Reachable(gap, s) && Enabled(gap, s, st) && id != 0 && Recalls(s, st, id)
    ensures !IsLost(Next(gap, s, st), id)
  {
    hide Reachable, MonitorOk, RegistryRuns.Store, Registered, Registry.Booted, Registry.Register;
    AlwaysOk(gap, s);
    RegistryRuns.StepKeeps(gap, s, st);
    match st
    case Registers(reg, mac, at) => RegisterHears(s, reg, mac, at);
    case Reset(order) => BootedOffline(s, order);
  }
}
