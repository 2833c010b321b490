/** Allocation, persistence and identity over every run of the ROOT, resets included. */
module RegistryRuns {
  import opened Clock
  import opened Hex
  import opened Registry
  import opened RegistryImage
  import opened RegistrySteps
  import opened Root

  // ── Invariant ──────────────────────────────────────────────────────────────

  /** `m` knows every node of `base` under the same id. */
  ghost predicate Extends(m: map<string, Entry>, base: map<string, Entry>) {
    forall k :: k in base ==> k in m && m[k].nodeId == base[k].nodeId
  }

  /** Flash holds all there is to save. */
  ghost predicate InSync(t: Table, nvs: Nvs) {
    nvs.blobs == Image(t.slots) && BootId(nvs) == t.nextId
  }

  ghost predicate StoreOk(s: System, n: nat) {
    && TableOk(s.table, n)
    && s.table.count == n + s.again
    && NvsOk(s.nvs)
    && (forall k :: k in Image(s.table.slots) ==> WellKey(k))
    && Extends(Image(s.table.slots), s.nvs.blobs)
    && (!s.table.dirty ==> InSync(s.table, s.nvs))
  }

  ghost predicate Store(s: System) {
    exists n: nat :: StoreOk(s, n)
  }

  // ── Steps ──────────────────────────────────────────────────────────────────

  lemma SavedKeeps(s: System, n: nat)
    requires StoreOk(s, n)
    ensures var (t, nvs) := Saved(s.table, s.nvs);
            && nvs.blobs == Image(s.table.slots) && StoreOk(s.(table := t, nvs := nvs), n)
  {
    hide Image, WellKey, Shape, Allocated;
    assert s.nvs.blobs + Image(s.table.slots) == Image(s.table.slots);
    AtLeastTwo(Image(s.table.slots), s.table.nextId);
  }

  lemma AtLeastTwo(m: map<string, Entry>, next: int)
    requires Allocated(m, next)
    ensures 2 <= next <= 67
  {
  }

  /** What a registration does to the store: the id it gives is that of the MAC afterwards,
      and everyone else keeps theirs. */
  ghost predicate RegisteredWell(s: System, reg: RegPayload, mac: Mac, at: nat) {
    var u := Registered(s, reg, mac, at);
    var id := Registry.Register(s.table, reg, mac, Millis(at)).1;
    && Store(u) && u.nvs == s.nvs
    && Extends(Image(u.table.slots), Image(s.table.slots))
    && (if id == 0 then u == s.(clock := at)
        else u.table.dirty && MacKey(mac) in Image(u.table.slots) && Image(u.table.slots)[MacKey(mac)].nodeId == id)
  }

  /** A store whose table gains or replaces the entry of one MAC, and is marked dirty. */
  lemma StorePut(s: System, n: nat, u: System, n': nat, mac: Mac, e: Entry)
    requires StoreOk(s, n) && TableOk(u.table, n') && u.table.dirty && u.nvs == s.nvs
    requires u.table.count == n' + u.again
    requires Image(u.table.slots) == Image(s.table.slots)[MacKey(mac) := e]
    requires MacKey(mac) in Image(s.table.slots) ==> e.nodeId == Image(s.table.slots)[MacKey(mac)].nodeId
    ensures StoreOk(u, n') && Extends(Image(u.table.slots), Image(s.table.slots))
  {
    hide Image, MacKey, TableOk, NvsOk;
    KeyIsInvertible(mac, mac);
    assert WellKey(MacKey(mac));
  }

  lemma RegisteredKnown(s: System, n: nat, reg: RegPayload, mac: Mac, at: nat)
    requires StoreOk(s, n) && MacKey(mac) in Image(s.table.slots)
    ensures RegisteredWell(s, reg, mac, at)
  {
    hide Image, MacKey, Shape, Allocated, NvsOk, Registry.Register, WellKey, Extends, InSync;
    var u := Registered(s, reg, mac, at);
    KnownMac(s.table, n, mac);
    SlotCount(s.table, n);
    RegisterKnown(s.table, n, reg, mac, Millis(at));
    IdPositive(Image(s.table.slots), s.table.nextId, MacKey(mac));
    var m := Image(s.table.slots);
    assert m == m[MacKey(mac) := m[MacKey(mac)]];
    var e := if reg.reconnect then m[MacKey(mac)] else RegEntry(m[MacKey(mac)].nodeId, reg);
    StorePut(s, n, u, n, mac, e);
  }

  lemma RegisteredNew(s: System, n: nat, reg: RegPayload, mac: Mac, at: nat)
    requires StoreOk(s, n) && MacKey(mac) !in Image(s.table.slots) && n < MAX_NODES
    ensures RegisteredWell(s, reg, mac, at)
  {
    hide Image, MacKey, Shape, Allocated, NvsOk, Registry.Register, WellKey, Extends, InSync;
    var u := Registered(s, reg, mac, at);
    KnownMac(s.table, n, mac);
    SlotCount(s.table, n);
    RegisterNew(s.table, n, reg, mac, Millis(at));
    AtLeastTwo(Image(s.table.slots), s.table.nextId);
    StorePut(s, n, u, n + 1, mac, RegEntry(Skip(s.table.nextId), reg));
  }

  lemma RegisteredFull(s: System, n: nat, reg: RegPayload, mac: Mac, at: nat)
    requires StoreOk(s, n) && MacKey(mac) !in Image(s.table.slots) && n == MAX_NODES
    ensures RegisteredWell(s, reg, mac, at)
  {
    hide Image, MacKey, Shape, Allocated, NvsOk, Registry.Register, WellKey, InSync;
    RegisterFull(s.table, reg, mac, Millis(at));
    assert StoreOk(Registered(s, reg, mac, at), n);
  }

  lemma RegisteredKeeps(s: System, n: nat, reg: RegPayload, mac: Mac, at: nat)
    requires StoreOk(s, n)
    ensures RegisteredWell(s, reg, mac, at)
  {
    hide RegisteredWell, Image, MacKey, Shape, Allocated, NvsOk, Extends, InSync, WellKey;
    SlotCount(s.table, n);
    if MacKey(mac) in Image(s.table.slots) {
      RegisteredKnown(s, n, reg, mac, at);
    } else if n < MAX_NODES {
      RegisteredNew(s, n, reg, mac, at);
    } else {
      RegisteredFull(s, n, reg, mac, at);
    }
  }

  /** A refused registration changes nothing. */
  lemma RefusalIsHarmless(s: System, reg: RegPayload, mac: Mac, at: nat)
    requires Store(s) && Registry.Register(s.table, reg, mac, Millis(at)).1 == 0
    ensures Registered(s, reg, mac, at) == s.(clock := at)
  {
    hide StoreOk, Registered, Registry.Register, Image, MacKey, Extends;
    var n: nat :| StoreOk(s, n);
    RegisteredKeeps(s, n, reg, mac, at);
  }

  lemma SlotCount(t: Table, n: nat)
    requires TableOk(t, n)
    ensures |t.slots| == MAX_NODES && n <= MAX_NODES
  {
  }

  lemma IdPositive(m: map<string, Entry>, next: int, key: string)
    requires Allocated(m, next) && key in m
    ensures m[key].nodeId >= 2
  {
  }

  lemma BeatenKeeps(s: System, n: nat, id: uint16, rssi: int, payload: seq<byte>, at: nat)
    requires StoreOk(s, n)
    ensures var u := Beaten(s, id, rssi, payload, at);
            StoreOk(u, n) && u.nvs == s.nvs && Image(u.table.slots) == Image(s.table.slots)
  {
    hide Image, Shape, Allocated, Heartbeat, FirstId, WellKey;
    HeartbeatKeeps(s.table, n, id, rssi, payload, Millis(at));
  }

  lemma JudgedKeeps(s: System, n: nat)
    requires StoreOk(s, n) && s.pending != []
    ensures var u := JudgedFirst(s);
            StoreOk(u, n) && u.nvs == s.nvs && Image(u.table.slots) == Image(s.table.slots)
  {
    hide Image, Shape, Allocated, SetStatus, Verdict, WellKey;
    match Verdict(s.table, s.pending[0], Millis(s.snapAt))
    case None =>
    case Some(status) =>
      SetStatusKeeps(s.table, n, s.pending[0].nodeId, status);
      StatusDirty(s.table, s.pending[0].nodeId, status);
  }

  lemma StatusDirty(t: Table, id: uint16, status: NodeStatus)
    ensures SetStatus(t, id, status).dirty || SetStatus(t, id, status) == t
  {
  }

  lemma ResetKeeps(s: System, n: nat, order: seq<string>)
    requires StoreOk(s, n) && Iterates(s.nvs.blobs, order) && Listed(s.nvs.blobs, order)
    ensures var u := Restarted(s, order);
            StoreOk(u, |s.nvs.blobs|) && u.nvs == s.nvs && Image(u.table.slots) == s.nvs.blobs
  {
    hide Image, Shape, Allocated, Registry.Booted, WellKey;
    LoadRestores(s.nvs, order);
  }

  lemma StepKeeps(gap: nat, s: System, st: Step)
    requires Store(s) && Enabled(gap, s, st)
    ensures Store(Next(gap, s, st))
    ensures Extends(Next(gap, s, st).nvs.blobs, s.nvs.blobs)
    ensures !st.Reset? ==> Extends(Image(Next(gap, s, st).table.slots), Image(s.table.slots))
    ensures st.Reset? ==> Image(Next(gap, s, st).table.slots) == s.nvs.blobs
  {
    hide Image, TableOk, NvsOk, WellKey, Registered, Beaten, JudgedFirst, Restarted, Saved;
    var n: nat :| StoreOk(s, n);
    match st
    case Registers(reg, mac, at) => RegisteredKeeps(s, n, reg, mac, at);
    case Beats(id, rssi, payload, at) =>
      BeatenKeeps(s, n, id, rssi, payload, at);
      assert StoreOk(Next(gap, s, st), n);
    case Snapshot(at) => assert StoreOk(Next(gap, s, st), n);
    case Judge =>
      JudgedKeeps(s, n);
      assert StoreOk(Next(gap, s, st), n);
    case Flush(opens) =>
      SavedKeeps(s, n);
      SavedSlots(s.table, s.nvs);
      assert StoreOk(Next(gap, s, st), n);
    case Reset(order) =>
      ResetKeeps(s, n, order);
      assert StoreOk(Next(gap, s, st), |s.nvs.blobs|);
  }

  lemma SavedSlots(t: Table, nvs: Nvs)
    ensures Saved(t, nvs).0.slots == t.slots
  {
  }

  lemma {:induction false} RunKeeps(gap: nat, s: System, run: seq<Step>)
    requires Store(s) && Possible(gap, s, run)
    ensures Store(After(gap, s, run))
    decreases |run|
  {
    hide Store, Next, Enabled;
    if run == [] {
    } else {
      StepKeeps(gap, s, run[0]);
      RunKeeps(gap, Next(gap, s, run[0]), run[1..]);
    }
  }

  lemma FirstBootOk()
    ensures Store(FirstBoot())
  {
    ImageOfNothing(AtReset().slots, MAX_NODES);
    assert StoreOk(FirstBoot(), 0);
  }

  lemma ReachableStore(gap: nat, s: System)
    requires Reachable(gap, s)
    ensures Store(s)
  {
    hide Store, Possible, After, FirstBoot;
    var run: seq<Step> :| Possible(gap, FirstBoot(), run) && s == After(gap, FirstBoot(), run);
    FirstBootOk();
    RunKeeps(gap, FirstBoot(), run);
  }

  // ── Theorems ───────────────────────────────────────────────────────────────

  ghost predicate DistinctIds(slots: seq<NodeInfo>) {
    forall i, j :: 0 <= i < j < |slots| && slots[i].valid && slots[j].valid ==> slots[i].nodeId != slots[j].nodeId
  }

  lemma StoreDistinct(s: System)
    requires Store(s)
    ensures |s.table.slots| == MAX_NODES && DistinctIds(s.table.slots)
    ensures forall i, j :: 0 <= i < j < MAX_NODES && s.table.slots[i].valid && s.table.slots[j].valid ==>
              s.table.slots[i].mac != s.table.slots[j].mac
  {
    hide NvsOk, Extends, InSync, Image, MacKey;
    var n: nat :| StoreOk(s, n);
    forall i, j | 0 <= i < j < MAX_NODES && s.table.slots[i].valid && s.table.slots[j].valid
      ensures s.table.slots[i].mac != s.table.slots[j].mac && s.table.slots[i].nodeId != s.table.slots[j].nodeId
    {
      KeyIsInvertible(s.table.slots[i].mac, s.table.slots[j].mac);
      ImageOfSlot(s.table.slots, n, i);
      ImageOfSlot(s.table.slots, n, j);
    }
  }

  /** In every run, with saves and resets: slots in use hold distinct MACs; the ids in use
      are exactly {2 .. next_id-1} minus 0x000F, one a node; next_id is 2+n up to thirteen
      nodes and 3+n from fourteen on, so it stays below 68 and never wraps. */
  lemma IdsAreExact(gap: nat, s: System)
    requires Reachable(gap, s)
    ensures var m := Image(s.table.slots);
            && |m| <= MAX_NODES && s.table.nextId == NextFor(|m|) <= 67
            && (forall id: int :: InUse(m, id) <==> 2 <= id < s.table.nextId && id != NODE_ID_HMI)
            && (forall k, l :: k in m && l in m && m[k].nodeId == m[l].nodeId ==> k == l)
    ensures |s.table.slots| == MAX_NODES
    ensures forall i, j :: 0 <= i < j < MAX_NODES && s.table.slots[i].valid && s.table.slots[j].valid ==>
              s.table.slots[i].mac != s.table.slots[j].mac && s.table.slots[i].nodeId != s.table.slots[j].nodeId
  {
    hide Reachable, NvsOk, Extends, InSync, Image, MacKey;
    ReachableStore(gap, s);
    StoreDistinct(s);
    var n: nat :| StoreOk(s, n);
  }

  /** `s_count` is the number of nodes plus the registrations of known MACs without
      `reconnect` since the last reset: it equals the number of nodes exactly when there were none. */
  lemma CountIsExact(gap: nat, s: System)
    requires Reachable(gap, s)
    ensures s.table.count == |Image(s.table.slots)| + s.again
    ensures s.table.count == |Image(s.table.slots)| <==> s.again == 0
  {
    hide Reachable, NvsOk, Extends, InSync, Image;
    ReachableStore(gap, s);
  }

  /** Whenever nothing is marked dirty, flash equals the persistent part of the table. */
  lemma CleanMeansSaved(gap: nat, s: System)
    requires Reachable(gap, s) && !s.table.dirty
    ensures s.nvs.blobs == Image(s.table.slots) && BootId(s.nvs) == s.table.nextId
  {
    hide Reachable, NvsOk, Extends, Image;
    ReachableStore(gap, s);
  }

  /** Save, then reset: the same nodes with the same entries, in some order of slots, all
      OFFLINE, and the same next id. */
  lemma SaveThenReset(gap: nat, s: System, order: seq<string>)
    requires Reachable(gap, s)
    requires var nvs := Saved(s.table, s.nvs).1; Iterates(nvs.blobs, order) && Listed(nvs.blobs, order)
    ensures var t := Registry.Booted(Saved(s.table, s.nvs).1, order);
            && Image(t.slots) == Image(s.table.slots) && t.nextId == s.table.nextId
            && t.count == |Image(s.table.slots)|
            && forall i :: 0 <= i < |t.slots| && t.slots[i].valid ==> t.slots[i].status == Offline
  {
    hide Reachable, Image, Allocated, Registry.Booted, WellKey;
    ReachableStore(gap, s);
    var n: nat :| StoreOk(s, n);
    SavedKeeps(s, n);
    AtLeastTwo(Image(s.table.slots), s.table.nextId);
    var nvs := Saved(s.table, s.nvs).1;
    LoadRestores(nvs, order);
  }

  // ── Stable identity ────────────────────────────────────────────────────────

  /** The registration of `mac` is in flash at every reset of the run. */
  ghost predicate SavedAtResets(gap: nat, s: System, run: seq<Step>, mac: Mac)
    requires Possible(gap, s, run)
    decreases |run|
  {
    run == [] ||
    ((run[0].Reset? ==> MacKey(mac) in s.nvs.blobs) && SavedAtResets(gap, Next(gap, s, run[0]), run[1..], mac))
  }

  /** A registered MAC keeps its id through any run whose resets find the registration saved. */
  lemma {:induction false} IdentityIsStable(gap: nat, s: System, run: seq<Step>, mac: Mac)
    requires Store(s) && Possible(gap, s, run)
    requires MacKey(mac) in Image(s.table.slots) && SavedAtResets(gap, s, run, mac)
    ensures var t := After(gap, s, run).table;
            MacKey(mac) in Image(t.slots) && Image(t.slots)[MacKey(mac)].nodeId == Image(s.table.slots)[MacKey(mac)].nodeId
    decreases |run|
  {
    hide Store, Next, Enabled, Image, MacKey;
    if run == [] {
    } else {
      StepKeeps(gap, s, run[0]);
      FlashAgrees(s);
      IdentityIsStable(gap, Next(gap, s, run[0]), run[1..], mac);
    }
  }

  lemma FlashAgrees(s: System)
    requires Store(s)
    ensures Extends(Image(s.table.slots), s.nvs.blobs)
  {
    hide Image;
  }

  /** After a reset a MAC is known exactly if its registration had been saved. */
  lemma ResetForgetsUnsaved(gap: nat, s: System, order: seq<string>, mac: Mac)
    requires Reachable(gap, s) && Enabled(gap, s, Reset(order))
    ensures MacKey(mac) in Image(Next(gap, s, Reset(order)).table.slots) <==> MacKey(mac) in s.nvs.blobs
  {
    hide Reachable, Store, Next, Enabled, Image, MacKey;
    ReachableStore(gap, s);
    StepKeeps(gap, s, Reset(order));
  }

  /** Two successful registrations of the same MAC give the same id, in every run between them
      whose resets find the first one saved, whenever that was. */
  lemma SameMacSameId(gap: nat, s: System, first: Step, run: seq<Step>, second: Step)
    requires Reachable(gap, s)
    requires first.Registers? && second.Registers? && first.mac == second.mac
    requires Enabled(gap, s, first) && Possible(gap, Next(gap, s, first), run)
    requires var v := Next(gap, s, first);
             SavedAtResets(gap, v, run, first.mac) && Enabled(gap, After(gap, v, run), second)
    ensures var v := Next(gap, s, first);
            var w := After(gap, v, run);
            var a := Registry.Register(s.table, first.reg, first.mac, Millis(first.at)).1;
            var b := Registry.Register(w.table, second.reg, second.mac, Millis(second.at)).1;
            a != 0 ==> b == a
  {
    hide Reachable, Image, MacKey, StoreOk, Registry.Register, Registered, Possible, After, SavedAtResets;
    ReachableStore(gap, s);
    var n: nat :| StoreOk(s, n);
    RegisteredKeeps(s, n, first.reg, first.mac, first.at);
    var v := Next(gap, s, first);
    assert v == Registered(s, first.reg, first.mac, first.at);
    var w := After(gap, v, run);
    if Registry.Register(s.table, first.reg, first.mac, Millis(first.at)).1 != 0 {
      RunKeeps(gap, v, run);
      IdentityIsStable(gap, v, run, first.mac);
      SecondTime(w, second.reg, second.mac, second.at);
    }
  }

  lemma SecondTime(w: System, reg: RegPayload, mac: Mac, at: nat)
    requires Store(w) && MacKey(mac) in Image(w.table.slots)
    ensures Registry.Register(w.table, reg, mac, Millis(at)).1 == Image(w.table.slots)[MacKey(mac)].nodeId
  {
    hide Image, MacKey, Shape, Allocated, NvsOk;
    var n: nat :| StoreOk(w, n);
    RegisterKnown(w.table, n, reg, mac, Millis(at));
  }

  /** Register, flush, reset, register again: the same id, whatever was known before. */
  lemma RegisterFlushResetRegister(gap: nat, s: System, first: Step, order: seq<string>, second: Step)
    requires Reachable(gap, s)
    requires first.Registers? && second.Registers? && first.mac == second.mac
    requires Enabled(gap, s, first) && Possible(gap, Next(gap, s, first), [Flush(true), Reset(order)])
    ensures var w := After(gap, Next(gap, s, first), [Flush(true), Reset(order)]);
            var a := Registry.Register(s.table, first.reg, first.mac, Millis(first.at)).1;
            var b := Registry.Register(w.table, second.reg, second.mac, Millis(second.at)).1;
            a != 0 ==> b == a
  {
    hide Reachable, Image, MacKey, StoreOk, Registry.Register, Registered, Saved, Extends;
    ReachableStore(gap, s);
    var n: nat :| StoreOk(s, n);
    RegisteredKeeps(s, n, first.reg, first.mac, first.at);
    var v := Next(gap, s, first);
    assert v == Registered(s, first.reg, first.mac, first.at);
    if Registry.Register(s.table, first.reg, first.mac, Millis(first.at)).1 != 0 {
      var run := [Flush(true), Reset(order)];
      var f := Next(gap, v, run[0]);
      assert run[1..] == [run[1]] && [run[1]][1..] == [];
      var m: nat :| StoreOk(v, m);
      SavedKeeps(v, m);
      assert SavedAtResets(gap, Next(gap, f, run[1]), [], first.mac);
      assert SavedAtResets(gap, f, [run[1]], first.mac);
      assert SavedAtResets(gap, v, run, first.mac);
      RunKeeps(gap, v, run);
      IdentityIsStable(gap, v, run, first.mac);
      SecondTime(After(gap, v, run), second.reg, second.mac, second.at);
    }
  }

  /** The condition is needed: a factory-new ROOT gives a node id 2, is reset before it saves,
      gives 2 to another node, and then 3 to the first. */
  lemma DiscardedIdIsGivenAway(gap: nat, reg: RegPayload, mac: Mac, other: Mac)
    requires mac != other
    ensures var s := FirstBoot();
            var v := Registered(s, reg, mac, 0);
            && Enabled(gap, v, Reset([])) && Next(gap, v, Reset([])) == s
            && var w := Registered(s, reg, other, 0);
               && Registry.Register(s.table, reg, mac, 0).1 == 2 == Registry.Register(s.table, reg, other, 0).1
               && Registry.Register(w.table, reg, mac, 0).1 == 3
  {
    hide Image, MacKey, Registry.Register, Shape, Allocated;
    var t := AtReset();
    NothingRegistered();
    RegisterNew(t, 0, reg, mac, 0);
    RegisterNew(t, 0, reg, other, 0);
    KeyIsInvertible(mac, other);
    var w := Registered(FirstBoot(), reg, other, 0);
    assert w.table == Registry.Register(t, reg, other, 0).0;
    NextAfterOne(w.table);
    RegisterNew(w.table, 1, reg, mac, 0);
  }

  lemma NothingRegistered()
    ensures TableOk(AtReset(), 0) && Image(AtReset().slots) == map[]
  {
    ImageOfNothing(AtReset().slots, MAX_NODES);
  }

  lemma NextAfterOne(t: Table)
    requires TableOk(t, 1)
    ensures t.nextId == 3
  {
    hide Image;
  }
}
