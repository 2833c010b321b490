/** The registry when the NVS iterator does not come by every stored blob: over every run in
    which each reset finds any part of them, none included. Nodes are forgotten, but no two
    ever share an id. */
module RegistryLoss {
  import opened Clock
  import opened Hex
  import opened Registry
  import opened RegistryImage
  import opened RegistrySteps
  import opened Root
  import opened RegistryRuns

  // ── Runs ───────────────────────────────────────────────────────────────────

  /** The iterator comes by some blobs, each once. */
  ghost predicate Visits(blobs: map<string, Entry>, order: seq<string>) {
    && (forall i :: 0 <= i < |order| ==> order[i] in blobs && IsKey(order[i]))
    && forall i, j :: 0 <= i < j < |order| ==> order[i] != order[j]
  }

  ghost predicate May(s: System, st: Step) {
    match st
    case Registers(_, _, at) => s.clock <= at
    case Beats(_, _, _, at) => s.clock <= at
    case Snapshot(at) => s.pending == [] && s.clock <= at
    case Judge => s.pending != []
    case Flush(_) => true
    case Reset(order) => Visits(s.nvs.blobs, order)
  }

  ghost function Then(s: System, st: Step): System
    requires May(s, st)
  {
    match st
    case Registers(reg, mac, at) => Registered(s, reg, mac, at)
    case Beats(id, rssi, payload, at) => Beaten(s, id, rssi, payload, at)
    case Snapshot(at) => s.(clock := at, snapAt := at, pending := Valids(s.table.slots), snapSeen := s.seen)
    case Judge => JudgedFirst(s)
    case Flush(opens) =>
      var (t, nvs) := Flushed(s.table, s.nvs, opens);
      s.(table := t, nvs := nvs)
    case Reset(order) => Restarted(s, order)
  }

  ghost predicate MayAll(s: System, run: seq<Step>)
    decreases |run|
  {
    run == [] || (May(s, run[0]) && MayAll(Then(s, run[0]), run[1..]))
  }

  ghost function ThenAll(s: System, run: seq<Step>): System
    requires MayAll(s, run)
    decreases |run|
  {
    if run == [] then s else ThenAll(Then(s, run[0]), run[1..])
  }

  /** The registrations of a run. */
  function Registrations(run: seq<Step>): nat {
    if run == [] then 0 else (if run[0].Registers? then 1 else 0) + Registrations(run[1..])
  }

  // ── Invariant ──────────────────────────────────────────────────────────────

  /** Every entry has its own id, in {2 .. next-1} minus 0x000F. */
  ghost predicate Spread(m: map<string, Entry>, next: int) {
    && (forall k :: k in m ==> 2 <= m[k].nodeId < next && m[k].nodeId != NODE_ID_HMI)
    && forall k, l :: k in m && l in m && m[k].nodeId == m[l].nodeId ==> k == l
  }

  /** Where `next_id` can be after `r` registrations since the factory. */
  predicate InRange(next: int, r: nat) {
    2 <= next <= 2 + r + (if next > NODE_ID_HMI then 1 else 0)
  }

  /** An entry is the saved one's, or newer than anything saved. */
  ghost predicate NewOrSaved(m: map<string, Entry>, nvs: Nvs) {
    forall k :: k in m ==> m[k].nodeId >= BootId(nvs) || (k in nvs.blobs && nvs.blobs[k].nodeId == m[k].nodeId)
  }

  ghost predicate WellKeyed(m: map<string, Entry>) {
    forall k :: k in m ==> WellKey(k)
  }

  ghost predicate ImageOk(m: map<string, Entry>, next: int, nvs: Nvs) {
    && Spread(m, next) && WellKeyed(m) && NewOrSaved(m, nvs)
  }

  ghost predicate FlashOk(nvs: Nvs, r: nat) {
    && Spread(nvs.blobs, BootId(nvs)) && WellKeyed(nvs.blobs) && InRange(BootId(nvs), r)
    && (!nvs.present ==> nvs.blobs == map[])
  }

  ghost predicate LooseOk(s: System, n: nat, r: nat) {
    && Shape(s.table.slots, n)
    && ImageOk(Image(s.table.slots), s.table.nextId, s.nvs) && FlashOk(s.nvs, r)
    && InRange(s.table.nextId, r) && BootId(s.nvs) <= s.table.nextId
  }

  ghost predicate Loose(s: System, r: nat) {
    exists n: nat :: LooseOk(s, n, r)
  }

  // ── Steps ──────────────────────────────────────────────────────────────────

  lemma PutFresh(m: map<string, Entry>, next: uint16, nvs: Nvs, key: string, e: Entry)
    requires ImageOk(m, next, nvs) && WellKey(key) && e.nodeId == Skip(next) < 0xFFFF
    requires 2 <= next && BootId(nvs) <= next
    ensures ImageOk(m[key := e], Increment(Skip(next)), nvs)
  {
    hide WellKey;
  }

  lemma PutSame(m: map<string, Entry>, next: int, nvs: Nvs, key: string, e: Entry)
    requires ImageOk(m, next, nvs) && key in m && e.nodeId == m[key].nodeId
    ensures ImageOk(m[key := e], next, nvs)
  {
    hide WellKey;
  }

  lemma SkipInRange(next: uint16, r: nat)
    requires InRange(next, r) && r < 65532
    ensures Skip(next) < 0xFFFF && next <= Increment(Skip(next)) && InRange(Increment(Skip(next)), r + 1)
  {
  }

  lemma LaterRange(next: int, r: nat)
    requires InRange(next, r)
    ensures InRange(next, r + 1)
  {
  }

  lemma RegisterLoose(s: System, n: nat, r: nat, reg: RegPayload, mac: Mac, at: nat)
    requires LooseOk(s, n, r) && r < 65532
    ensures Loose(Registered(s, reg, mac, at), r + 1)
  {
    hide Image, MacKey, Shape, Registry.Register, FirstMac, ImageOk, Spread, WellKeyed, InRange;
    var u := Registered(s, reg, mac, at);
    var m := Image(s.table.slots);
    var now := Millis(at);
    SlotsOf(s.table.slots, n);
    LaterRange(BootId(s.nvs), r);
    LaterRange(s.table.nextId, r);
    LowestIs2(s.table.nextId, r);
    KeyIsInvertible(mac, mac);
    if MacKey(mac) in m {
      PutKnown(s.table, n, reg, mac, now);
      PutSame(m, s.table.nextId, s.nvs, MacKey(mac), RegEntry(m[MacKey(mac)].nodeId, reg));
      assert LooseOk(u, n, r + 1);
    } else if n < MAX_NODES {
      PutNew(s.table, n, reg, mac, now);
      SkipInRange(s.table.nextId, r);
      PutFresh(m, s.table.nextId, s.nvs, MacKey(mac), RegEntry(Skip(s.table.nextId), reg));
      assert LooseOk(u, n + 1, r + 1);
    } else {
      RegisterFull(s.table, reg, mac, now);
      assert LooseOk(u, n, r + 1);
    }
  }

  lemma LowestIs2(next: int, r: nat)
    requires InRange(next, r)
    ensures next >= 2
  {
  }

  /** A save merges the table into what flash still holds of forgotten nodes. */
  lemma SaveLoose(s: System, n: nat, r: nat)
    requires LooseOk(s, n, r)
    ensures var (t, nvs) := Saved(s.table, s.nvs);
            LooseOk(s.(table := t, nvs := nvs), n, r)
  {
    hide Image, Shape, WellKey, InRange;
    var m, b := Image(s.table.slots), s.nvs.blobs;
    LowestIs2(s.table.nextId, r);
    assert forall k :: k in b + m ==> (b + m)[k] == if k in m then m[k] else b[k];
  }

  lemma SameTableLoose(s: System, u: System, n: nat, r: nat)
    requires LooseOk(s, n, r) && u.nvs == s.nvs && u.table.nextId == s.table.nextId
    requires Shape(u.table.slots, n) && Image(u.table.slots) == Image(s.table.slots)
    ensures Loose(u, r)
  {
    hide Image, Shape, ImageOk, FlashOk, InRange;
    assert LooseOk(u, n, r);
  }

  lemma {:induction false} LoadLoose(t: Table, blobs: map<string, Entry>, order: seq<string>) returns (n: nat)
    requires t.slots == AtReset().slots && Visits(blobs, order) && WellKeyed(blobs)
    ensures Listed(blobs, order)
    ensures var u := LoadInto(t, blobs, order);
            && Shape(u.slots, n) && u.nextId == t.nextId
            && forall k :: k in Image(u.slots) ==> k in order && k in blobs && Image(u.slots)[k] == blobs[k]
    decreases |order|
  {
    hide Image, WellKey, LoadOne, Shape, IsKey;
    if order == [] {
      n := 0;
      NothingRegistered();
      EmptyShape();
    } else {
      var i := |order| - 1;
      n := LoadLoose(t, blobs, order[..i]);
      var u := LoadInto(t, blobs, order[..i]);
      SlotsOf(u.slots, n);
      assert order[i] !in order[..i];
      if n < MAX_NODES {
        PutLoaded(u, n, order[i], blobs[order[i]]);
        n := n + 1;
      } else {
        LoadFull(u, order[i], blobs[order[i]]);
      }
    }
  }

  lemma EmptyShape()
    ensures Shape(AtReset().slots, 0)
  {
  }

  lemma LoadFull(t: Table, key: string, e: Entry)
    requires Shape(t.slots, MAX_NODES) && IsKey(key)
    ensures LoadOne(t, key, e) == t
  {
    assert forall i :: 0 <= i < MAX_NODES ==> t.slots[i].valid;
  }

  lemma ResetLoose(s: System, n: nat, r: nat, order: seq<string>)
    requires LooseOk(s, n, r) && Visits(s.nvs.blobs, order)
    ensures Loose(Restarted(s, order), r)
  {
    hide Image, Shape, LoadInto, WellKey, InRange;
    var u := Restarted(s, order);
    var m := LoadLoose(AtReset().(nextId := BootId(s.nvs)), s.nvs.blobs, order);
    if !s.nvs.present {
      NothingRegistered();
      EmptyShape();
      assert LooseOk(u, 0, r);
    } else {
      assert LooseOk(u, m, r);
    }
  }

  lemma StepLoose(s: System, r: nat, st: Step)
    requires Loose(s, r) && May(s, st) && (st.Registers? ==> r < 65532)
    ensures Loose(Then(s, st), r + (if st.Registers? then 1 else 0))
  {
    hide Image, LooseOk, Registered, Heartbeat, FirstId, SetStatus, Verdict, Restarted, Saved;
    var n: nat :| LooseOk(s, n, r);
    LooseShape(s, n, r);
    var u := Then(s, st);
    match st
    case Registers(reg, mac, at) => RegisterLoose(s, n, r, reg, mac, at);
    case Beats(id, rssi, payload, at) =>
      HeartbeatKeeps(s.table, n, id, rssi, payload, Millis(at));
      SameTableLoose(s, u, n, r);
    case Snapshot(at) => SameTableLoose(s, u, n, r);
    case Judge =>
      match Verdict(s.table, s.pending[0], Millis(s.snapAt)) {
        case None =>
        case Some(status) => SetStatusKeeps(s.table, n, s.pending[0].nodeId, status);
      }
      SameTableLoose(s, u, n, r);
    case Flush(opens) => SaveLoose(s, n, r);
    case Reset(order) => ResetLoose(s, n, r, order);
  }

  lemma LooseShape(s: System, n: nat, r: nat)
    requires LooseOk(s, n, r)
    ensures Shape(s.table.slots, n)
  {
  }

  lemma {:induction false} RunLoose(s: System, r: nat, run: seq<Step>)
    requires Loose(s, r) && MayAll(s, run) && r + Registrations(run) <= 65532
    ensures Loose(ThenAll(s, run), r + Registrations(run))
    decreases |run|
  {
    hide Loose, Then, May;
    if run == [] {
    } else {
      StepLoose(s, r, run[0]);
      RunLoose(Then(s, run[0]), r + (if run[0].Registers? then 1 else 0), run[1..]);
    }
  }

  lemma FirstBootLoose()
    ensures Loose(FirstBoot(), 0)
  {
    hide Image, Shape;
    NothingRegistered();
    EmptyShape();
    assert LooseOk(FirstBoot(), 0, 0);
  }

  // ── Theorems ───────────────────────────────────────────────────────────────

  /** Whatever the iterator finds at each reset: in every run of up to 65532 registrations the
      slots in use hold distinct MACs and distinct ids in {2 .. next_id-1} minus 0x000F, and
      next_id is at most 3 more than there were registrations. */
  lemma IdsStayApart(run: seq<Step>)
    requires MayAll(FirstBoot(), run) && Registrations(run) <= 65532
    ensures var t := ThenAll(FirstBoot(), run).table;
            && |t.slots| == MAX_NODES && 2 <= t.nextId <= 3 + Registrations(run)
            && (forall i :: 0 <= i < MAX_NODES && t.slots[i].valid ==>
                  2 <= t.slots[i].nodeId < t.nextId && t.slots[i].nodeId != NODE_ID_HMI)
            && forall i, j :: 0 <= i < j < MAX_NODES && t.slots[i].valid && t.slots[j].valid ==>
                 t.slots[i].mac != t.slots[j].mac && t.slots[i].nodeId != t.slots[j].nodeId
  {
    hide Image, MacKey, MayAll, ThenAll, FlashOk, WellKeyed, NewOrSaved;
    FirstBootLoose();
    RunLoose(FirstBoot(), 0, run);
    var s := ThenAll(FirstBoot(), run);
    var n: nat :| LooseOk(s, n, Registrations(run));
    forall i | 0 <= i < MAX_NODES && s.table.slots[i].valid
      ensures 2 <= s.table.slots[i].nodeId < s.table.nextId && s.table.slots[i].nodeId != NODE_ID_HMI
    {
      ImageOfSlot(s.table.slots, n, i);
    }
    forall i, j | 0 <= i < j < MAX_NODES && s.table.slots[i].valid && s.table.slots[j].valid
      ensures s.table.slots[i].mac != s.table.slots[j].mac && s.table.slots[i].nodeId != s.table.slots[j].nodeId
    {
      KeyIsInvertible(s.table.slots[i].mac, s.table.slots[j].mac);
      ImageOfSlot(s.table.slots, n, i);
      ImageOfSlot(s.table.slots, n, j);
    }
  }

  /** If the iterator finds nothing, everyone is forgotten and only the next id survives: a
      saved node that registers again gets an id that neither it nor any other saved node had. */
  lemma NothingFound(run: seq<Step>, reg: RegPayload, mac: Mac, at: nat)
    requires MayAll(FirstBoot(), run) && Registrations(run) <= 65532
    ensures var s := ThenAll(FirstBoot(), run);
            var t := Registry.Booted(s.nvs, []);
            && t == AtReset().(nextId := BootId(s.nvs))
            && forall k :: k in s.nvs.blobs ==> Registry.Register(t, reg, mac, Millis(at)).1 > s.nvs.blobs[k].nodeId
  {
    hide Image, MacKey, MayAll, ThenAll, WellKeyed, NewOrSaved, Shape, Registry.Register;
    FirstBootLoose();
    RunLoose(FirstBoot(), 0, run);
    var s := ThenAll(FirstBoot(), run);
    var n: nat :| LooseOk(s, n, Registrations(run));
    NothingRegistered();
    EmptyShape();
    PutNew(Registry.Booted(s.nvs, []), 0, reg, mac, Millis(at));
  }
}
