/** What each registry operation makes of the table: ids, image, shape. */
module RegistrySteps {
  import opened Clock
  import opened Registry
  import opened RegistryImage

  /** `n` nodes are registered, in the first `n` slots, with the ids allocated so far. */
  ghost predicate TableOk(t: Table, n: nat) {
    && Shape(t.slots, n)
    && |Image(t.slots)| == n
    && Allocated(Image(t.slots), t.nextId)
  }

  // ── The allocator ──────────────────────────────────────────────────────────

  /** An id in use stays in use when an entry is added, or replaced under the same id. */
  lemma StaysInUse(m: map<string, Entry>, key: string, e: Entry, id: int)
    requires InUse(m, id) && (key in m ==> e.nodeId == m[key].nodeId)
    ensures InUse(m[key := e], id)
  {
    var k :| k in m && m[k].nodeId == id;
    assert m[key := e][k].nodeId == id;
  }

  lemma NotYetInUse(m: map<string, Entry>, next: int, id: int)
    requires Allocated(m, next) && id >= next
    ensures !InUse(m, id)
  {
  }

  lemma UsedNow(m: map<string, Entry>, key: string, e: Entry)
    ensures InUse(m[key := e], e.nodeId)
  {
    assert m[key := e][key].nodeId == e.nodeId;
  }

  lemma FreshId(m: map<string, Entry>, next: uint16, key: string, e: Entry)
    requires Allocated(m, next) && key !in m && |m| < MAX_NODES && e.nodeId == Skip(next)
    ensures Allocated(m[key := e], Increment(Skip(next)))
    ensures !InUse(m, Skip(next))
  {
    hide InUse;
    var u := m[key := e];
    assert |u| == |m| + 1;
    NotYetInUse(m, next, Skip(next));
    UsedNow(m, key, e);
    forall id | 2 <= id < Increment(Skip(next)) && id != NODE_ID_HMI
      ensures InUse(u, id)
    {
      if id < next {
        StaysInUse(m, key, e, id);
      }
    }
  }

  lemma SameId(m: map<string, Entry>, next: uint16, key: string, e: Entry)
    requires Allocated(m, next) && key in m && e.nodeId == m[key].nodeId
    ensures Allocated(m[key := e], next)
  {
    hide InUse;
    var u := m[key := e];
    assert u.Keys == m.Keys;
    assert |u.Keys| == |u| && |m.Keys| == |m|;
    forall id | 2 <= id < next && id != NODE_ID_HMI
      ensures InUse(u, id)
    {
      StaysInUse(m, key, e, id);
    }
  }

  // ── Registration ───────────────────────────────────────────────────────────

  function RegEntry(id: uint16, reg: RegPayload): Entry {
    Entry(id, reg.nodeType, reg.fw, reg.name)
  }

  lemma KnownMac(t: Table, n: nat, mac: Mac)
    requires Shape(t.slots, n)
    ensures var k := FirstMac(t.slots, mac, 0);
            && (k < MAX_NODES <==> MacKey(mac) in Image(t.slots))
            && (k < MAX_NODES ==> k < n && Image(t.slots)[MacKey(mac)] == EntryOf(t.slots[k]))
  {
    hide MacKey, EntryOf, Image;
    var k := FirstMac(t.slots, mac, 0);
    if k < MAX_NODES {
      ImageOfSlot(t.slots, n, k);
    } else if MacKey(mac) in Image(t.slots) {
      var j := SlotOfKey(t.slots, n, MacKey(mac));
      KeyIsInvertible(t.slots[j].mac, mac);
      assert false;
    }
  }

  /** Table and image after registering a known MAC. */
  lemma PutKnown(t: Table, n: nat, reg: RegPayload, mac: Mac, now: uint32)
    requires Shape(t.slots, n) && MacKey(mac) in Image(t.slots)
    ensures var (u, id) := Registry.Register(t, reg, mac, now);
            && id == Image(t.slots)[MacKey(mac)].nodeId
            && Shape(u.slots, n) && u.dirty && u.nextId == t.nextId
            && Image(u.slots) == (if reg.reconnect then Image(t.slots) else Image(t.slots)[MacKey(mac) := RegEntry(id, reg)])
            && u.count == t.count + (if reg.reconnect then 0 else 1)
  {
    hide MacKey, Image;
    KnownMac(t, n, mac);
    var k := FirstMac(t.slots, mac, 0);
    var prior := t.slots[k];
    var x := if reg.reconnect then prior.(status := Online, lastSeen := now) else Filled(prior, prior.nodeId, reg, mac, now);
    assert Shape(t.slots[k := x], n);
    ImagePut(t.slots, n, k, x);
    var m := Image(t.slots);
    assert m[MacKey(mac) := m[MacKey(mac)]] == m;
  }

  /** Table and image after registering a new MAC with a slot free. */
  lemma PutNew(t: Table, n: nat, reg: RegPayload, mac: Mac, now: uint32)
    requires Shape(t.slots, n) && MacKey(mac) !in Image(t.slots) && n < MAX_NODES
    ensures var (u, id) := Registry.Register(t, reg, mac, now);
            && id == Skip(t.nextId) && u.nextId == Increment(id)
            && Shape(u.slots, n + 1) && u.dirty && u.count == t.count + 1
            && Image(u.slots) == Image(t.slots)[MacKey(mac) := RegEntry(id, reg)]
  {
    hide MacKey, Image;
    KnownMac(t, n, mac);
    var f := FirstFree(t.slots, 0);
    assert f == n by {
      assert !t.slots[n].valid;
    }
    var x := Filled(t.slots[f], Skip(t.nextId), reg, mac, now);
    assert Shape(t.slots[f := x], n + 1) by {
      forall i | 0 <= i < n ensures t.slots[i].mac != mac {
        assert !HasMac(t.slots[i], mac);
      }
    }
    ImagePut(t.slots, n, f, x);
  }

  /** Registering a known MAC keeps its id; only without `reconnect` are its data replaced,
      and then `s_count` grows although no node was added. */
  lemma RegisterKnown(t: Table, n: nat, reg: RegPayload, mac: Mac, now: uint32)
    requires TableOk(t, n) && MacKey(mac) in Image(t.slots)
    ensures var (u, id) := Registry.Register(t, reg, mac, now);
            && id == Image(t.slots)[MacKey(mac)].nodeId
            && TableOk(u, n) && u.dirty && u.nextId == t.nextId
            && Image(u.slots) == (if reg.reconnect then Image(t.slots) else Image(t.slots)[MacKey(mac) := RegEntry(id, reg)])
            && u.count == t.count + (if reg.reconnect then 0 else 1)
  {
    hide MacKey, Image, Shape, Allocated, Registry.Register;
    PutKnown(t, n, reg, mac, now);
    SameId(Image(t.slots), t.nextId, MacKey(mac), RegEntry(Image(t.slots)[MacKey(mac)].nodeId, reg));
  }

  /** Registering a new MAC takes the next slot and an id nobody has. */
  lemma RegisterNew(t: Table, n: nat, reg: RegPayload, mac: Mac, now: uint32)
    requires TableOk(t, n) && MacKey(mac) !in Image(t.slots) && n < MAX_NODES
    ensures var (u, id) := Registry.Register(t, reg, mac, now);
            && id == Skip(t.nextId) && !InUse(Image(t.slots), id)
            && TableOk(u, n + 1) && u.dirty && u.count == t.count + 1
            && Image(u.slots) == Image(t.slots)[MacKey(mac) := RegEntry(id, reg)]
  {
    hide MacKey, Image, Shape, Allocated, Registry.Register;
    PutNew(t, n, reg, mac, now);
    FreshId(Image(t.slots), t.nextId, MacKey(mac), RegEntry(Skip(t.nextId), reg));
  }

  /** A full table refuses new MACs and stays as it is. */
  lemma RegisterFull(t: Table, reg: RegPayload, mac: Mac, now: uint32)
    requires Shape(t.slots, MAX_NODES) && MacKey(mac) !in Image(t.slots)
    ensures Registry.Register(t, reg, mac, now) == (t, 0)
  {
    hide MacKey, Image;
    KnownMac(t, MAX_NODES, mac);
    assert forall i :: 0 <= i < MAX_NODES ==> t.slots[i].valid;
  }

  // ── Operations that persist nothing ────────────────────────────────────────

  /** Replacing a slot's volatile data keeps the shape and the image. */
  lemma VolatileChange(t: Table, n: nat, k: nat, x: NodeInfo)
    requires Shape(t.slots, n) && k < MAX_NODES
    requires x.valid == t.slots[k].valid && x.mac == t.slots[k].mac && EntryOf(x) == EntryOf(t.slots[k])
    ensures Shape(t.slots[k := x], n) && Image(t.slots[k := x]) == Image(t.slots)
  {
    hide EntryOf;
    ImageSame(t.slots[k := x], t.slots, MAX_NODES);
  }

  lemma HeartbeatKeeps(t: Table, n: nat, id: uint16, rssi: int, payload: seq<byte>, now: uint32)
    requires Shape(t.slots, n)
    ensures var u := Heartbeat(t, id, rssi, payload, now);
            && Shape(u.slots, n) && Image(u.slots) == Image(t.slots)
            && u.nextId == t.nextId && u.dirty == t.dirty && u.count == t.count
  {
    hide Image, Cached;
    var k := FirstId(t.slots, id, 0);
    if k < MAX_NODES {
      var x := t.slots[k];
      VolatileChange(t, n, k, x.(lastSeen := now, rssi := rssi, status := Revived(x.status), cache := Cached(x.cache, payload)));
    }
  }

  lemma SetStatusKeeps(t: Table, n: nat, id: uint16, status: NodeStatus)
    requires Shape(t.slots, n)
    ensures var u := SetStatus(t, id, status);
            && Shape(u.slots, n) && Image(u.slots) == Image(t.slots)
            && u.nextId == t.nextId && u.count == t.count && (t.dirty ==> u.dirty)
  {
    hide Image;
    var k := FirstId(t.slots, id, 0);
    if k < MAX_NODES {
      VolatileChange(t, n, k, t.slots[k].(status := status));
    }
  }

  // ── Flash ──────────────────────────────────────────────────────────────────

  /** A key some MAC has. */
  predicate WellKey(key: string) {
    IsKey(key) && MacKey(KeyMac(key)) == key
  }

  ghost predicate NvsOk(nvs: Nvs) {
    && (forall k :: k in nvs.blobs ==> WellKey(k))
    && Allocated(nvs.blobs, BootId(nvs))
    && (!nvs.present ==> nvs.blobs == map[])
  }

  /** What the iterator may do: come by every blob once, in any order. */
  ghost predicate Iterates(blobs: map<string, Entry>, order: seq<string>) {
    && (forall i :: 0 <= i < |order| ==> order[i] in blobs)
    && (forall i, j :: 0 <= i < j < |order| ==> order[i] != order[j])
    && (forall k :: k in blobs ==> k in order)
  }

  lemma {:induction false} ShortOrder(keys: set<string>, order: seq<string>)
    requires forall i :: 0 <= i < |order| ==> order[i] in keys
    requires forall i, j :: 0 <= i < j < |order| ==> order[i] != order[j]
    ensures |order| <= |keys|
    decreases |order|
  {
    if order == [] {
    } else {
      var n := |order| - 1;
      ShortOrder(keys - {order[n]}, order[..n]);
    }
  }

  /** The first `i` loaded nodes fill the first `i` slots, everyone OFFLINE and never heard. */
  ghost predicate LoadedSoFar(t: Table, blobs: map<string, Entry>, order: seq<string>) {
    && |order| <= MAX_NODES && Shape(t.slots, |order|)
    && |Image(t.slots)| == |order| && t.count == |order| && !t.dirty
    && (forall k :: k in Image(t.slots) <==> k in order)
    && (forall k :: k in Image(t.slots) ==> k in blobs && Image(t.slots)[k] == blobs[k])
    && forall i :: 0 <= i < |order| ==> t.slots[i].status == Offline && t.slots[i].lastSeen == 0
  }

  /** Table and image after reading back one blob with a slot free. */
  lemma PutLoaded(t: Table, n: nat, key: string, e: Entry)
    requires Shape(t.slots, n) && n < MAX_NODES && WellKey(key) && key !in Image(t.slots)
    ensures var u := LoadOne(t, key, e);
            && u == t.(slots := t.slots[n := Loaded(t.slots[n], key, e)], count := t.count + 1)
            && Shape(u.slots, n + 1) && Image(u.slots) == Image(t.slots)[key := e]
  {
    hide MacKey, KeyMac, Image;
    var f := FirstFree(t.slots, 0);
    assert f == n by {
      assert !t.slots[n].valid;
    }
    var x := Loaded(t.slots[f], key, e);
    forall i | 0 <= i < n ensures t.slots[i].mac != x.mac {
      ImageOfSlot(t.slots, n, i);
    }
    assert Shape(t.slots[f := x], n + 1);
    ImagePut(t.slots, n, f, x);
    assert EntryOf(x) == e;
  }

  lemma LoadedOne(t: Table, blobs: map<string, Entry>, order: seq<string>, key: string)
    requires LoadedSoFar(t, blobs, order) && key in blobs && key !in order && WellKey(key) && |order| < MAX_NODES
    requires forall i :: |order| <= i < MAX_NODES ==> t.slots[i] == EMPTY
    ensures LoadedSoFar(LoadOne(t, key, blobs[key]), blobs, order + [key])
    ensures LoadOne(t, key, blobs[key]).nextId == t.nextId
    ensures forall i :: |order| < i < MAX_NODES ==> LoadOne(t, key, blobs[key]).slots[i] == EMPTY
  {
    hide MacKey, KeyMac, Image, WellKey, LoadOne;
    PutLoaded(t, |order|, key, blobs[key]);
    SlotsOf(t.slots, |order|);
  }

  lemma SlotsOf(slots: seq<NodeInfo>, n: nat)
    requires Shape(slots, n)
    ensures |slots| == MAX_NODES && n <= MAX_NODES
  {
  }

  lemma {:induction false} LoadedAll(t: Table, nvs: Nvs, order: seq<string>)
    requires t == AtReset().(nextId := BootId(nvs)) && NvsOk(nvs)
    requires forall i :: 0 <= i < |order| ==> order[i] in nvs.blobs
    requires forall i, j :: 0 <= i < j < |order| ==> order[i] != order[j]
    ensures Listed(nvs.blobs, order) && |order| <= MAX_NODES
    ensures var u := LoadInto(t, nvs.blobs, order);
            && LoadedSoFar(u, nvs.blobs, order) && u.nextId == t.nextId
            && forall i :: |order| <= i < MAX_NODES ==> u.slots[i] == EMPTY
    decreases |order|
  {
    hide LoadedSoFar, LoadOne, Loaded, WellKey;
    ShortOrder(nvs.blobs.Keys, order);
    WellKeys(nvs.blobs);
    if order == [] {
      NothingLoaded(t, nvs.blobs);
    } else {
      var n := |order| - 1;
      LoadedAll(t, nvs, order[..n]);
      assert order[n] !in order[..n];
      LoadedOne(LoadInto(t, nvs.blobs, order[..n]), nvs.blobs, order[..n], order[n]);
      assert order == order[..n] + [order[n]];
    }
  }

  lemma WellKeys(blobs: map<string, Entry>)
    requires forall k :: k in blobs ==> WellKey(k)
    ensures forall k :: k in blobs ==> IsKey(k)
  {
  }

  lemma NothingLoaded(t: Table, blobs: map<string, Entry>)
    requires t.slots == AtReset().slots && t.count == 0 && !t.dirty
    ensures LoadedSoFar(t, blobs, [])
  {
    ImageOfNothing(t.slots, MAX_NODES);
  }

  /** Loading restores the saved map up to slot order, with everyone OFFLINE, the count right,
      and nothing left to save. */
  lemma LoadRestores(nvs: Nvs, order: seq<string>)
    requires NvsOk(nvs) && Iterates(nvs.blobs, order)
    ensures Listed(nvs.blobs, order)
    ensures var t := Registry.Booted(nvs, order);
            && TableOk(t, |nvs.blobs|) && Image(t.slots) == nvs.blobs
            && t.nextId == BootId(nvs) && t.count == |nvs.blobs| && !t.dirty
            && forall i :: 0 <= i < |nvs.blobs| ==> t.slots[i].status == Offline && t.slots[i].lastSeen == 0
  {
    hide LoadInto, Shape, Allocated, Image, WellKey;
    var z := AtReset().(nextId := BootId(nvs));
    LoadedAll(z, nvs, order);
    var t := LoadInto(z, nvs.blobs, order);
    assert Image(t.slots) == nvs.blobs;
    if !nvs.present {
      ShortOrder(nvs.blobs.Keys, order);
      EmptyLoad(z, nvs.blobs);
    }
  }

  lemma EmptyLoad(t: Table, blobs: map<string, Entry>)
    ensures LoadInto(t, blobs, []) == t
  {
  }
}
