/** The ROOT's node registry: a table of slots in RAM, the id allocator, and the image of
    both in NVS flash. */
module Registry {
  import opened Clock
  import Crc8
  import opened Hex

  type byte = Crc8.byte

  const MAX_NODES: nat := 64
  const NODE_ID_ROOT: uint16 := 0x0001
  const NODE_ID_HMI: uint16 := 0x000F
  const NODE_TYPE_HMI: byte := 0x06
  const CACHE_SIZE: nat := 32

  type uint16 = x: int | 0 <= x < 0x1_0000

  type Mac = m: seq<byte> | |m| == 6 witness [0, 0, 0, 0, 0, 0]

  type Cache = c: seq<byte> | |c| == CACHE_SIZE witness ZEROS

  const ZEROS: seq<byte> :=
    [0, 0, 0, 0, 0, 0, 0, 0, 0, 0, 0, 0, 0, 0, 0, 0, 0, 0, 0, 0, 0, 0, 0, 0, 0, 0, 0, 0, 0, 0, 0, 0]

  datatype NodeStatus = Unset | Online | Warning | Offline | Lost | Updating | Faulty

  datatype Firmware = Firmware(major: byte, minor: byte, patch: byte)

  datatype NodeInfo = NodeInfo(
    valid: bool,
    nodeId: uint16,
    mac: Mac,
    name: string,
    nodeType: byte,
    status: NodeStatus,
    lastSeen: uint32,
    rssi: int,
    fw: Firmware,
    cache: Cache)

  const EMPTY: NodeInfo :=
    NodeInfo(false, 0, [0, 0, 0, 0, 0, 0], "", 0, Unset, 0, 0, Firmware(0, 0, 0), ZEROS)

  /** What a node says when it registers. */
  datatype RegPayload = RegPayload(nodeType: byte, name: string, fw: Firmware, reconnect: bool)

  /** The static variables of `node_registry.c`. */
  datatype Table = Table(slots: seq<NodeInfo>, count: int, nextId: uint16, dirty: bool)

  /** Static storage after a reset. */
  function AtReset(): Table {
    Table(seq(MAX_NODES, _ => EMPTY), 0, 0x0002, false)
  }

  // ── Searching ──────────────────────────────────────────────────────────────

  predicate HasMac(n: NodeInfo, mac: Mac) {
    n.valid && n.mac == mac
  }

  predicate HasId(n: NodeInfo, id: uint16) {
    n.valid && n.nodeId == id
  }

  /** First slot from `i` on that is free, or holds the MAC, or the id; the table length if none. */
  function FirstFree(slots: seq<NodeInfo>, i: nat): (k: nat)
    requires i <= |slots|
    ensures i <= k <= |slots|
    ensures k < |slots| ==> !slots[k].valid
    ensures forall j :: i <= j < k ==> slots[j].valid
    decreases |slots| - i
  {
    if i == |slots| || !slots[i].valid then i else FirstFree(slots, i + 1)
  }

  function FirstMac(slots: seq<NodeInfo>, mac: Mac, i: nat): (k: nat)
    requires i <= |slots|
    ensures i <= k <= |slots|
    ensures k < |slots| ==> HasMac(slots[k], mac)
    ensures forall j :: i <= j < k ==> !HasMac(slots[j], mac)
    decreases |slots| - i
  {
    if i == |slots| || HasMac(slots[i], mac) then i else FirstMac(slots, mac, i + 1)
  }

  function FirstId(slots: seq<NodeInfo>, id: uint16, i: nat): (k: nat)
    requires i <= |slots|
    ensures i <= k <= |slots|
    ensures k < |slots| ==> HasId(slots[k], id)
    ensures forall j :: i <= j < k ==> !HasId(slots[j], id)
    decreases |slots| - i
  {
    if i == |slots| || HasId(slots[i], id) then i else FirstId(slots, id, i + 1)
  }

  // ── Registration, heartbeat, status ────────────────────────────────────────

  function Increment(id: uint16): uint16 {
    (id + 1) % 0x1_0000
  }

  /** The ROOT's and the HMI's ids are never handed out. */
  function Skip(id: uint16): (r: uint16)
    ensures r != NODE_ID_ROOT && r != NODE_ID_HMI
  {
    if id == NODE_ID_ROOT || id == NODE_ID_HMI then Increment(id) else id
  }

  function Filled(n: NodeInfo, id: uint16, reg: RegPayload, mac: Mac, now: uint32): NodeInfo {
    n.(valid := true, nodeId := id, nodeType := reg.nodeType, status := Online, lastSeen := now,
       fw := reg.fw, mac := mac, name := reg.name)
  }

  /** `node_registry_register`: the new table and the id given, 0 when the table is full. */
  function Register(t: Table, reg: RegPayload, mac: Mac, now: uint32): (Table, uint16) {
    var k := FirstMac(t.slots, mac, 0);
    if k < |t.slots| && reg.reconnect then
      (t.(slots := t.slots[k := t.slots[k].(status := Online, lastSeen := now)], dirty := true), t.slots[k].nodeId)
    else if k < |t.slots| then
      var id := t.slots[k].nodeId;
      (t.(slots := t.slots[k := Filled(t.slots[k], id, reg, mac, now)], count := t.count + 1, dirty := true), id)
    else
      var f := FirstFree(t.slots, 0);
      if f == |t.slots| then (t, 0) else
        var id := Skip(t.nextId);
        (Table(t.slots[f := Filled(t.slots[f], id, reg, mac, now)], t.count + 1, Increment(id), true), id)
  }

  function Revived(s: NodeStatus): NodeStatus {
    if s == Warning || s == Offline then Online else s
  }

  /** The payload overwrites the front of the cache, as far as either goes. */
  function Cached(cache: Cache, payload: seq<byte>): Cache {
    var len := if |payload| < |cache| then |payload| else |cache|;
    payload[..len] + cache[len..]
  }

  /** `node_registry_update_heartbeat`: not a change to be saved. */
  function Heartbeat(t: Table, id: uint16, rssi: int, payload: seq<byte>, now: uint32): Table {
    var k := FirstId(t.slots, id, 0);
    if k == |t.slots| then t else
      var n := t.slots[k];
      t.(slots := t.slots[k := n.(lastSeen := now, rssi := rssi, status := Revived(n.status),
                                  cache := Cached(n.cache, payload))])
  }

  function SetStatus(t: Table, id: uint16, status: NodeStatus): Table {
    var k := FirstId(t.slots, id, 0);
    if k == |t.slots| then t else t.(slots := t.slots[k := t.slots[k].(status := status)], dirty := true)
  }

  function Valids(slots: seq<NodeInfo>): seq<NodeInfo> {
    if slots == [] then []
    else
      var before := Valids(slots[..|slots| - 1]);
      if slots[|slots| - 1].valid then before + [slots[|slots| - 1]] else before
  }

  function Front(s: seq<NodeInfo>, n: nat): seq<NodeInfo> {
    if n < |s| then s[..n] else s
  }

  /** Later slots only add to the list. */
  lemma {:induction false} ValidsGrow(slots: seq<NodeInfo>, i: nat)
    requires i <= |slots|
    ensures Valids(slots[..i]) <= Valids(slots) && |Valids(slots)| <= |slots|
  {
    if i == |slots| {
      assert slots[..i] == slots;
      if slots != [] {
        ValidsGrow(slots[..|slots| - 1], |slots| - 1);
      }
    } else {
      var front := slots[..|slots| - 1];
      ValidsGrow(front, i);
      assert front[..i] == slots[..i];
    }
  }

  predicate IsHmi(t: Table, id: uint16) {
    var k := FirstId(t.slots, id, 0);
    k < |t.slots| && t.slots[k].nodeType == NODE_TYPE_HMI
  }

  // ── The NVS image ──────────────────────────────────────────────────────────

  datatype Entry = Entry(nodeId: uint16, nodeType: byte, fw: Firmware, name: string)

  /** The namespace in flash: whether it exists, its blobs, and the saved next id. */
  datatype Nvs = Nvs(present: bool, blobs: map<string, Entry>, nextId: Option<uint16>)

  const ERASED: Nvs := Nvs(false, map[], None)

  /** `mac_to_key`: twelve hexadecimal digits. */
  function MacKey(mac: Mac): string {
    Encode(mac)
  }

  function EntryOf(n: NodeInfo): Entry {
    Entry(n.nodeId, n.nodeType, n.fw, n.name)
  }

  /** Blobs of the valid slots among the first `i`. */
  function ImageUpTo(slots: seq<NodeInfo>, i: nat): map<string, Entry>
    requires i <= |slots|
  {
    if i == 0 then map[]
    else if slots[i - 1].valid then ImageUpTo(slots, i - 1)[MacKey(slots[i - 1].mac) := EntryOf(slots[i - 1])]
    else ImageUpTo(slots, i - 1)
  }

  /** The persistent part of the table, as flash would hold it. */
  function Image(slots: seq<NodeInfo>): map<string, Entry> {
    ImageUpTo(slots, |slots|)
  }

  function Saved(t: Table, nvs: Nvs): (Table, Nvs) {
    (t.(dirty := false), Nvs(true, nvs.blobs + Image(t.slots), Some(t.nextId)))
  }

  /** The next id a boot finds: the default when none was saved, never below 2. */
  function BootId(nvs: Nvs): uint16 {
    if !nvs.present || nvs.nextId.None? || nvs.nextId.value < 0x0002 then 0x0002 else nvs.nextId.value
  }

  predicate IsKey(key: string) {
    |key| == 12
  }

  /** `sscanf` of the six pairs of a stored key. */
  function KeyMac(key: string): Mac
    requires IsKey(key)
  {
    Decode(key)
  }

  /** The iterator comes by stored blobs with well-formed keys only. */
  ghost predicate Listed(blobs: map<string, Entry>, order: seq<string>) {
    forall i :: 0 <= i < |order| ==> order[i] in blobs && IsKey(order[i])
  }

  /** A slot as read back: everyone is OFFLINE until heard. */
  function Loaded(n: NodeInfo, key: string, e: Entry): NodeInfo
    requires IsKey(key)
  {
    n.(valid := true, nodeId := e.nodeId, nodeType := e.nodeType, status := Offline, fw := e.fw, name := e.name,
       mac := KeyMac(key))
  }

  /** One stored blob goes into the first free slot, if there is one. */
  function LoadOne(t: Table, key: string, e: Entry): Table
    requires IsKey(key)
  {
    var f := FirstFree(t.slots, 0);
    if f == |t.slots| then t else t.(slots := t.slots[f := Loaded(t.slots[f], key, e)], count := t.count + 1)
  }

  /** All blobs in the order the iterator comes by. */
  function LoadInto(t: Table, blobs: map<string, Entry>, order: seq<string>): Table
    requires Listed(blobs, order)
  {
    if order == [] then t
    else LoadOne(LoadInto(t, blobs, order[..|order| - 1]), order[|order| - 1], blobs[order[|order| - 1]])
  }

  /** The table after a reset: `order` is the order in which the NVS iterator comes by. */
  function Booted(nvs: Nvs, order: seq<string>): Table
    requires Listed(nvs.blobs, order)
  {
    if !nvs.present then AtReset() else LoadInto(AtReset().(nextId := BootId(nvs)), nvs.blobs, order)
  }

  // ── node_registry.c ────────────────────────────────────────────────────────

  class NodeRegistry {
    const slots: array<NodeInfo>
    var count: int
    var nextId: uint16
    var dirty: bool

    ghost predicate Valid()
      reads this
    {
      slots.Length == MAX_NODES
    }

    ghost function State(): Table
      reads this, slots
    {
      Table(slots[..], count, nextId, dirty)
    }

    constructor ()
      ensures Valid() && State() == AtReset() && fresh(slots)
    {
      slots := new NodeInfo[MAX_NODES](_ => EMPTY);
      count, nextId, dirty := 0, 0x0002, false;
      new;
      assert slots[..] == AtReset().slots;
    }

    method FindFreeSlot() returns (k: nat)
      requires Valid()
      ensures k == FirstFree(slots[..], 0)
    {
      for i := 0 to MAX_NODES
        invariant FirstFree(slots[..], 0) == FirstFree(slots[..], i)
      {
        if !slots[i].valid {
          return i;
        }
      }
      return MAX_NODES;
    }

    method FindByMac(mac: Mac) returns (k: nat)
      requires Valid()
      ensures k == FirstMac(slots[..], mac, 0)
    {
      for i := 0 to MAX_NODES
        invariant FirstMac(slots[..], mac, 0) == FirstMac(slots[..], mac, i)
      {
        if slots[i].valid && slots[i].mac == mac {
          return i;
        }
      }
      return MAX_NODES;
    }

    method GetById(id: uint16) returns (k: nat)
      requires Valid()
      ensures k == FirstId(slots[..], id, 0)
    {
      for i := 0 to MAX_NODES
        invariant FirstId(slots[..], id, 0) == FirstId(slots[..], id, i)
      {
        if slots[i].valid && slots[i].nodeId == id {
          return i;
        }
      }
      return MAX_NODES;
    }

    method RegisterNode(reg: RegPayload, mac: Mac, now: uint32) returns (id: uint16)
      requires Valid()
      modifies this, slots
      ensures Valid() && (State(), id) == Register(old(State()), reg, mac, now)
    {
      var k := MAX_NODES;
      if reg.reconnect {
        k := FindByMac(mac);
        if k < MAX_NODES {
          id := slots[k].nodeId;
          slots[k] := slots[k].(status := Online, lastSeen := now);
        }
      }
      if k == MAX_NODES {
        k := FindByMac(mac);
        if k == MAX_NODES {
          k := FindFreeSlot();
          if k == MAX_NODES {
            return 0;
          }
          var next := nextId;
          while next == NODE_ID_ROOT || next == NODE_ID_HMI
            invariant next == nextId || next == Skip(nextId)
            decreases next == nextId
          {
            next := Increment(next);
          }
          id := next;
          nextId := Increment(next);
        } else {
          id := slots[k].nodeId;
        }
        slots[k] := Filled(slots[k], id, reg, mac, now);
        count := count + 1;
      }
      dirty := true;
    }

    method UpdateHeartbeat(id: uint16, rssi: int, payload: seq<byte>, now: uint32)
      requires Valid()
      modifies slots
      ensures Valid() && State() == Heartbeat(old(State()), id, rssi, payload, now)
    {
      var k := GetById(id);
      if k < MAX_NODES {
        var n := slots[k].(lastSeen := now, rssi := rssi);
        if n.status == Warning || n.status == Offline {
          n := n.(status := Online);
        }
        var len := if |payload| < |n.cache| then |payload| else |n.cache|;
        slots[k] := n.(cache := payload[..len] + n.cache[len..]);
      }
    }

    method SetNodeStatus(id: uint16, status: NodeStatus)
      requires Valid()
      modifies this`dirty, slots
      ensures Valid() && State() == SetStatus(old(State()), id, status)
    {
      var k := GetById(id);
      if k < MAX_NODES {
        slots[k] := slots[k].(status := status);
        dirty := true;
      }
    }

    method NodeIsHmi(id: uint16) returns (yes: bool)
      requires Valid()
      ensures yes == IsHmi(State(), id)
    {
      var k := GetById(id);
      yes := k < MAX_NODES && slots[k].nodeType == NODE_TYPE_HMI;
    }

    /** `node_registry_dump`: as many of the valid slots as the caller's buffer holds. */
    method Dump(bufSize: nat) returns (buf: seq<NodeInfo>)
      requires Valid()
      ensures buf == Front(Valids(slots[..]), bufSize)
    {
      buf := [];
      var i := 0;
      while i < MAX_NODES && |buf| < bufSize
        invariant i <= MAX_NODES && |buf| <= bufSize
        invariant buf == Valids(slots[..i])
      {
        assert slots[..i + 1][..i] == slots[..i];
        if slots[i].valid {
          buf := buf + [slots[i]];
        }
        i := i + 1;
      }
      ValidsGrow(slots[..], i);
      assert slots[..][..i] == slots[..i];
      assert slots[..MAX_NODES] == slots[..];
    }

    /** `node_registry_save_to_nvs` once the namespace is open; the commit takes effect whole. */
    method SaveToNvs(nvs: Nvs) returns (nvs': Nvs)
      requires Valid()
      modifies this`dirty
      ensures Valid() && (State(), nvs') == Saved(old(State()), nvs)
    {
      hide EntryOf, MacKey;
      var blobs := nvs.blobs;
      for i := 0 to MAX_NODES
        invariant blobs == nvs.blobs + ImageUpTo(slots[..], i)
        invariant State() == old(State())
      {
        if slots[i].valid {
          blobs := blobs[MacKey(slots[i].mac) := EntryOf(slots[i])];
        }
      }
      nvs' := Nvs(true, blobs, Some(nextId));
      dirty := false;
    }

    /** One blob of `node_registry_load_from_nvs`. */
    method LoadBlob(key: string, e: Entry)
      requires Valid() && IsKey(key)
      modifies this`count, slots
      ensures Valid()
      ensures State() == LoadOne(old(State()), key, e)
    {
      var f := FindFreeSlot();
      if f < MAX_NODES {
        slots[f] := Loaded(slots[f], key, e);
        count := count + 1;
      }
    }

    /** `node_registry_init` after a reset. */
    method LoadFromNvs(nvs: Nvs, order: seq<string>)
      requires Valid() && State() == AtReset()
      requires Listed(nvs.blobs, order)
      modifies this, slots
      ensures Valid() && State() == Booted(nvs, order)
    {
      if !nvs.present {
        return;
      }
      if nvs.nextId.Some? {
        nextId := nvs.nextId.value;
      }
      if nextId < 0x0002 {
        nextId := 0x0002;
      }
      ghost var t := State();
      for i := 0 to |order|
        invariant Valid() && State() == LoadInto(t, nvs.blobs, order[..i])
      {
        assert order[..i + 1][..i] == order[..i];
        LoadBlob(order[i], nvs.blobs[order[i]]);
      }
      assert order[..|order|] == order;
    }
  }
}
