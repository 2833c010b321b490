/** The persistent part of the registry table as a map from MAC key to entry, the ids it
    hands out, and what registering, saving and loading make of it. */
module RegistryImage {
  import opened Hex
  import opened Registry

  // ── The shape of the table ─────────────────────────────────────────────────

  /** The first `n` slots are in use and hold distinct MACs; the rest are free. */
  ghost predicate Shape(slots: seq<NodeInfo>, n: nat) {
    && |slots| == MAX_NODES && n <= MAX_NODES
    && (forall i :: 0 <= i < |slots| ==> (slots[i].valid <==> i < n))
    && forall i, j :: 0 <= i < j < n ==> slots[i].mac != slots[j].mac
  }

  /** `next_id` after `n` nodes: ids start at 2 and pass over 0x000F. */
  function NextFor(n: nat): nat {
    if n <= 13 then 2 + n else 3 + n
  }

  ghost predicate InUse(m: map<string, Entry>, id: int) {
    exists k :: k in m && m[k].nodeId == id
  }

  /** The ids of an image are exactly {2 .. next-1} minus 0x000F, one per node. */
  ghost predicate Allocated(m: map<string, Entry>, next: int) {
    && |m| <= MAX_NODES && next == NextFor(|m|)
    && (forall k :: k in m ==> 2 <= m[k].nodeId < next && m[k].nodeId != NODE_ID_HMI)
    && (forall k, l :: k in m && l in m && m[k].nodeId == m[l].nodeId ==> k == l)
    && forall id :: 2 <= id < next && id != NODE_ID_HMI ==> InUse(m, id)
  }

  // ── Keys ───────────────────────────────────────────────────────────────────

  /** The hexadecimal MAC key is injective, and reading it back gives the MAC. */
  lemma KeyIsInvertible(a: Mac, b: Mac)
    ensures IsKey(MacKey(a)) && KeyMac(MacKey(a)) == a
    ensures MacKey(a) == MacKey(b) ==> a == b
  {
    hide Encode, Decode;
    RoundTrip(a);
    RoundTrip(b);
  }

  // ── The image, key by key ──────────────────────────────────────────────────

  /** The last slot below `i` in use under this key, or -1. */
  function Where(slots: seq<NodeInfo>, key: string, i: nat): (k: int)
    requires i <= |slots|
    ensures -1 <= k < i
    ensures k >= 0 ==> slots[k].valid && MacKey(slots[k].mac) == key
  {
    if i == 0 then -1
    else if slots[i - 1].valid && MacKey(slots[i - 1].mac) == key then i - 1
    else Where(slots, key, i - 1)
  }

  lemma {:induction false} ImageAt(slots: seq<NodeInfo>, key: string, i: nat)
    requires i <= |slots|
    ensures key in ImageUpTo(slots, i) <==> Where(slots, key, i) >= 0
    ensures key in ImageUpTo(slots, i) ==> ImageUpTo(slots, i)[key] == EntryOf(slots[Where(slots, key, i)])
  {
    hide MacKey, EntryOf;
    if i == 0 {
    } else {
      ImageAt(slots, key, i - 1);
    }
  }

  /** A slot in use is the one its key leads to. */
  lemma {:induction false} WhereIs(slots: seq<NodeInfo>, n: nat, j: nat, i: nat)
    requires Shape(slots, n) && j < n && j < i <= MAX_NODES
    ensures Where(slots, MacKey(slots[j].mac), i) == j
  {
    hide MacKey;
    KeyIsInvertible(slots[j].mac, slots[i - 1].mac);
    if j == i - 1 {
    } else {
      WhereIs(slots, n, j, i - 1);
    }
  }

  /** The image holds each slot in use under its key. */
  lemma ImageOfSlot(slots: seq<NodeInfo>, n: nat, j: nat)
    requires Shape(slots, n) && j < n
    ensures MacKey(slots[j].mac) in Image(slots) && Image(slots)[MacKey(slots[j].mac)] == EntryOf(slots[j])
  {
    hide MacKey, EntryOf;
    WhereIs(slots, n, j, MAX_NODES);
    ImageAt(slots, MacKey(slots[j].mac), MAX_NODES);
  }

  /** Every key of the image belongs to a slot in use. */
  lemma SlotOfKey(slots: seq<NodeInfo>, n: nat, key: string) returns (j: nat)
    requires Shape(slots, n) && key in Image(slots)
    ensures j < n && MacKey(slots[j].mac) == key && Image(slots)[key] == EntryOf(slots[j])
  {
    hide MacKey, EntryOf;
    ImageAt(slots, key, MAX_NODES);
    j := Where(slots, key, MAX_NODES);
  }

  /** Changing a slot without changing whose it is leaves other keys where they were. */
  lemma {:induction false} WhereElse(slots: seq<NodeInfo>, k: nat, x: NodeInfo, key: string, i: nat)
    requires k < |slots| && i <= |slots|
    requires x.valid && MacKey(x.mac) != key
    requires slots[k].valid ==> slots[k].mac == x.mac
    ensures Where(slots[k := x], key, i) == Where(slots, key, i)
  {
    hide MacKey;
    if i == 0 {
    } else {
      WhereElse(slots, k, x, key, i - 1);
    }
  }

  /** Writing a slot writes its entry into the image, and nothing else. */
  lemma ImagePut(slots: seq<NodeInfo>, n: nat, k: nat, x: NodeInfo)
    requires Shape(slots, n) && k < MAX_NODES && k <= n && x.valid
    requires k < n ==> slots[k].mac == x.mac
    requires Shape(slots[k := x], if k < n then n else n + 1)
    ensures Image(slots[k := x]) == Image(slots)[MacKey(x.mac) := EntryOf(x)]
    ensures k == n ==> MacKey(x.mac) !in Image(slots)
    ensures k < n ==> MacKey(x.mac) in Image(slots)
  {
    hide MacKey, EntryOf, ImageUpTo;
    var other := slots[k := x];
    var n' := if k < n then n else n + 1;
    ImageOfSlot(other, n', k);
    var a, b := Image(other), Image(slots)[MacKey(x.mac) := EntryOf(x)];
    forall key | key in a || key in b
      ensures key in a && key in b && a[key] == b[key]
    {
      if key != MacKey(x.mac) {
        WhereElse(slots, k, x, key, MAX_NODES);
        ImageAt(slots, key, MAX_NODES);
        ImageAt(other, key, MAX_NODES);
        var w := Where(slots, key, MAX_NODES);
        assert w != k;
      }
    }
    assert a == b;
    if k < n {
      ImageOfSlot(slots, n, k);
    } else {
      forall j | 0 <= j < n ensures slots[j].mac != x.mac {
        assert other[j] == slots[j] && other[k] == x;
      }
      if MacKey(x.mac) in Image(slots) {
        var j := SlotOfKey(slots, n, MacKey(x.mac));
        KeyIsInvertible(slots[j].mac, x.mac);
        assert false;
      }
    }
  }

  /** Slots that agree on everything persistent have the same image. */
  lemma {:induction false} ImageSame(slots: seq<NodeInfo>, other: seq<NodeInfo>, i: nat)
    requires |slots| == |other| && i <= |slots|
    requires forall j :: 0 <= j < i ==> slots[j].valid == other[j].valid && slots[j].mac == other[j].mac
                                        && EntryOf(slots[j]) == EntryOf(other[j])
    ensures ImageUpTo(slots, i) == ImageUpTo(other, i)
  {
    hide MacKey, EntryOf;
    if i == 0 {
    } else {
      ImageSame(slots, other, i - 1);
    }
  }

  lemma {:induction false} ImageOfNothing(slots: seq<NodeInfo>, i: nat)
    requires i <= |slots|
    requires forall j :: 0 <= j < i ==> !slots[j].valid
    ensures ImageUpTo(slots, i) == map[]
  {
    if i == 0 {
    } else {
      ImageOfNothing(slots, i - 1);
    }
  }
}
