/** What a node's mesh object says and when, stated on the texts themselves. */
module MeshTheorems {
  import opened Clock
  import opened Crc8
  import opened Hex
  import opened Wire
  import opened Mesh

  // ── Sequence numbers over every series of sends ────────────────────────────

  /** One call of `send_frame`. */
  datatype Call = Call(to: nat, dst: byte, msgType: byte, payload: seq<byte>, broadcast: bool)

  function CallAll(m: MeshState, calls: seq<Call>): MeshState {
    if calls == [] then m
    else
      var x := calls[|calls| - 1];
      SendFrame(CallAll(m, calls[..|calls| - 1]), x.to, x.dst, x.msgType, x.payload, x.broadcast)
  }

  /** How many of the calls put a text on the air: all but those to the unknown node 0. */
  function OnAir(calls: seq<Call>): nat {
    if calls == [] then 0
    else
      var x := calls[|calls| - 1];
      OnAir(calls[..|calls| - 1]) + (if x.broadcast || x.to != 0 then 1 else 0)
  }

  lemma {:induction false} CallsKeep(m: MeshState, calls: seq<Call>)
    requires m.seqNum == 0 && m.log == []
    ensures var n := CallAll(m, calls);
            |n.log| == OnAir(calls) && n.seqNum == SeqOf(|calls|) && n.who == m.who
  {
    hide Text, NextSeq;
    if calls == [] {
    } else {
      CallsKeep(m, calls[..|calls| - 1]);
    }
  }

  lemma {:induction false} LogGrows(m: MeshState, calls: seq<Call>, k: nat)
    requires k <= |calls|
    ensures CallAll(m, calls[..k]).log <= CallAll(m, calls).log
    decreases |calls|
  {
    hide Text, NextSeq;
    if k == |calls| {
      assert calls[..k] == calls;
    } else {
      var front := calls[..|calls| - 1];
      LogGrows(m, front, k);
      assert front[..k] == calls[..k];
    }
  }

  /** Over every series of calls since boot: the k-th call's text, if it goes out at all, is the
      next one in the log, goes where the call says, and is received with sequence number
      k mod 256 and the call's fields. */
  lemma {:induction false} CallsAreNumbered(m: MeshState, calls: seq<Call>, k: nat)
    requires m.seqNum == 0 && m.log == [] && k < |calls| && (calls[k].broadcast || calls[k].to != 0)
    ensures var log, at, x := CallAll(m, calls).log, OnAir(calls[..k]), calls[k];
            && at < |log|
            && (if x.broadcast then log[at].Broadcast? else log[at].Single? && log[at].to == x.to)
            && var r := Accept(Address(0, true), log[at].text);
               && r.Some? && r.value[0] == x.msgType && r.value[1] == m.who.address.id && r.value[2] == x.dst
               && Value(r.value[3]) == k % 256
               && Payload(r.value) == if |x.payload| <= 200 then x.payload else x.payload[..200]
  {
    hide Text, NextSeq, Accept, Value, SeqOf;
    var x := calls[k];
    var front := calls[..k + 1];
    assert front[..k] == calls[..k];
    CallsKeep(m, calls[..k]);
    LogGrows(m, calls, k + 1);
    assert CallAll(m, front) == SendFrame(CallAll(m, calls[..k]), x.to, x.dst, x.msgType, x.payload, x.broadcast);
    RoundTripOnTheWire(Address(0, true), x.msgType, m.who.address.id, x.dst, SeqOf(k), x.payload);
    SeqOfIsModulo(k);
  }

  // ── Saying ─────────────────────────────────────────────────────────────────

  /** Something to say to every node, or to the ROOT. */
  datatype Saying = ToAll(msgType: byte, payload: seq<byte>) | ToRoot(msgType: byte, payload: seq<byte>)

  /** The number `k` frames after `n`. */
  function Advance(n: byte, k: nat): byte {
    if k == 0 then n else Advance(n, k - 1) + 1
  }

  /** The texts of some sayings by node `id`, numbered from `n` on: to the ROOT only if its mesh
      id is known, but the number is used up either way. */
  function Emits(id: byte, root: nat, n: byte, says: seq<Saying>): seq<Sent> {
    if says == [] then []
    else
      var i := |says| - 1;
      var before := Emits(id, root, n, says[..i]);
      match says[i]
      case ToAll(msgType, payload) => before + [Broadcast(Text(msgType, id, 0xFF, Advance(n, i), payload))]
      case ToRoot(msgType, payload) =>
        if root == 0 then before else before + [Single(root, Text(msgType, id, 0x01, Advance(n, i), payload))]
  }

  /** From `m` to `n` the node says exactly this. */
  ghost predicate Says(m: MeshState, n: MeshState, says: seq<Saying>) {
    && n.who == m.who && n.seqNum == Advance(m.seqNum, |says|)
    && n.log == m.log + Emits(m.who.address.id, n.rootMeshId, m.seqNum, says)
  }

  lemma SaysNothing(m: MeshState, n: MeshState)
    requires n.who == m.who && n.seqNum == m.seqNum && n.log == m.log
    ensures Says(m, n, [])
  {
  }

  lemma SaysMore(m: MeshState, n: MeshState, says: seq<Saying>, x: Saying)
    requires Says(m, n, says)
    ensures Says(m, if x.ToAll? then SendBroadcast(n, x.msgType, x.payload) else SendToRoot(n, x.msgType, x.payload),
                 says + [x])
  {
    hide Text;
    assert (says + [x])[..|says|] == says;
  }

  lemma {:induction false} AdvanceIsModulo(n: byte, k: nat)
    ensures Value(Advance(n, k)) == (Value(n) + k) % 256
  {
    hide Value, NextSeq;
    if k == 0 {
      ByteIsSmall(n);
    } else {
      AdvanceIsModulo(n, k - 1);
      AddOne(Advance(n, k - 1));
      ModStep(Value(n) + k - 1);
    }
  }

  lemma ByteIsSmall(n: byte)
    ensures Value(n) < 256
  {
  }

  lemma AddOne(n: byte)
    ensures Value(n + 1) == (Value(n) + 1) % 256
  {
  }

  /** Nothing is said to a single node but to the known ROOT. */
  lemma {:induction false} SinglesToRoot(id: byte, root: nat, n: byte, says: seq<Saying>)
    ensures forall i :: 0 <= i < |Emits(id, root, n, says)| && Emits(id, root, n, says)[i].Single? ==>
              Emits(id, root, n, says)[i].to == root != 0
  {
    hide Text, Advance;
    if says == [] {
    } else {
      SinglesToRoot(id, root, n, says[..|says| - 1]);
    }
  }

  // ── Contents and occasions ─────────────────────────────────────────────────

  /** A registration: 16 bytes of name, type, reconnect flag, MAC. */
  lemma RegistrationLayout(who: Identity, reconnect: bool)
    requires |who.name| == 16 && |who.mac| == 6
    ensures var p := RegisterPayload(who, reconnect);
            |p| == 24 && p[..16] == who.name && p[16] == who.nodeType && (p[17] == if reconnect then 1 else 0)
            && p[18..] == who.mac
  {
  }

  /** After `begin` a node has said one thing, a registration without reconnect; the ROOT nothing. */
  lemma BeginSays(m: MeshState, now: uint32, jitter: uint32)
    requires jitter < 2000
    ensures var n := Begun(m, now, jitter);
            && n == m.(interval := 5000 + jitter, lastActivity := now, seqNum := n.seqNum, log := n.log)
            && Says(m, n, if m.who.address.isRoot then [] else [ToAll(0x05, RegisterPayload(m.who, false))])
  {
    hide Text, RegisterPayload, Advance, Emits;
    var m1 := m.(interval := 5000 + jitter, lastActivity := now);
    NothingEmitted(m.who.address.id, m.rootMeshId, m.seqNum);
    if !m.who.address.isRoot {
      assert Says(m, m1, []);
      SaysMore(m, m1, [], ToAll(0x05, RegisterPayload(m.who, false)));
      assert [] + [ToAll(0x05, RegisterPayload(m.who, false))] == [ToAll(0x05, RegisterPayload(m.who, false))];
      assert NextSeq(m1.seqNum) == SendBroadcast(m1, 0x05, RegisterPayload(m.who, false)).seqNum;
    }
  }

  lemma NothingEmitted(id: byte, root: nat, n: byte)
    ensures Emits(id, root, n, []) == [] && Advance(n, 0) == n
  {
  }

  /** The ROOT's own mesh object never registers, beats, or goes standalone. */
  lemma RootIsQuiet(m: MeshState, meshEmpty: bool, now: uint32)
    requires m.who.address.isRoot
    ensures ConnectionsChanged(m, now) == m.(lastActivity := now)
    ensures !HeartbeatDue(m, now) && !GoesStandalone(m, meshEmpty, now) && !ComesBack(m, meshEmpty)
  {
  }
}
