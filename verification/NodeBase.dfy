/** `NodeBase` of the ESP-IDF nodes: a bounded transmit queue between any number of senders
    and one transmitting task, and the receiving task's parser. */
module NodeBase {
  import opened Crc8
  import opened Hex
  import opened Wire

  const TX_QUEUE_DEPTH: nat := 8

  datatype TxItem = TxItem(dst: byte, msgType: byte, payload: seq<byte>)

  datatype EspErr = EspOk | InvalidSize | InvalidState | NoMem

  /** `MeshMsg`: the payload area is always 200 bytes, zero where nothing was received. */
  datatype MeshMsg = MeshMsg(msgType: byte, srcId: byte, dstId: byte, seqNum: byte, payload: seq<byte>)

  // ── Transmission as steps of a state machine ───────────────────────────────

  /** The queue (absent before `begin`), the item the transmitter holds between taking it and having
      it sent, the sequence counter, the frames on the air, and all items ever accepted. */
  datatype Tx = Tx(
    id: byte,
    queue: Option<seq<TxItem>>,
    held: Option<TxItem>,
    seqNum: byte,
    air: seq<seq<byte>>,
    accepted: seq<TxItem>)

  datatype TxStep =
    | Create
    | Send(dst: byte, msgType: byte, payload: seq<byte>)
    | Take
    | Transmit

  function SendError(t: Tx, payload: seq<byte>): EspErr {
    if |payload| > PAYLOAD_MAX then InvalidSize
    else if t.queue.None? then InvalidState
    else if |t.queue.value| == TX_QUEUE_DEPTH then NoMem
    else EspOk
  }

  function Sent(t: Tx, dst: byte, msgType: byte, payload: seq<byte>): Tx {
    if SendError(t, payload) != EspOk then t else
      var item := TxItem(dst, msgType, payload);
      t.(queue := Some(t.queue.value + [item]), accepted := t.accepted + [item])
  }

  /** `xQueueReceive` blocks on an empty queue; the transmitter takes one item at a time. */
  predicate CanTake(t: Tx) {
    t.queue.Some? && t.queue.value != [] && t.held.None?
  }

  function Taken(t: Tx): Tx
    requires CanTake(t)
  {
    t.(queue := Some(t.queue.value[1..]), held := Some(t.queue.value[0]))
  }

  function ItemFrame(id: byte, item: TxItem, seqNum: byte): seq<byte> {
    Frame(item.msgType, id, item.dst, seqNum, item.payload)
  }

  /** The outcome of the radio is only logged, so the frame counts as sent either way. */
  function Transmitted(t: Tx): Tx
    requires t.held.Some?
  {
    t.(held := None, seqNum := NextSeq(t.seqNum), air := t.air + [ItemFrame(t.id, t.held.value, t.seqNum)])
  }

  predicate CanStep(t: Tx, s: TxStep) {
    match s
    case Create => t.queue.None?
    case Send(_, _, _) => true
    case Take => CanTake(t)
    case Transmit => t.held.Some?
  }

  function Step(t: Tx, s: TxStep): Tx
    requires CanStep(t, s)
  {
    match s
    case Create => t.(queue := Some([]))
    case Send(dst, msgType, payload) => Sent(t, dst, msgType, payload)
    case Take => Taken(t)
    case Transmit => Transmitted(t)
  }

  predicate CanRun(t: Tx, run: seq<TxStep>)
    decreases |run|
  {
    run == [] || (CanStep(t, run[0]) && CanRun(Step(t, run[0]), run[1..]))
  }

  function Run(t: Tx, run: seq<TxStep>): Tx
    requires CanRun(t, run)
    decreases |run|
  {
    if run == [] then t else Run(Step(t, run[0]), run[1..])
  }

  function Idle(id: byte): Tx {
    Tx(id, None, None, 0, [], [])
  }

  // ── Nothing is lost, reordered or repeated ─────────────────────────────────

  function Held(t: Tx): seq<TxItem> {
    if t.held.Some? then [t.held.value] else []
  }

  function Queued(t: Tx): seq<TxItem> {
    if t.queue.Some? then t.queue.value else []
  }

  ghost predicate TxInv(t: Tx) {
    && |Queued(t)| <= TX_QUEUE_DEPTH
    && |t.air| <= |t.accepted|
    && t.accepted[|t.air|..] == Held(t) + Queued(t)
    && t.seqNum == SeqOf(|t.air|)
    && (forall i :: 0 <= i < |t.accepted| ==> |t.accepted[i].payload| <= PAYLOAD_MAX)
    && OnAir(t)
  }

  /** The frames sent are those of the first items accepted, numbered from 0. */
  ghost predicate OnAir(t: Tx)
    requires |t.air| <= |t.accepted|
  {
    forall k :: 0 <= k < |t.air| ==> t.air[k] == ItemFrame(t.id, t.accepted[k], SeqOf(k))
  }

  lemma SentKeeps(t: Tx, dst: byte, msgType: byte, payload: seq<byte>)
    requires TxInv(t)
    ensures var u := Sent(t, dst, msgType, payload);
            TxInv(u) && u.id == t.id && t.accepted <= u.accepted
  {
    hide SeqOf, ItemFrame;
    var u := Sent(t, dst, msgType, payload);
    if u != t {
      var item := TxItem(dst, msgType, payload);
      assert u.accepted[|u.air|..] == t.accepted[|t.air|..] + [item];
      assert Held(u) + Queued(u) == (Held(t) + Queued(t)) + [item];
    }
  }

  lemma TakenKeeps(t: Tx)
    requires TxInv(t) && CanTake(t)
    ensures TxInv(Taken(t))
  {
    hide SeqOf, ItemFrame;
    assert Held(Taken(t)) + Queued(Taken(t)) == Held(t) + Queued(t);
  }

  lemma SeqOfNext(k: nat)
    ensures SeqOf(k + 1) == NextSeq(SeqOf(k))
  {
    hide NextSeq;
  }

  lemma DropOne(s: seq<TxItem>, n: nat)
    requires n < |s|
    ensures s[n..][0] == s[n] && s[n + 1..] == s[n..][1..]
  {
  }

  lemma OnAirGrows(t: Tx)
    requires |t.air| < |t.accepted| && OnAir(t) && t.held == Some(t.accepted[|t.air|]) && t.seqNum == SeqOf(|t.air|)
    ensures OnAir(Transmitted(t))
  {
    hide SeqOf, NextSeq, ItemFrame;
  }

  lemma TransmittedKeeps(t: Tx)
    requires TxInv(t) && t.held.Some?
    ensures TxInv(Transmitted(t))
  {
    hide SeqOf, NextSeq, ItemFrame, OnAir;
    var n := |t.air|;
    SeqOfNext(n);
    assert t.accepted[n..][0] == t.held.value;
    DropOne(t.accepted, n);
    OnAirGrows(t);
    assert t.accepted[n..][1..] == Queued(t);
  }

  lemma TxStepKeeps(t: Tx, s: TxStep)
    requires TxInv(t) && CanStep(t, s)
    ensures TxInv(Step(t, s)) && Step(t, s).id == t.id
    ensures t.accepted <= Step(t, s).accepted
  {
    hide SeqOf, NextSeq, ItemFrame;
    match s
    case Create =>
    case Send(dst, msgType, payload) =>
      hide TxInv, Sent;
      SentKeeps(t, dst, msgType, payload);
    case Take =>
      hide TxInv;
      TakenKeeps(t);
    case Transmit =>
      hide TxInv;
      TransmittedKeeps(t);
  }

  lemma {:induction false} TxRunKeeps(t: Tx, run: seq<TxStep>)
    requires TxInv(t) && CanRun(t, run)
    ensures TxInv(Run(t, run)) && Run(t, run).id == t.id
    decreases |run|
  {
    hide TxInv, Step, CanStep;
    if run == [] {
    } else {
      TxStepKeeps(t, run[0]);
      TxRunKeeps(Step(t, run[0]), run[1..]);
    }
  }

  /** Under every interleaving of senders and task: the items accepted are those sent, the
      one in hand, and those queued, in this order; at most eight are queued; and the k-th
      frame on the air is the k-th accepted item with sequence number k mod 256. */
  lemma QueueIsFifo(id: byte, run: seq<TxStep>, k: nat)
    requires CanRun(Idle(id), run)
    ensures var t := Run(Idle(id), run);
            && |Queued(t)| <= TX_QUEUE_DEPTH
            && |t.air| <= |t.accepted|
            && t.accepted[|t.air|..] == Held(t) + Queued(t)
            && (k < |t.air| ==>
                  k < |t.accepted| && t.air[k] == ItemFrame(id, t.accepted[k], SeqOf(k)) && Value(SeqOf(k)) == k % 256)
  {
    hide CanRun, Run, ItemFrame, SeqOf, Value;
    IdleInv(id);
    SeqOfIsModulo(k);
    TxRunKeeps(Idle(id), run);
  }

  lemma IdleInv(id: byte)
    ensures TxInv(Idle(id))
  {
  }

  /** After any interleaving a send of at most 200 bytes is accepted if and only if there is a
      queue and it holds fewer than eight items; a refused send changes nothing, and says why. */
  lemma SendAcceptedIff(id: byte, run: seq<TxStep>, dst: byte, msgType: byte, payload: seq<byte>)
    requires CanRun(Idle(id), run)
    ensures var t := Run(Idle(id), run);
            var u, err := Sent(t, dst, msgType, payload), SendError(t, payload);
            var fits := |payload| <= 200 && t.queue.Some? && |t.queue.value| < 8;
            && (err == EspOk <==> fits)
            && (u.accepted == t.accepted + [TxItem(dst, msgType, payload)] <==> fits)
            && (fits ==> Queued(u) == Queued(t) + [TxItem(dst, msgType, payload)])
            && (!fits ==> u == t)
            && (|payload| > 200 ==> err == InvalidSize)
            && (|payload| <= 200 && t.queue.None? ==> err == InvalidState)
            && (|payload| <= 200 && t.queue.Some? && !fits ==> err == NoMem)
  {
    hide CanRun, Run, ItemFrame, SeqOf, Value;
    QueueIsFifo(id, run, 0);
    var t := Run(Idle(id), run);
    assert |t.accepted + [TxItem(dst, msgType, payload)]| != |t.accepted|;
  }

  // ── Parsing ────────────────────────────────────────────────────────────────

  function Padded(payload: seq<byte>): (p: seq<byte>)
    ensures |payload| <= PAYLOAD_MAX ==> |p| == PAYLOAD_MAX && p[..|payload|] == payload
    ensures forall i :: |payload| <= i < |p| ==> p[i] == 0
  {
    if |payload| > PAYLOAD_MAX then payload else payload + seq(PAYLOAD_MAX - |payload|, _ => 0)
  }

  /** What `rx_loop` hands to `dispatch` for the received bytes: message and payload length. */
  function Parsed(me: Address, data: seq<byte>): Option<(MeshMsg, nat)> {
    if !Accepted(me, data) then None else
      Some((MeshMsg(data[0], data[1], data[2], data[3], Padded(Payload(data))), |data| - 5))
  }

  /** The receiving task recovers exactly the item whose frame it gets. */
  lemma ParseInvertsSerialise(me: Address, id: byte, item: TxItem, seqNum: byte)
    requires |item.payload| <= PAYLOAD_MAX
    ensures Parsed(me, ItemFrame(id, item, seqNum))
         == if me.isRoot || item.dst == me.id || item.dst == ID_BROADCAST then
              Some((MeshMsg(item.msgType, id, item.dst, seqNum, Padded(item.payload)), |item.payload|))
            else None
  {
    hide Valid, Crc;
    FrameIsValid(item.msgType, id, item.dst, seqNum, item.payload);
    assert Payload(ItemFrame(id, item, seqNum)) == item.payload;
  }

  lemma SameFrame(id: byte, item: TxItem, seqNum: byte)
    requires |item.payload| <= PAYLOAD_MAX
    ensures Encode(ItemFrame(id, item, seqNum)) == Text(item.msgType, id, item.dst, seqNum, item.payload)
    ensures |ItemFrame(id, item, seqNum)| >= 5
  {
    hide Crc, Encode;
  }

  /** Both stacks put the same bytes on the wire for the same fields, and the Arduino receiver
      accepts the text of an ESP-IDF frame exactly when the ESP-IDF receiver accepts its bytes. */
  lemma {:induction false} SameWire(me: Address, id: byte, item: TxItem, seqNum: byte)
    requires |item.payload| <= PAYLOAD_MAX
    ensures Encode(ItemFrame(id, item, seqNum)) == Text(item.msgType, id, item.dst, seqNum, item.payload)
    ensures var r := Accept(me, Encode(ItemFrame(id, item, seqNum)));
            var p := Parsed(me, ItemFrame(id, item, seqNum));
            && (r.Some? <==> p.Some?)
            && (r.Some? ==> p.value.0 == MeshMsg(r.value[0], r.value[1], r.value[2], r.value[3], Padded(Payload(r.value)))
                            && p.value.1 == |Payload(r.value)|)
  {
    hide Valid, Crc, Encode, Decode, ItemFrame, Padded;
    RoundTrip(ItemFrame(id, item, seqNum));
    SameFrame(id, item, seqNum);
  }

  class Node {
    const address: Address
    var created: bool
    var queue: seq<TxItem>
    var held: Option<TxItem>
    var seqNum: byte
    /** Frames given to `transmit_frame`, and messages given to `dispatch`. */
    var air: seq<seq<byte>>
    var dispatched: seq<(MeshMsg, nat)>
    ghost var accepted: seq<TxItem>

    ghost function State(): Tx
      reads this
    {
      Tx(address.id, if created then Some(queue) else None, held, seqNum, air, accepted)
    }

    constructor (address: Address)
      ensures this.address == address && State() == Idle(address.id) && dispatched == []
    {
      this.address := address;
      created, queue, held, seqNum, air, dispatched, accepted := false, [], None, 0, [], [], [];
    }

    method Begin()
      modifies this`created, this`queue
      ensures State() == old(State()).(queue := Some([]))
    {
      created, queue := true, [];
    }

    /** `send_to`. */
    method SendTo(dst: byte, msgType: byte, payload: seq<byte>) returns (err: EspErr)
      modifies this`queue, this`accepted
      ensures err == SendError(old(State()), payload)
      ensures State() == Sent(old(State()), dst, msgType, payload)
    {
      if |payload| > PAYLOAD_MAX {
        return InvalidSize;
      }
      if !created {
        return InvalidState;
      }
      if |queue| == TX_QUEUE_DEPTH {
        return NoMem;
      }
      var item := TxItem(dst, msgType, payload);
      queue := queue + [item];
      accepted := accepted + [item];
      return EspOk;
    }

    /** First half of a turn of `tx_loop`: `xQueueReceive`. */
    method TakeItem()
      requires CanTake(State())
      modifies this`queue, this`held
      ensures State() == Taken(old(State()))
    {
      held := Some(queue[0]);
      queue := queue[1..];
    }

    /** Second half: serialise into the frame buffer and transmit. */
    method TransmitItem()
      requires held.Some? && |held.value.payload| <= PAYLOAD_MAX
      modifies this`held, this`seqNum, this`air
      ensures State() == Transmitted(old(State()))
    {
      hide Crc, NextSeq;
      var item := held.value;
      var frame := Serialise(item, seqNum);
      seqNum := NextSeq(seqNum);
      air := air + [frame];
      held := None;
    }

    method Serialise(item: TxItem, number: byte) returns (bytes: seq<byte>)
      requires |item.payload| <= PAYLOAD_MAX
      ensures bytes == ItemFrame(address.id, item, number)
    {
      hide Crc;
      var frame := new byte[HEADER + PAYLOAD_MAX + 1];
      frame[0] := item.msgType;
      frame[1] := address.id;
      frame[2] := item.dst;
      frame[3] := number;
      ghost var header := [item.msgType, address.id, item.dst, number];
      assert frame[..4] == header;
      for i := 0 to |item.payload|
        invariant frame[..4 + i] == header + item.payload[..i]
      {
        frame[4 + i] := item.payload[i];
        assert frame[..4 + i + 1] == frame[..4 + i] + [item.payload[i]];
      }
      var len := HEADER + |item.payload|;
      assert item.payload[..|item.payload|] == item.payload;
      var crc := BaseCrc8(frame, len);
      frame[len] := crc;
      assert frame[..len + 1] == frame[..len] + [crc];
      bytes := frame[..len + 1];
    }

    /** One successful receive of `rx_loop`. */
    method Receive(buf: array<byte>, size: nat)
      requires size <= buf.Length && size <= HEADER + PAYLOAD_MAX + 1
      modifies this`dispatched
      ensures dispatched == match Parsed(address, buf[..size])
                            case None => old(dispatched)
                            case Some(m) => old(dispatched) + [m]
    {
      hide Crc;
      if size < HEADER + 1 {
        return;
      }
      var len := size - 1;
      var crc := BaseCrc8(buf, len);
      assert buf[..size][..len] == buf[..len];
      if crc != buf[len] {
        return;
      }
      if buf[2] != address.id && buf[2] != ID_BROADCAST && !address.isRoot {
        return;
      }
      assert buf[4..len] == Payload(buf[..size]);
      var msg := MeshMsg(buf[0], buf[1], buf[2], buf[3], buf[4..len] + seq(PAYLOAD_MAX - (len - 4), _ => 0));
      dispatched := dispatched + [(msg, len - HEADER)];
    }
  }

  /** One step of a sender or of the transmitter. */
  method Perform(node: Node, ghost t: Tx, step: TxStep)
    requires node.State() == t && TxInv(t) && CanStep(t, step)
    modifies node
    ensures node.State() == Step(t, step)
  {
    hide Sent, NextSeq, ItemFrame;
    match step {
      case Create => node.Begin();
      case Send(dst, msgType, payload) =>
        var err := node.SendTo(dst, msgType, payload);
      case Take => node.TakeItem();
      case Transmit =>
        HeldFits(t);
        node.TransmitItem();
    }
  }

  /** Senders and transmitter interleaved as in `run`, on the object: what goes on the air. */
  method Interleave(address: Address, run: seq<TxStep>) returns (air: seq<seq<byte>>)
    requires CanRun(Idle(address.id), run)
    ensures air == Run(Idle(address.id), run).air
  {
    hide Step, CanStep, TxInv;
    var node := new Node(address);
    ghost var t := Idle(address.id);
    assert run[0..] == run;
    IdleInv(address.id);
    for i := 0 to |run|
      invariant fresh(node) && node.State() == t && TxInv(t)
      invariant CanRun(t, run[i..]) && Run(t, run[i..]) == Run(Idle(address.id), run)
    {
      assert run[i..][0] == run[i] && run[i..][1..] == run[i + 1..];
      TxStepKeeps(t, run[i]);
      Perform(node, t, run[i]);
      t := Step(t, run[i]);
    }
    assert run[|run|..] == [];
    air := node.air;
  }

  lemma HeldFits(t: Tx)
    requires TxInv(t) && t.held.Some?
    ensures |t.held.value.payload| <= PAYLOAD_MAX
  {
    assert t.held.value == t.accepted[|t.air|..][0] == t.accepted[|t.air|];
  }
}
