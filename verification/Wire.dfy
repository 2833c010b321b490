/** Frames on the wire: header (type, source, destination, sequence), payload, CRC-8.
    `DomocMesh` sends them as hexadecimal text, `NodeBase` as bytes. */
module Wire {
  import opened Crc8
  import opened Crc8Detection
  import opened Hex

  const HEADER: nat := 4
  const PAYLOAD_MAX: nat := 200

  const ID_MASTER: byte := 0x01
  const ID_STEP: byte := 0x02
  const ID_BROADCAST: byte := 0xFF

  const MSG_COMMAND: byte := 0x01
  const MSG_REGISTER: byte := 0x05
  const MSG_HEARTBEAT: byte := 0x06
  const MSG_DESCRIPTOR: byte := 0x07
  const MSG_REGISTER_ACK: byte := 0x09
  const MSG_KEY_ON: byte := 0x11
  const MSG_KEY_OFF: byte := 0x12
  const MSG_STEP_OPEN: byte := 0x13

  // ── Sending ────────────────────────────────────────────────────────────────

  /** `seq_++` on eight bits. */
  function NextSeq(n: byte): byte {
    n + 1
  }

  /** What an eight-bit counter started at zero shows after `k` increments. */
  function SeqOf(k: nat): byte {
    if k == 0 then 0 else NextSeq(SeqOf(k - 1))
  }

  function Value(n: byte): nat {
    n as int
  }

  lemma NextSeqWraps(n: byte)
    ensures Value(NextSeq(n)) == (Value(n) + 1) % 256
    ensures Value(0) == 0
  {
  }

  lemma {:induction false} SeqOfIsModulo(k: nat)
    ensures Value(SeqOf(k)) == k % 256
  {
    hide NextSeq, Value;
    NextSeqWraps(0);
    if k == 0 {
    } else {
      SeqOfIsModulo(k - 1);
      NextSeqWraps(SeqOf(k - 1));
      ModStep(k - 1);
    }
  }

  lemma ModStep(k: nat)
    ensures (k % 256 + 1) % 256 == (k + 1) % 256
  {
  }

  function Clip(payload: seq<byte>): (p: seq<byte>)
    ensures |p| <= PAYLOAD_MAX
    ensures |payload| <= PAYLOAD_MAX ==> p == payload
  {
    if |payload| > PAYLOAD_MAX then payload[..PAYLOAD_MAX] else payload
  }

  function Body(msgType: byte, src: byte, dst: byte, seqNum: byte, payload: seq<byte>): seq<byte> {
    [msgType, src, dst, seqNum] + payload
  }

  /** The bytes of one frame. */
  function Frame(msgType: byte, src: byte, dst: byte, seqNum: byte, payload: seq<byte>): seq<byte> {
    var body := Body(msgType, src, dst, seqNum, payload);
    body + [Crc(body)]
  }

  lemma FrameIsValid(msgType: byte, src: byte, dst: byte, seqNum: byte, payload: seq<byte>)
    ensures Valid(Frame(msgType, src, dst, seqNum, payload))
  {
    var body := Body(msgType, src, dst, seqNum, payload);
    var f := Frame(msgType, src, dst, seqNum, payload);
    assert f[..|f| - 1] == body;
  }

  // ── Receiving ──────────────────────────────────────────────────────────────

  /** Where a node listens: its logical id, and whether it is the ROOT, which hears everything. */
  datatype Address = Address(id: byte, isRoot: bool)

  /** The receive buffer of an accepted frame: header, payload and CRC byte. */
  predicate Accepted(me: Address, frame: seq<byte>) {
    |frame| >= 5 && Valid(frame) && (me.isRoot || frame[2] == me.id || frame[2] == ID_BROADCAST)
  }

  function AcceptBytes(me: Address, frame: seq<byte>): Option<seq<byte>> {
    if Accepted(me, frame) then Some(frame) else None
  }

  /** What `DomocMesh::on_receive` hands on for a received text: the buffer, or nothing. */
  function Accept(me: Address, raw: string): (r: Option<seq<byte>>)
    ensures r.Some? ==> |r.value| >= 5
  {
    if |raw| % 2 != 0 || raw == "" then None else AcceptBytes(me, Decode(raw))
  }

  function Payload(frame: seq<byte>): seq<byte>
    requires |frame| >= 5
  {
    frame[HEADER..|frame| - 1]
  }

  // ── Round trip ─────────────────────────────────────────────────────────────

  /** The text `send_frame` emits for a payload of any length. */
  function Text(msgType: byte, src: byte, dst: byte, seqNum: byte, payload: seq<byte>): string {
    Encode(Frame(msgType, src, dst, seqNum, Clip(payload)))
  }

  /** What is sent is delivered, field by field, to exactly the nodes it is addressed to; of a
      payload over 200 bytes the first 200. */
  lemma {:induction false} RoundTripOnTheWire(me: Address, msgType: byte, src: byte, dst: byte, seqNum: byte,
                                              payload: seq<byte>)
    ensures var r := Accept(me, Text(msgType, src, dst, seqNum, payload));
            if me.isRoot || dst == me.id || dst == ID_BROADCAST then
              && r.Some? && r.value[0] == msgType && r.value[1] == src
              && r.value[2] == dst && r.value[3] == seqNum
              && Payload(r.value) == if |payload| <= 200 then payload else payload[..200]
            else r == None
  {
    hide Valid, Crc;
    var f := Frame(msgType, src, dst, seqNum, Clip(payload));
    RoundTrip(f);
    FrameIsValid(msgType, src, dst, seqNum, Clip(payload));
    assert Payload(f) == Clip(payload);
  }

  /** Damaging one character (or both of one pair) of a transmitted text, whoever it was for,
      either gets it dropped or leaves what is delivered unchanged: no node ever gets a frame
      it would not have got from the text as sent. */
  lemma {:induction false} DamagedCharacter(me: Address, sent: string, got: string, i: nat)
    requires |sent| % 2 == 0 && Valid(Decode(sent))
    requires |got| == |sent| && 2 * i < |sent|
    requires forall k :: 0 <= k < |sent| && k != 2 * i && k != 2 * i + 1 ==> got[k] == sent[k]
    ensures Accept(me, got) == None || Accept(me, got) == Accept(me, sent)
  {
    hide Valid, Strtol;
    var f := Decode(sent);
    var b := Strtol(got[2 * i], got[2 * i + 1]);
    DecodeDamagedPair(sent, got, i);
    if b != f[i] {
      DamagedByteDetected(f, i, b);
    } else {
      assert f[i := b] == f;
    }
  }

  /** Every text `send_frame` emits is of this kind. */
  lemma TextIsValid(msgType: byte, src: byte, dst: byte, seqNum: byte, payload: seq<byte>)
    ensures var t := Text(msgType, src, dst, seqNum, payload);
            |t| % 2 == 0 && Valid(Decode(t))
  {
    hide Valid, Crc;
    RoundTrip(Frame(msgType, src, dst, seqNum, Clip(payload)));
    FrameIsValid(msgType, src, dst, seqNum, Clip(payload));
  }
}
