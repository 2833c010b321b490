/** `DomocMesh`: registration, heartbeat timing, standalone detection and key tracking of a
    node on the painlessMesh network. */
module Mesh {
  import opened Clock
  import opened Crc8
  import opened Hex
  import opened Wire

  const HEARTBEAT_MS: uint32 := 5000
  const HEARTBEAT_JITTER_MS: uint32 := 2000
  const STANDALONE_TIMEOUT_MS: uint32 := 30000

  /** What a node says of itself: address, type, name padded to 16 bytes, MAC. */
  datatype Identity = Identity(address: Address, nodeType: byte, name: seq<byte>, mac: seq<byte>)

  /** A text handed to painlessMesh. */
  datatype Sent = Broadcast(text: string) | Single(to: nat, text: string)

  datatype MeshState = MeshState(
    who: Identity,
    seqNum: byte,
    registered: bool,
    standalone: bool,
    keyOn: bool,
    rootMeshId: nat,
    lastHeartbeat: uint32,
    interval: uint32,
    lastActivity: uint32,
    log: seq<Sent>)

  // ── Sending ────────────────────────────────────────────────────────────────

  /** `send_frame`: every call uses up a sequence number; a frame for the unknown node 0 is
      built and dropped. */
  function SendFrame(m: MeshState, to: nat, dst: byte, msgType: byte, payload: seq<byte>, broadcast: bool): MeshState {
    var text := Text(msgType, m.who.address.id, dst, m.seqNum, payload);
    m.(seqNum := NextSeq(m.seqNum),
       log := if broadcast then m.log + [Broadcast(text)] else if to != 0 then m.log + [Single(to, text)] else m.log)
  }

  function SendBroadcast(m: MeshState, msgType: byte, payload: seq<byte>): MeshState {
    SendFrame(m, 0, ID_BROADCAST, msgType, payload, true)
  }

  function SendToRoot(m: MeshState, msgType: byte, payload: seq<byte>): MeshState {
    SendFrame(m, m.rootMeshId, ID_MASTER, msgType, payload, false)
  }

  function RegisterPayload(who: Identity, reconnect: bool): seq<byte> {
    who.name + [who.nodeType, if reconnect then 1 else 0] + who.mac
  }

  function SendRegister(m: MeshState, reconnect: bool): MeshState {
    SendBroadcast(m, MSG_REGISTER, RegisterPayload(m.who, reconnect))
  }

  // ── Receiving ──────────────────────────────────────────────────────────────

  /** What an accepted frame changes before the node's own handler sees it. */
  function Noted(m: MeshState, from: nat, frame: seq<byte>): MeshState
    requires |frame| >= 5
  {
    if frame[0] == MSG_REGISTER_ACK then m.(rootMeshId := from, registered := true)
    else if frame[0] == MSG_KEY_ON then m.(keyOn := true)
    else if frame[0] == MSG_KEY_OFF then m.(keyOn := false)
    else m
  }

  /** `on_receive` up to the callback: any text at all counts as activity. */
  function Received(m: MeshState, from: nat, raw: string, now: uint32): MeshState {
    var m1 := m.(lastActivity := now);
    match Accept(m.who.address, raw)
    case None => m1
    case Some(frame) => Noted(m1, from, frame)
  }

  function ConnectionsChanged(m: MeshState, now: uint32): MeshState {
    var m1 := m.(lastActivity := now);
    if !m.who.address.isRoot && !m.registered && !m.standalone then SendRegister(m1, false) else m1
  }

  // ── The periodic part of update() ──────────────────────────────────────────

  predicate HeartbeatDue(m: MeshState, now: uint32) {
    !m.who.address.isRoot && m.registered && Elapsed(now, m.lastHeartbeat) >= m.interval
  }

  function HeartbeatNoted(m: MeshState, now: uint32, jitter: uint32): MeshState
    requires jitter < HEARTBEAT_JITTER_MS
  {
    m.(lastHeartbeat := now, interval := HEARTBEAT_MS + jitter)
  }

  predicate GoesStandalone(m: MeshState, meshEmpty: bool, now: uint32) {
    !m.who.address.isRoot && !m.standalone && meshEmpty
    && Elapsed(now, m.lastActivity) > STANDALONE_TIMEOUT_MS
  }

  predicate ComesBack(m: MeshState, meshEmpty: bool) {
    !m.who.address.isRoot && m.standalone && !meshEmpty
  }

  function Alone(m: MeshState): MeshState {
    m.(standalone := true, registered := false)
  }

  function Back(m: MeshState): MeshState {
    SendRegister(m.(standalone := false), true)
  }

  /** What `update` asks its owner to do after the standalone test. */
  datatype Callback = NoCallback | StandaloneEntered | StandaloneLeft

  class DomocMesh {
    const who: Identity
    var seqNum: byte
    var registered: bool
    var standalone: bool
    var keyOn: bool
    var rootMeshId: nat
    var lastHeartbeat: uint32
    var interval: uint32
    var lastActivity: uint32
    /** The radio: everything handed to painlessMesh so far. */
    var log: seq<Sent>

    ghost function State(): MeshState
      reads this
    {
      MeshState(who, seqNum, registered, standalone, keyOn, rootMeshId, lastHeartbeat, interval, lastActivity, log)
    }

    constructor (who: Identity)
      ensures this.who == who
      ensures State() == MeshState(who, 0, false, false, false, 0, 0, HEARTBEAT_MS, 0, [])
    {
      this.who := who;
      seqNum, registered, standalone, keyOn, rootMeshId := 0, false, false, false, 0;
      lastHeartbeat, interval, lastActivity, log := 0, HEARTBEAT_MS, 0, [];
    }

    method Begin(now: uint32, jitter: uint32)
      requires jitter < HEARTBEAT_JITTER_MS
      modifies this
      ensures State() == Begun(old(State()), now, jitter)
    {
      interval := HEARTBEAT_MS + jitter;
      lastActivity := now;
      if !who.address.isRoot {
        Register(false);
      }
    }

    /** The buffer of `send_frame`: header, clipped payload and CRC, turned into text. */
    method FrameText(dst: byte, msgType: byte, number: byte, payload: seq<byte>) returns (hex: string)
      ensures hex == Text(msgType, who.address.id, dst, number, payload)
    {
      hide Crc, Encode;
      var buf := new byte[HEADER + PAYLOAD_MAX + 1];
      buf[0] := msgType;
      buf[1] := who.address.id;
      buf[2] := dst;
      buf[3] := number;
      ghost var header := [msgType, who.address.id, dst, number];
      assert buf[..4] == header;
      var plen := if |payload| > PAYLOAD_MAX then PAYLOAD_MAX else |payload|;
      for i := 0 to plen
        invariant buf[..4 + i] == header + payload[..i]
      {
        buf[4 + i] := payload[i];
        assert buf[..4 + i + 1] == buf[..4 + i] + [payload[i]];
      }
      var total := 4 + plen;
      assert payload[..plen] == Clip(payload);
      var crc := DomocCrc8(buf, total);
      buf[total] := crc;
      assert buf[..total + 1] == buf[..total] + [crc];
      hex := BytesToHex(buf, total + 1);
    }

    /** `send_frame`. */
    method Send(to: nat, dst: byte, msgType: byte, payload: seq<byte>, broadcast: bool)
      modifies this`seqNum, this`log
      ensures State() == SendFrame(old(State()), to, dst, msgType, payload, broadcast)
    {
      hide Text, NextSeq;
      var hex := FrameText(dst, msgType, seqNum, payload);
      seqNum := NextSeq(seqNum);
      if broadcast {
        log := log + [Broadcast(hex)];
      } else if to != 0 {
        log := log + [Single(to, hex)];
      }
    }

    method Register(reconnect: bool)
      modifies this`seqNum, this`log
      ensures State() == SendRegister(old(State()), reconnect)
    {
      Send(0, ID_BROADCAST, MSG_REGISTER, RegisterPayload(who, reconnect), true);
    }

    /** `on_receive` up to the node's callback; `delivered` is what the callback gets. */
    method OnReceive(from: nat, raw: string, now: uint32) returns (delivered: Option<seq<byte>>)
      requires |raw| <= 2 * (HEADER + PAYLOAD_MAX + 2)
      modifies this
      ensures State() == Received(old(State()), from, raw, now)
      ensures delivered == Accept(who.address, raw)
    {
      hide Crc, Decode;
      lastActivity := now;
      var buf := new byte[HEADER + PAYLOAD_MAX + 2];
      var ok, len := HexToBytes(raw, buf);
      if !ok {
        return None;
      }
      if len < 5 {
        return None;
      }
      var crc := DomocCrc8(buf, len - 1);
      assert buf[..len][..len - 1] == buf[..len - 1];
      if crc != buf[len - 1] {
        return None;
      }
      if !who.address.isRoot && buf[2] != who.address.id && buf[2] != ID_BROADCAST {
        return None;
      }
      if buf[0] == MSG_REGISTER_ACK {
        rootMeshId := from;
        registered := true;
      } else if buf[0] == MSG_KEY_ON {
        keyOn := true;
      } else if buf[0] == MSG_KEY_OFF {
        keyOn := false;
      }
      delivered := Some(buf[..len]);
    }

    method OnChangedConnections(now: uint32)
      modifies this
      ensures State() == ConnectionsChanged(old(State()), now)
    {
      lastActivity := now;
      if !who.address.isRoot && !registered && !standalone {
        Register(false);
      }
    }

    /** The heartbeat test of `update`; the caller sends the heartbeat itself. */
    method HeartbeatTest(now: uint32, jitter: uint32) returns (due: bool)
      requires jitter < HEARTBEAT_JITTER_MS
      modifies this
      ensures due == HeartbeatDue(old(State()), now)
      ensures State() == if due then HeartbeatNoted(old(State()), now, jitter) else old(State())
    {
      due := false;
      if !who.address.isRoot && registered && Elapsed(now, lastHeartbeat) >= interval {
        lastHeartbeat := now;
        interval := HEARTBEAT_MS + jitter;
        due := true;
      }
    }

    /** The standalone test of `update`, up to the callback it asks for. */
    method StandaloneTest(meshEmpty: bool, now: uint32) returns (call: Callback)
      modifies this
      ensures call == if GoesStandalone(old(State()), meshEmpty, now) then StandaloneEntered
                      else if ComesBack(old(State()), meshEmpty) then StandaloneLeft else NoCallback
      ensures State() == match call
                         case NoCallback => old(State())
                         case StandaloneEntered => Alone(old(State()))
                         case StandaloneLeft => Back(old(State()))
    {
      call := NoCallback;
      if !who.address.isRoot {
        if !standalone && meshEmpty && Elapsed(now, lastActivity) > STANDALONE_TIMEOUT_MS {
          standalone := true;
          registered := false;
          call := StandaloneEntered;
        } else if standalone && !meshEmpty {
          standalone := false;
          Register(true);
          call := StandaloneLeft;
        }
      }
    }
  }

  /** State after `begin`. */
  function Begun(m: MeshState, now: uint32, jitter: uint32): MeshState
    requires jitter < HEARTBEAT_JITTER_MS
  {
    var m1 := m.(interval := HEARTBEAT_MS + jitter, lastActivity := now);
    if m.who.address.isRoot then m1 else SendRegister(m1, false)
  }
}
