# DomoC firmware: a verified model

DomoC is the firmware of a camper's home automation: nodes on a mesh network (a motorised
step, thermostats, cameras), a MASTER that watches the ignition key, and a ROOT that keeps
the registry of nodes. This project models the parts on which its safety rests and proves
what they keep over every run.

The code is modelled in its own form: objects and static variables are classes with the same
fields, loops are loops, arrays are arrays. Each method is proved equal to a function on
values, and the runs are runs of these functions; where a run is long-lived (`StepLoop`,
`RootLoop`, `NodeBase.Interleave`, `KeySwitch.PollAll`) the objects are driven through it and
proved to go exactly through the states of the run. What each function means is stated apart
from it: `StepEvents` and `MonitorEvents` give the whole new state, and all that is said, after
each event of any run, from the event and the old state alone. Times are true, unbounded
times; the code sees them modulo 2^32 (`Clock.Millis`).

- **STEP** (`Motor`, `Mesh`, `Step`, `StepSafety`, `StepRuns`, `StepEvents`,
  `StepTheorems`, `StepRegistration`, `StepLimits`, `StepLoop`, `MeshTheorems`). A
  turn of the loop receives any texts and connection changes, tests for standalone, polls the
  end stops, runs the watchdog. Messages, sensors and clock are adversarial; a turn lasts at
  most G ms. The key flag, the states under the key and the order of motor calls need no bound
  on G. The motor is started only inside `on_receive`, which first refreshes the mesh activity;
  so the watchdog beats the standalone timeout, exactly if 10000 + 3G <= 30000
  (`StepLimits.NeverAlonePoweredIff`). The key keeps the bridge from opening exactly if
  10000 + G <= 30000 (`StepLimits.KeyHoldsBridgeIff`), and powering is bounded exactly if
  10000 + 2G < 2^32 (`StepLimits.BoundedPoweringIff`).
- **Wire** (`Crc8`, `Crc8Detection`, `Crc16`, `Crc16Detection`, `Crc16Distance`,
  `Crc16Limits`, `Hex`, `Wire`, `NodeBase`). CRC-8/MAXIM and CRC-16/CCITT-FALSE as bit-serial
  registers: bursts, parity, linearity, double flips, minimum distance; hexadecimal transport with the exact behaviour of
  `strtol`; framing, parsing and the transmit queue under every interleaving.
- **ROOT** (`Registry`, `RegistryImage`, `RegistrySteps`, `Root`, `RegistryRuns`,
  `RegistryLoss`, `Monitor`, `MonitorTheorems`, `MonitorEvents`,
  `MonitorWatch`, `RootLoop`). Registrations, heartbeats, monitor snapshots,
  single verdicts of the monitor, flash writes and resets, in every interleaving.
- **Ignition key** (`KeySwitch`, `KeyChannel`). The MASTER's debouncer over every sample
  sequence, and MASTER, radio channel and STEP composed end to end.

Where code and comments or tests disagree, the code is modelled:

- `STATE_STANDALONE` never returns to the earlier state (`Code/nodes_arduino/step/step.cpp:361`
  re-enters the current one; only the watchdog leaves it, to ERROR), and no command leaves `STATE_ERROR`, whatever the comment at
  `Code/nodes_arduino/step/step.cpp:258` says: `StepTheorems.DeadUntilReboot`.
- KEY_ON closes the step from OPEN and OPENING only; in ERROR or STANDALONE with the step out it
  does nothing: `StepTheorems.KeyOnClosesIff`.
- The key flag in MSG_STEP_OPEN, meant for a warning
  (`Code/nodes_arduino/step/step.cpp:187`), is 0 in every such frame: `StepTheorems.StepOpenNeverWarns`.
- CRC-8 of the single byte 0xAA is 0xD1 (`Crc8.SingleByte`), not the value in
  `Code/tests/test_protocol.cpp:28`.
- `node_registry_load_from_nvs` passes the namespace where `nvs_entry_find` expects the partition
  name (`Code/nodes/root/main/node_registry.c:251`). `RegistryRuns` takes the iterator to come by
  every stored blob; `RegistryLoss` takes it to come by any part of them, none included.
- CRC-8 misses two flipped bits exactly when they are a multiple of 127 bits apart, which fits
  into a frame: `Crc8Detection.DoubleFlipMissedIff`.
- `s_count` is not the number of nodes once a known MAC registers without `reconnect`:
  `RegistryRuns.CountIsExact` says by how much it is off.
- The action code of a command is the byte after the header even if the payload is empty
  (`Code/nodes_arduino/step/step.cpp:299`): `StepEvents.Action`.
- Heartbeats do not bring a LOST node back: `MonitorTheorems.LostPersists`.

`dafny verify dfyconfig.toml` checks the whole project.

## Model

| member | source | states |
|---|---|---|
| Clock.ElapsedIsTrueTime | Code/nodes_arduino/step/step.cpp:262 | an unsigned 32-bit difference of two readings never exceeds the true time between them, and equals it within one turn of the clock |
| Crc8.DomocCrc8 | Code/arduino_lib/domoc/domoc_protocol.h:133-144 | the loop computes the bit-serial register over the bits of the bytes, least significant first |
| Crc8.BaseCrc8 | Code/Base/include/mesh_protocol.hpp:153-165 | the second loop, written the other way round, computes the same function |
| Crc8.SingleByte | Code/Base/include/mesh_protocol.hpp:153-165 | the CRC of the byte 0xAA is 0xD1 |
| Crc8.ValidIffZero | Code/arduino_lib/domoc/DomocMesh.cpp:110 | a frame passes the check exactly when the CRC over all of it, CRC byte included, is 0 |
| Crc8.Window | Code/arduino_lib/domoc/domoc_protocol.h:137-141 | two runs over at most eight bits that end alike started from registers that differ by exactly the error bits |
| Crc8Detection.BurstDetected | Code/arduino_lib/domoc/DomocMesh.cpp:110 | at every length, every nonzero error within eight consecutive bits, byte boundaries and CRC byte included, fails the check |
| Crc8Detection.DamagedByteDetected | Code/arduino_lib/domoc/DomocMesh.cpp:110 | replacing any one byte of a valid frame by another fails the check |
| Crc8Detection.CrcParity | Code/Base/include/mesh_protocol.hpp:153-165 | the CRC has the parity of the data bits, and valid frames have even parity |
| Crc8Detection.OddFlipsDetected | Code/Base/include/mesh_protocol.hpp:153-165 | any odd number of flipped bits fails the check, at every length |
| Crc8Detection.CrcLinear | Code/arduino_lib/domoc/domoc_protocol.h:133-144 | the CRC of an exclusive or is the exclusive or of the CRCs |
| Crc8Detection.Period | Code/arduino_lib/domoc/domoc_protocol.h:138 | the register returns to 1 exactly at the multiples of 127 |
| Crc8Detection.DoubleFlipMissedIff | Code/arduino_lib/domoc/DomocMesh.cpp:110 | two flipped bits pass the check exactly when their distance is a multiple of 127 |
| Crc8Detection.FrameDistance | Code/arduino_lib/domoc/DomocMesh.cpp:110 | two different valid frames of one length differ in at least two bits, in at least four up to fifteen bytes |
| Crc16.MeshCrc16 | Code/shared/protocol/mesh_protocol.c:5-14 | the loop computes the register of CRC-16/CCITT-FALSE over the bits, most significant first |
| Crc16.MeshMsgValid | Code/shared/protocol/mesh_protocol.c:17-22 | the verdict on the 215 bytes of the packed message: CRC of the first 213 against the little-endian field |
| Crc16Detection.CrcSeparatesBursts | Code/shared/protocol/mesh_protocol.c:5-14 | at every length, inputs with equal CRC that differ only within sixteen consecutive bits are equal |
| Crc16Detection.MsgBurstDetected | Code/shared/protocol/mesh_protocol.c:17-22 | any nonzero error within sixteen consecutive covered bits, the field untouched, makes `mesh_msg_valid` false |
| Crc16Detection.ValidMsgIsEven | Code/shared/protocol/mesh_protocol.c:17-22 | a valid message, CRC field included, has even parity |
| Crc16Detection.OddMsgFlipsDetected | Code/shared/protocol/mesh_protocol.c:17-22 | any odd number of flipped bits, anywhere in the message, makes it invalid |
| Crc16Detection.OddFlipsChangeCrc | Code/shared/protocol/mesh_protocol.c:5-14 | at every length, inputs that differ in an odd number of bits have different CRCs |
| Crc16Detection.CrcAffine | Code/shared/protocol/mesh_protocol.c:5-14 | the change of the CRC under an error depends on the error alone, over equally long inputs |
| Crc16Distance.ValidIffCodewordZero | Code/shared/protocol/mesh_protocol.c:17-22 | a message is valid exactly when, with its field turned most significant byte first, it leaves the register at zero |
| Crc16Distance.NoReturn | Code/shared/protocol/mesh_protocol.c:10-11 | within the length of a message the register on zero bits never comes back to its top bit |
| Crc16Distance.MsgDistance | Code/shared/protocol/mesh_protocol.c:17-22 | any two different valid messages differ in at least four bits, wherever these lie |
| Crc16Limits.ShortBurstDetected | Code/shared/protocol/mesh_protocol.c:17-22 | any nonzero error within twelve consecutive bits, anywhere in the message, the CRC field as it goes out included, makes it invalid |
| Crc16Limits.FieldBurstMissed | Code/shared/protocol/mesh_protocol.c:17-22 | twelve is exact: every valid message stays valid under a certain error of four bits within thirteen across the border of the field |
| Crc16Limits.GeneratorIsMissed | Code/shared/protocol/mesh_protocol.c:5-14 | sixteen is exact for the CRC: a certain error of four bits within seventeen, laid over any three bytes of any input, leaves it as it was |
| Crc16Limits.MsgAtDistanceFour | Code/shared/protocol/mesh_protocol.c:17-22 | the distance of four is exact: around every valid message there are valid ones that differ in four bits |
| Hex.RoundTrip | Code/arduino_lib/domoc/DomocMesh.cpp:139-159 | decoding the upper-case hexadecimal text of any bytes gives the bytes |
| Hex.DecodeDamagedPair | Code/arduino_lib/domoc/DomocMesh.cpp:154-157 | characters of one pair, whatever replaces them, change one byte and no other |
| Hex.EitherCase | Code/arduino_lib/domoc/DomocMesh.cpp:156 | digits of either case read as the same byte |
| Hex.OtherPairs | Code/arduino_lib/domoc/DomocMesh.cpp:156 | what `strtol` makes of white space, signs and other characters in a pair |
| Hex.BytesToHex | Code/arduino_lib/domoc/DomocMesh.cpp:139-148 | the loop builds the text, byte after byte |
| Hex.HexToBytes | Code/arduino_lib/domoc/DomocMesh.cpp:150-159 | refuses exactly odd and empty texts; otherwise fills the front of the buffer as `strtol` reads each pair and leaves the rest |
| Wire.RoundTripOnTheWire | Code/arduino_lib/domoc/DomocMesh.cpp:72-129 | what `send_frame` emits is delivered with the same type, source, destination and sequence, and the first 200 bytes of payload, to exactly the addressed nodes, and to the ROOT |
| Wire.DamagedCharacter | Code/arduino_lib/domoc/DomocMesh.cpp:102-159 | a text whose frame is valid, with one character, or both of one pair, replaced by anything, is dropped or delivered unchanged by every node, addressed or not |
| Wire.TextIsValid | Code/arduino_lib/domoc/DomocMesh.cpp:72-88 | every text `send_frame` emits is such a text |
| Motor.DomocMotor.constructor | Code/arduino_lib/domoc/DomocMotor.h:14-15 | fields at construction; pins at any levels |
| Motor.DomocMotor.Begin | Code/arduino_lib/domoc/DomocMotor.h:17-22 | `begin` leaves the bridge off |
| Motor.DomocMotor.StartMotor | Code/arduino_lib/domoc/DomocMotor.h:24-39 | the pin writes of `start`, in order, end with the bridge driving the direction asked for, from any levels |
| Motor.DomocMotor.StopMotor | Code/arduino_lib/domoc/DomocMotor.h:41-47 | the pin writes of `stop` end with all pins low; the duration is the unsigned difference |
| Motor.InterlockOverEveryTrace | Code/arduino_lib/domoc/DomocMotor.h:24-47 | in the write trace of every sequence of calls, direction pins change only with ENABLE low, and with ENABLE high exactly one direction pin is high |
| Motor.DrivesLastStart | Code/arduino_lib/domoc/DomocMotor.h:24-47 | between calls the bridge drives a direction exactly when the last call was a start in it |
| Mesh.DomocMesh.Begin | Code/arduino_lib/domoc/DomocMesh.cpp:20-24 | interval, activity and first registration; the ROOT does not register |
| Mesh.DomocMesh.FrameText | Code/arduino_lib/domoc/DomocMesh.cpp:75-85 | the buffer filled in place becomes the text of the frame, payload clipped to 200 bytes |
| Mesh.DomocMesh.Send | Code/arduino_lib/domoc/DomocMesh.cpp:72-88 | every call uses a sequence number; broadcast, single, or nothing for the unknown node 0 |
| Mesh.DomocMesh.OnReceive | Code/arduino_lib/domoc/DomocMesh.cpp:102-129 | any text counts as activity; only frames that decode, pass the CRC and are addressed here change the flags and reach the handler |
| Mesh.DomocMesh.OnChangedConnections | Code/arduino_lib/domoc/DomocMesh.cpp:131-135 | activity noted; registration retried if neither registered nor standalone |
| Mesh.DomocMesh.HeartbeatTest | Code/arduino_lib/domoc/DomocMesh.cpp:32-36 | due exactly for a registered node past its interval; then time and interval are renewed |
| Mesh.DomocMesh.StandaloneTest | Code/arduino_lib/domoc/DomocMesh.cpp:39-50 | standalone entered after more than 30 s of silence on an empty mesh, left when the mesh is not empty |
| MeshTheorems.CallsAreNumbered | Code/arduino_lib/domoc/DomocMesh.cpp:72-88 | over every series of sends since boot the k-th carries sequence number k mod 256 and its own fields, goes where it was sent, and only those to node 0 stay unsent |
| MeshTheorems.RegistrationLayout | Code/arduino_lib/domoc/domoc_protocol.h:99-104 | a registration is 24 bytes: name, type, reconnect flag, MAC |
| MeshTheorems.BeginSays | Code/arduino_lib/domoc/DomocMesh.cpp:20-24 | `begin` says one registration without reconnect, and nothing on the ROOT |
| MeshTheorems.RootIsQuiet | Code/arduino_lib/domoc/DomocMesh.cpp:31-50 | the ROOT never registers, beats, or goes standalone |
| Step.StepNode.constructor | Code/nodes_arduino/step/step.cpp:329-365 | state after `setup`: motor off, CLOSED or OPEN by the end stop, registration sent |
| Step.StepNode.Enter | Code/nodes_arduino/step/step.cpp:176-204 | `enter_state`: state set, MSG_STEP_OPEN broadcast on OPEN only, status reported |
| Step.StepNode.HandleMessage | Code/nodes_arduino/step/step.cpp:273-326 | `on_message` branch by branch, key block included |
| Step.StepNode.Receive | Code/arduino_lib/domoc/DomocMesh.cpp:102-129 | reception then handler, on one text |
| Step.StepNode.UpdateTail | Code/arduino_lib/domoc/DomocMesh.cpp:27-51 | heartbeat and standalone test of `update` with the callbacks of the STEP, each report reading the pins for itself |
| Step.StepNode.PollEndstops | Code/nodes_arduino/step/step.cpp:220-249 | `check_endstops`: rising edges, debounced, stop the motor in the states that wait for them |
| Step.StepNode.Watch | Code/nodes_arduino/step/step.cpp:260-266 | `check_motor_timeout`: a motor running for more than 10 s is stopped, state ERROR |
| StepSafety.DeliverKeeps | Code/nodes_arduino/step/step.cpp:273-326 | receiving any text keeps: bridge as the state says, a stop before every start, key respected, flags of MSG_STEP_OPEN clear |
| StepSafety.MeshCheckKeeps | Code/arduino_lib/domoc/DomocMesh.cpp:27-51 | so does the mesh check, which leaves motor and key flag alone |
| StepSafety.EndstopsKeep | Code/nodes_arduino/step/step.cpp:220-249 | so does the polling of the end stops |
| StepSafety.WatchKeeps | Code/nodes_arduino/step/step.cpp:260-266 | so does the watchdog |
| StepRuns.SoundStep | Code/nodes_arduino/step/step.cpp:378-396 | so does every event of the loop, whatever the timing |
| StepRuns.StepKeeps | Code/nodes_arduino/step/step.cpp:378-396 | every event keeps the timed invariant: when motor and mesh were last started and heard, and the watchdog behind them |
| StepEvents.StatusLayout | Code/nodes_arduino/step/step.cpp:72-81 | a status report field by field |
| StepEvents.BootDoes | Code/nodes_arduino/step/step.cpp:329-365 | after `setup`: CLOSED or OPEN by the closed stop, motor off whatever the pins were, nothing known, one registration said |
| StepEvents.AckDoes | Code/nodes_arduino/step/step.cpp:279-283 | an acknowledgement sets ROOT and registration and is answered with descriptor and status |
| StepEvents.KeyOnDoes | Code/nodes_arduino/step/step.cpp:289-295 | KEY_ON sets the flag; OPEN and OPENING stop, drive close and report AUTO_CLOSING; nothing else moves |
| StepEvents.CommandIff | Code/nodes_arduino/step/step.cpp:298-322 | opening starts exactly on OPEN in CLOSED with the key off, closing exactly on CLOSE in OPEN with the key off; GET_STATUS is always answered with one status; nothing else happens |
| StepEvents.OtherTextsDo | Code/arduino_lib/domoc/DomocMesh.cpp:102-129 | KEY_OFF clears the flag; every other text only counts as activity |
| StepEvents.ConnectionsDo | Code/arduino_lib/domoc/DomocMesh.cpp:131-135 | a change of connections registers exactly a node neither registered nor standalone, without reconnect |
| StepEvents.CheckDoes | Code/arduino_lib/domoc/DomocMesh.cpp:27-51 | when exactly a heartbeat is due, STANDALONE entered, the mesh back, and what is said each time |
| StepEvents.EndstopsDo | Code/nodes_arduino/step/step.cpp:220-249 | a closing step is CLOSED and off exactly at a debounced edge of the closed stop, an opening one OPEN and off exactly at one of the open stop; otherwise motor and state stay; levels and edge time are remembered |
| StepEvents.WatchdogIff | Code/nodes_arduino/step/step.cpp:260-266 | while 10000 + 2G < 2^32 the motor is stopped with ERROR exactly after more than 10 s of true time |
| StepEvents.DurationIsTrue | Code/arduino_lib/domoc/DomocMotor.h:46 | the duration a stop records is the true time since the start, within a turn of the clock |
| StepRegistration.RegistrationIsLastAck | Code/arduino_lib/domoc/DomocMesh.cpp:119-121 | in every run the ROOT is the sender of the last accepted acknowledgement, and the node registered exactly if one came since boot or the last entry into STANDALONE |
| StepRegistration.SinglesFollowAcks | Code/arduino_lib/domoc/DomocMesh.cpp:85-87 | nothing said is unsaid, and every text to one node goes to the sender last acknowledged when it was sent |
| StepRegistration.AckedNodeBeats | Code/arduino_lib/domoc/DomocMesh.cpp:31-36 | after an acknowledgement the next mesh check sends a due heartbeat to its sender |
| StepTheorems.NotAloneWhilePowered | Code/arduino_lib/domoc/DomocMesh.cpp:38-44 | with the motor running the mesh was heard too recently for the standalone test, clock wrap included |
| StepTheorems.MotorRunsExactlyWhenMoving | Code/nodes_arduino/step/step.cpp:260-326 | if 10000 + 3G <= 30000 then in every run the motor runs exactly in OPENING, CLOSING and AUTO_CLOSING, in that direction, and the bridge is off otherwise |
| StepTheorems.StartsFollowStops | Code/nodes_arduino/step/step.cpp:289-316 | for any G, every start of the motor came straight after a stop |
| StepTheorems.PoweringIsBounded | Code/nodes_arduino/step/step.cpp:260-266 | no start outlives 10000 ms and two turns; an episode has at most two starts, the second only to reverse an opening; while 10000 + 2G < 2^32 |
| StepTheorems.OnlyTheseEdges | Code/nodes_arduino/step/step.cpp:220-326 | if 10000 + 3G <= 30000 every step follows the state graph; AUTO_CLOSING ends only in CLOSED or ERROR; STANDALONE is not left |
| StepTheorems.DeadUntilReboot | Code/nodes_arduino/step/step.cpp:358-361 | for any G, from ERROR or STANDALONE the motor never starts again without a reboot, and only these two states follow |
| StepTheorems.KeyFlagIsLastHeard | Code/arduino_lib/domoc/DomocMesh.cpp:119-126 | for any G, in every run the key flag is what the last accepted key message said |
| StepTheorems.KeySafety | Code/nodes_arduino/step/step.cpp:285-304 | for any G, between KEY_ON and the next KEY_OFF the step is neither OPEN nor OPENING, and the bridge not driven to open unless STANDALONE was entered with the motor on |
| StepTheorems.KeyOnClosesIff | Code/nodes_arduino/step/step.cpp:289-295 | for any G, an accepted KEY_ON starts the closing exactly in OPEN and OPENING; otherwise nothing moves |
| StepTheorems.StepOpenNeverWarns | Code/nodes_arduino/step/step.cpp:184-193 | for any G, every MSG_STEP_OPEN ever sent carries key flag 0 |
| StepTheorems.KeyBridgeSafe | Code/nodes_arduino/step/step.cpp:260-295 | if 10000 + G <= 30000 the bridge never drives open with the key on |
| StepLimits.TooSlow | Code/nodes_arduino/step/step.cpp:378-384 | a concrete run with turns of 6667 ms after which STANDALONE is entered with the motor powered |
| StepLimits.NeverAlonePoweredIff | Code/nodes_arduino/step/step.cpp:260-266 | STANDALONE is never entered with the motor powered if and only if 10000 + 3G <= 30000 |
| StepLimits.FollowsEdgesIff | Code/nodes_arduino/step/step.cpp:220-326 | every step of every run follows the state graph under the same condition and no other |
| StepLimits.KeyedTooSlow | Code/nodes_arduino/step/step.cpp:289-295 | a concrete run with turns of 20001 ms that drives open with the key on |
| StepLimits.KeyHoldsBridgeIff | Code/nodes_arduino/step/step.cpp:260-295 | the bridge never drives open with the key on if and only if 10000 + G <= 30000 |
| StepLimits.StaysOn | Code/nodes_arduino/step/step.cpp:262 | once a turn of the 32-bit clock fits between two looks of the watchdog, runs in which the motor stays on as long as one likes |
| StepLimits.BoundedPoweringIff | Code/nodes_arduino/step/step.cpp:260-266 | powering is bounded by 10000 ms and two turns in every run if and only if 10000 + 2G < 2^32 |
| StepLoop.Perform | Code/nodes_arduino/step/step.cpp:378-396 | the objects do what the run model says, event by event |
| StepLoop.Drive | Code/nodes_arduino/step/step.cpp:378-396 | and over any whole run |
| NodeBase.Node.SendTo | Code/Base/src/node_base.cpp:209-220 | the four outcomes of `send_to`; an accepted item goes to the end of the queue |
| NodeBase.Node.TakeItem | Code/Base/src/node_base.cpp:231 | `tx_loop` takes the item at the front |
| NodeBase.Node.Serialise | Code/Base/src/node_base.cpp:233-241 | the frame buffer filled in place holds header, payload and CRC |
| NodeBase.Node.TransmitItem | Code/Base/src/node_base.cpp:233-247 | the frame of the item in hand goes on the air with the next sequence number |
| NodeBase.Node.Receive | Code/Base/src/node_base.cpp:134-158 | a frame is dispatched exactly if long enough, CRC-clean and addressed here, with its fields and payload length |
| NodeBase.SeqOfIsModulo | Code/Base/src/node_base.cpp:237 | the eight-bit counter after k increments is k mod 256 |
| NodeBase.QueueIsFifo | Code/Base/src/node_base.cpp:209-249 | in every interleaving accepted items are those sent, in hand and queued, in order; at most eight queued; the k-th frame is the k-th accepted item with sequence k mod 256 |
| NodeBase.SendAcceptedIff | Code/Base/src/node_base.cpp:209-220 | after any interleaving a send is accepted if and only if it has at most 200 bytes and the queue exists with fewer than eight items; a refused one changes nothing and says why |
| NodeBase.Interleave | Code/Base/src/node_base.cpp:209-249 | the object, driven through any interleaving, puts those frames on the air |
| NodeBase.ParseInvertsSerialise | Code/Base/src/node_base.cpp:128-159 | `rx_loop` recovers exactly the item `tx_loop` serialised, on addressed nodes only |
| NodeBase.SameWire | Code/Base/src/node_base.cpp:226-249 | both stacks put the same bytes on the wire and accept and parse the same frames |
| KeySwitch.KeyInput.ReadKeyOn | Code/nodes_arduino/master/master.ino:37-56 | one call: next state and message |
| KeySwitch.PollAll | Code/nodes_arduino/master/master.ino:37-56 | the messages of a whole sample sequence |
| KeySwitch.BroadcastIsJustified | Code/nodes_arduino/master/master.ino:40-54 | a broadcast reports the sampled level, and every sample of the last 100 ms showed it |
| KeySwitch.BroadcastsAreApart | Code/nodes_arduino/master/master.ino:40-54 | two broadcasts are at least 100 ms apart |
| KeySwitch.BroadcastsAlternate | Code/nodes_arduino/master/master.ino:46-54 | broadcasts alternate KEY_ON, KEY_OFF, beginning with KEY_ON; the flag says which came last |
| KeySwitch.StableInputIsReported | Code/nodes_arduino/master/master.ino:40-47 | a level held for 100 ms of samples is reported |
| KeyChannel.KeyReachesTheStep | Code/arduino_lib/domoc/DomocMesh.cpp:119-126 | MASTER, FIFO channel and STEP composed: for any G, once the channel drains the key flags agree and with the key on the step is neither open nor opening; if 10000 + G <= 30000 its motor is not driven to open |
| Registry.NodeRegistry.constructor | Code/nodes/root/main/node_registry.c:16-19 | the static variables after a reset |
| Registry.NodeRegistry.FindFreeSlot | Code/nodes/root/main/node_registry.c:28-34 | the first free slot, if any |
| Registry.NodeRegistry.FindByMac | Code/nodes/root/main/node_registry.c:36-43 | the first valid slot with the MAC, if any |
| Registry.NodeRegistry.GetById | Code/nodes/root/main/node_registry.c:115-122 | the first valid slot with the id, if any |
| Registry.NodeRegistry.RegisterNode | Code/nodes/root/main/node_registry.c:59-113 | reconnect, known MAC, new node and full table, with id, count and dirty flag |
| Registry.NodeRegistry.UpdateHeartbeat | Code/nodes/root/main/node_registry.c:132-148 | time, signal and cache updated; WARNING and OFFLINE, not LOST, become ONLINE |
| Registry.NodeRegistry.SetNodeStatus | Code/nodes/root/main/node_registry.c:150-159 | the status of a known id is set and the table marked dirty |
| Registry.NodeRegistry.NodeIsHmi | Code/nodes/root/main/node_registry.c:179-183 | known and of the HMI's type |
| Registry.NodeRegistry.Dump | Code/nodes/root/main/node_registry.c:167-177 | the valid slots, in order, as many as the buffer holds |
| Registry.NodeRegistry.SaveToNvs | Code/nodes/root/main/node_registry.c:206-237 | the blobs of all valid slots and the next id are written; dirty cleared |
| Registry.NodeRegistry.LoadFromNvs | Code/nodes/root/main/node_registry.c:239-280 | next id restored, at least 2; each blob the iterator comes by goes into the first free slot |
| RegistryImage.KeyIsInvertible | Code/nodes/root/main/node_registry.c:200-204 | the twelve-digit key of a MAC is injective and reads back as the MAC |
| RegistrySteps.RegisterKnown | Code/nodes/root/main/node_registry.c:66-110 | a known MAC keeps its id; its data change only without reconnect; nobody else changes |
| RegistrySteps.RegisterNew | Code/nodes/root/main/node_registry.c:77-110 | a new MAC gets an id nobody has; nobody else changes |
| RegistrySteps.RegisterFull | Code/nodes/root/main/node_registry.c:82-86 | a full table refuses new MACs unchanged |
| RegistrySteps.LoadRestores | Code/nodes/root/main/node_registry.c:239-280 | in any iteration order, load restores exactly the saved map, all OFFLINE and never heard, count and next id right, nothing dirty |
| RegistryRuns.IdsAreExact | Code/nodes/root/main/node_registry.c:59-113 | in every run with saves and resets: distinct MACs and ids; ids in use are exactly {2..next_id-1} minus 0x000F; next_id is 2+n or 3+n, at most 67 |
| RegistryRuns.CountIsExact | Code/nodes/root/main/node_registry.c:106 | `s_count` is the number of nodes plus the registrations of known MACs without reconnect since reset |
| RegistryRuns.CleanMeansSaved | Code/nodes/root/main/nvs_persist.c:22-29 | whenever nothing is dirty, flash equals the persistent part of the table |
| RegistryRuns.SaveThenReset | Code/nodes/root/main/node_registry.c:206-280 | save then reset gives the same nodes under the same ids, all OFFLINE, and the same next id |
| RegistryRuns.IdentityIsStable | Code/nodes/root/main/node_registry.c:59-113 | a registered MAC keeps its id through every run whose resets find the registration in flash |
| RegistryRuns.SameMacSameId | Code/nodes/root/main/node_registry.c:59-113 | two successful registrations of a MAC give the same id in every run between them whose resets find the first one saved, whenever it was saved |
| RegistryRuns.RegisterFlushResetRegister | Code/nodes/root/main/nvs_persist.c:22-29 | registering, flushing, resetting and registering again gives the same id |
| RegistryRuns.DiscardedIdIsGivenAway | Code/nodes/root/main/node_registry.c:88-90 | the condition is needed: a reset before the save gives the id to another node and a new one to the first |
| RegistryRuns.ResetForgetsUnsaved | Code/nodes/root/main/node_registry.c:239-280 | after a reset a MAC is known exactly if it had been saved |
| RegistryLoss.IdsStayApart | Code/nodes/root/main/node_registry.c:239-280 | whatever part of the blobs each reset finds, in every run of up to 65532 registrations MACs and ids stay distinct, ids in {2..next_id-1} minus 0x000F, next_id at most 3 more than registrations |
| RegistryLoss.NothingFound | Code/nodes/root/main/node_registry.c:247-258 | if a reset finds nothing, only next_id survives, and whoever registers gets an id above every saved one |
| Root.HeartbeatMonitor.TakeSnapshot | Code/nodes/root/main/heartbeat_monitor.c:22-28 | clock and table are taken together |
| Root.HeartbeatMonitor.JudgeNext | Code/nodes/root/main/heartbeat_monitor.c:30-58 | one turn of the inner loop: status and notification by the verdict on the snapshot entry |
| Root.FlushTurn | Code/nodes/root/main/nvs_persist.c:22-29 | one turn of the flush loop: saved if dirty and flash opens, otherwise untouched |
| RootLoop.Perform | Code/nodes/root/main/heartbeat_monitor.c:15-60 | registry, monitor and flash objects do what the run model says, step by step, and the HMI is told what the log holds |
| RootLoop.Drive | Code/nodes/root/main/heartbeat_monitor.c:15-60 | and over any whole run from the factory state, resets included |
| MonitorTheorems.Escalation | Code/nodes/root/main/heartbeat_monitor.c:30-58 | in every interleaving, between two hearings of a node its notifications strictly increase in WARNING < OFFLINE < LOST |
| MonitorTheorems.Justified | Code/nodes/root/main/heartbeat_monitor.c:38-57 | each notification was justified by true silence of 15, 30 or 120 s at its snapshot |
| MonitorTheorems.LostPersists | Code/nodes/root/main/node_registry.c:140-141 | LOST persists through any run, heartbeats included, until the node registers or the ROOT resets |
| MonitorTheorems.RecalledIsNotLost | Code/nodes/root/main/node_registry.c:66-98 | its registration or a reset ends LOST |
| MonitorEvents.RegisterDoes | Code/nodes/root/main/node_registry.c:59-113 | the whole effect of a registration on the node, the counters and nobody else |
| MonitorEvents.HeartbeatDoes | Code/nodes/root/main/node_registry.c:132-148 | WARNING and OFFLINE become ONLINE, LOST stays; time, signal and cache byte by byte; nobody else |
| MonitorEvents.HeardIsOnlineOrLost | Code/nodes/root/main/node_registry.c:140-141 | after every run that ends with a heartbeat of a known node, it is ONLINE or LOST |
| MonitorEvents.JudgeDoes | Code/nodes/root/main/heartbeat_monitor.c:30-58 | one verdict: nothing for the HMI, otherwise the status its difference calls for is set, told and marked to be saved; nobody else |
| MonitorEvents.HmiStep | Code/nodes/root/main/heartbeat_monitor.c:33-34 | no step tells about the HMI, and only its own registration or heartbeat, or a reset, changes its status |
| MonitorEvents.HmiIsLeftAlone | Code/nodes/root/main/heartbeat_monitor.c:33-34 | and over every run along which a node is the HMI |
| MonitorEvents.FlushIff | Code/nodes/root/main/nvs_persist.c:22-29 | flash is written exactly if something is dirty and it opens, and then equals the table |
| MonitorWatch.NobodyIsMissed | Code/nodes/root/main/heartbeat_monitor.c:30-58 | after a pass every node but the HMI silent for 15, 30 or 120 s at its snapshot is at least WARNING, OFFLINE, LOST |
| MonitorWatch.WrapIsHarmless | Code/nodes/root/main/heartbeat_monitor.c:38 | at every snapshot a watched node that is not LOST has been silent for less than 120000 ms and the gap, and the unsigned difference is its true silence |
| MonitorWatch.WrapHurts | Code/nodes/root/main/heartbeat_monitor.c:38 | a concrete run, with a longer gap, after which a node silent for 2^32 ms looks fresh |
| MonitorWatch.WrapIsHarmlessIff | Code/nodes/root/main/heartbeat_monitor.c:22-46 | the difference is the true silence in all runs if and only if the gap is at most 2^32 - 120000 ms |

## Left out

- Mesh.DomocMesh.OnReceive: takes texts of at most 412 characters, which is what its 206-byte buffer holds.
- NodeBase.Node.Receive: takes what fits the receive buffer of 205 bytes; radio errors and timeouts are turns without a frame.
- Hex.HexToBytes: takes what fits the caller's buffer, which the source does not test.
- Step.StepNode.Receive: takes texts of at most 412 characters, as `DomocMesh` does.
- Registry.NodeRegistry.LoadFromNvs: takes any order in which the NVS iterator comes by blobs with keys of twelve digits, all or part of them.
- RegistryLoss.IdsStayApart: stops at 65532 registrations since the factory, after which the 16-bit next id may wrap.
- Registry.NodeRegistry.SaveToNvs: a save takes effect whole at `nvs_commit`; a reset in the middle of one, and write errors, are not modelled.
- Root.HeartbeatMonitor.TakeSnapshot: reading the clock and copying the table are one step; the code allows a heartbeat in between, after which the difference underflows.
- Root.HeartbeatMonitor.JudgeNext: deciding, setting the status and notifying are one step; other tasks run between entries.
- KeyChannel.KeyReachesTheStep: the radio is a lossless FIFO from MASTER to STEP with arbitrary other traffic in it; loss and reordering by painlessMesh are not modelled.
- Wi-Fi, ESP-Mesh, painlessMesh, FreeRTOS, GPIO and NVS drivers: abstract inputs (texts, times, levels, a map of blobs).
- Temperature and humidity: opaque bytes in the status payload; battery voltage likewise in the key payload; LED and logging have no effect on control.
- The 500 microseconds `start` waits between ENABLE and the direction pins.
- Strings: names are opaque and already cut to length.
- `sscanf` on stored keys: modelled by the same two-digit reading as `strtol`, on the keys `mac_to_key` writes.
- `s_count` is an unbounded integer; its wrap after 2^31 registrations is not modelled.
- OTA: status UPDATING and the OTA distributor, whose chunk distribution is a stub.
- The MASTER's registry and its forwarding to the HMI, which know every node under mesh id 0.
- `NodeBase` housekeeping and dispatch beyond the parsed message; camera, thermostat and valve nodes; the older ESP-IDF step node and the grey water node, which repeat the STEP's pattern.
