/** From the ignition key to the step: MASTER debouncer, FIFO radio channel and STEP node
    composed, every message as the text on the air. */
module KeyChannel {
  import opened Crc8
  import opened Hex
  import opened Wire
  import opened Motor
  import opened Mesh
  import opened KeySwitch
  import opened Step
  import opened StepSafety
  import opened StepRuns
  import opened StepTheorems

  const STEP_ADDRESS: Address := Address(ID_STEP, false)

  /** The samples the MASTER has taken, its mesh object, the texts under way in order of
      sending, and the STEP node's world. */
  datatype Camper = Camper(samples: seq<Sample>, master: MeshState, channel: seq<string>, step: World)

  datatype Act =
    | KeySample(pressed: bool, at: nat, battery: seq<byte>)
    | Noise(text: string)
    | StepAct(e: Event)

  /** The broadcast of a key message by the MASTER, and the text that goes out. */
  function Broadcasts(m: MeshState, msgType: byte, payload: seq<byte>): (MeshState, string) {
    (SendBroadcast(m, msgType, payload), Wire.Text(msgType, m.who.address.id, ID_BROADCAST, m.seqNum, payload))
  }

  /** Other senders put on the channel only texts the STEP does not accept as key messages;
      the STEP receives texts in the order they were sent. */
  predicate CanAct(G: nat, s: Camper, a: Act) {
    match a
    case KeySample(_, at, battery) =>
      |battery| <= PAYLOAD_MAX && (s.samples == [] || s.samples[|s.samples| - 1].at <= at)
    case Noise(text) => KeyOfText(false, text) == false && KeyOfText(true, text) == true
    case StepAct(e) =>
      Enabled(G, s.step, e) && (e.Text? ==> s.channel != [] && e.raw == s.channel[0])
  }

  function Acted(s: Camper, a: Act): Camper
    requires a.StepAct? && a.e.Check? ==> a.e.jitter < HEARTBEAT_JITTER_MS
  {
    match a
    case KeySample(pressed, at, battery) =>
      var xs := s.samples + [Sample(pressed, at)];
      (match Message(xs, |s.samples|)
       case None => s.(samples := xs)
       case Some(msgType) =>
         var (m, text) := Broadcasts(s.master, msgType, battery);
         s.(samples := xs, master := m, channel := s.channel + [text]))
    case Noise(text) => s.(channel := s.channel + [text])
    case StepAct(e) =>
      s.(step := Next(s.step, e), channel := if e.Text? && s.channel != [] then s.channel[1..] else s.channel)
  }

  predicate CanActAll(G: nat, s: Camper, acts: seq<Act>)
    decreases |acts|
  {
    acts == [] || (CanAct(G, s, acts[0]) && CanActAll(G, Acted(s, acts[0]), acts[1..]))
  }

  function ActedAll(G: nat, s: Camper, acts: seq<Act>): Camper
    requires CanActAll(G, s, acts)
    decreases |acts|
  {
    if acts == [] then s else ActedAll(G, Acted(s, acts[0]), acts[1..])
  }

  ghost predicate Start(s: Camper) {
    && s.samples == [] && s.channel == [] && s.master.who.address == Address(ID_MASTER, true)
    && Booted(s.step)
  }

  // ── The key flag in transit ────────────────────────────────────────────────

  /** What a text makes of the STEP's key flag. */
  function KeyOfText(flag: bool, text: string): bool {
    match Accept(STEP_ADDRESS, text)
    case None => flag
    case Some(f) => if f[0] == MSG_KEY_ON then true else if f[0] == MSG_KEY_OFF then false else flag
  }

  /** The STEP's key flag once all of the channel has arrived. */
  function Drained(flag: bool, channel: seq<string>): bool
    decreases |channel|
  {
    if channel == [] then flag else Drained(KeyOfText(flag, channel[0]), channel[1..])
  }

  lemma {:induction false} DrainedConcat(flag: bool, x: seq<string>, y: seq<string>)
    ensures Drained(flag, x + y) == Drained(Drained(flag, x), y)
    decreases |x|
  {
    hide KeyOfText;
    if x == [] {
      assert x + y == y;
    } else {
      DrainedConcat(KeyOfText(flag, x[0]), x[1..], y);
      assert (x + y)[1..] == x[1..] + y;
    }
  }

  lemma DrainedLast(flag: bool, x: seq<string>, text: string)
    ensures Drained(flag, x + [text]) == KeyOfText(Drained(flag, x), text)
  {
    hide KeyOfText;
    DrainedConcat(flag, x, [text]);
    var f := Drained(flag, x);
    assert [text][1..] == [];
    assert Drained(f, [text]) == Drained(KeyOfText(f, text), []);
  }

  /** A key message of the MASTER sets the STEP's flag to what it says. */
  lemma KeyMessageArrives(m: MeshState, msgType: byte, payload: seq<byte>, flag: bool)
    requires msgType == MSG_KEY_ON || msgType == MSG_KEY_OFF
    ensures KeyOfText(flag, Broadcasts(m, msgType, payload).1) == (msgType == MSG_KEY_ON)
  {
    hide Accept;
    RoundTripOnTheWire(STEP_ADDRESS, msgType, m.who.address.id, ID_BROADCAST, m.seqNum, payload);
  }

  ghost predicate Linked(G: nat, s: Camper) {
    && InOrder(s.samples)
    && Sound(s.step.c) && (Prompt(G) ==> PromptInv(G, s.step))
    && Drained(s.step.c.mesh.keyOn, s.channel) == StateAfter(s.samples).keyOn
  }

  lemma SampleLinked(G: nat, s: Camper, a: Act)
    requires a.KeySample? && CanAct(G, s, a) && Linked(G, s)
    ensures Linked(G, Acted(s, a))
  {
    hide Sound, PromptInv, Broadcasts, KeyOfText;
    var xs := s.samples + [Sample(a.pressed, a.at)];
    assert xs[..|s.samples|] == s.samples;
    AlwaysDebouncing(s.samples);
    var flag := s.step.c.mesh.keyOn;
    match Message(xs, |s.samples|)
    case None =>
    case Some(msgType) =>
      var text := Broadcasts(s.master, msgType, a.battery).1;
      DrainedLast(flag, s.channel, text);
      KeyMessageArrives(s.master, msgType, a.battery, Drained(flag, s.channel));
  }

  lemma NoiseLinked(G: nat, s: Camper, a: Act)
    requires a.Noise? && CanAct(G, s, a) && Linked(G, s)
    ensures Linked(G, Acted(s, a))
  {
    hide Sound, PromptInv, KeyOfText;
    DrainedLast(s.step.c.mesh.keyOn, s.channel, a.text);
  }

  lemma StepLinked(G: nat, s: Camper, a: Act)
    requires a.StepAct? && CanAct(G, s, a) && Linked(G, s)
    ensures Linked(G, Acted(s, a))
  {
    hide Sound, PromptInv, Next, Accept;
    SoundStep(s.step, a.e);
    KeyStep(s.step, a.e);
    if Prompt(G) {
      PromptStep(G, s.step, a.e);
    }
  }

  lemma {:induction false} AlwaysLinked(G: nat, s: Camper, acts: seq<Act>)
    requires Linked(G, s) && CanActAll(G, s, acts)
    ensures Linked(G, ActedAll(G, s, acts))
    decreases |acts|
  {
    hide Linked, Acted;
    if acts == [] {
    } else {
      match acts[0] {
        case KeySample(_, _, _) => SampleLinked(G, s, acts[0]);
        case Noise(_) => NoiseLinked(G, s, acts[0]);
        case StepAct(_) => StepLinked(G, s, acts[0]);
      }
      AlwaysLinked(G, Acted(s, acts[0]), acts[1..]);
    }
  }

  /** End to end, in every run of the composed system: delivering what is under way makes the
      STEP's key flag the MASTER's; once the channel is drained they agree; with the MASTER's
      key on and the channel drained the step is neither open nor opening; and if the loop is
      prompt its motor is not driven in the opening direction. */
  lemma KeyReachesTheStep(G: nat, s: Camper, acts: seq<Act>)
    requires Start(s) && CanActAll(G, s, acts)
    ensures var t := ActedAll(G, s, acts);
            var key := StateAfter(t.samples).keyOn;
            && Drained(t.step.c.mesh.keyOn, t.channel) == key
            && (t.channel == [] ==> t.step.c.mesh.keyOn == key)
            && (t.channel == [] && key ==>
                  && t.step.c.state != Open && t.step.c.state != Opening
                  && (MOTOR_TIMEOUT_MS + G <= STANDALONE_TIMEOUT_MS ==> !t.step.c.motor.pins.Drives(DirOpen)))
  {
    hide CanActAll, ActedAll, Booted, Inv, Sound;
    BootInv(G, s.step);
    InvSound(G, s.step);
    BootPrompt(G, s.step);
    AlwaysLinked(G, s, acts);
    var t := ActedAll(G, s, acts);
    if t.step.c.mesh.keyOn {
      KeyedState(t.step.c);
    }
  }
}
