/** The ignition key input of the MASTER: `read_key_on` with its time debounce, over every
    sequence of samples. */
module KeySwitch {
  import opened Clock
  import opened Crc8
  import opened Hex
  import opened Wire

  const KEY_DEBOUNCE_MS: uint32 := 100

  datatype KeyState = KeyState(keyOn: bool, keyPrev: bool, debounceMs: uint32)

  const AT_BOOT: KeyState := KeyState(false, false, 0)

  /** State after one call, and the message broadcast, if any. */
  function Read(s: KeyState, pressed: bool, now: uint32): (KeyState, Option<byte>) {
    if pressed == s.keyPrev then (s.(debounceMs := now), None)
    else if Elapsed(now, s.debounceMs) < KEY_DEBOUNCE_MS then (s, None)
    else if pressed == s.keyOn then (s.(debounceMs := now, keyPrev := pressed), None)
    else (KeyState(pressed, pressed, now), Some(if pressed then MSG_KEY_ON else MSG_KEY_OFF))
  }

  class KeyInput {
    var keyOn: bool
    var keyPrev: bool
    var debounceMs: uint32

    ghost function State(): KeyState
      reads this
    {
      KeyState(keyOn, keyPrev, debounceMs)
    }

    constructor ()
      ensures State() == AT_BOOT
    {
      keyOn, keyPrev, debounceMs := false, false, 0;
    }

    /** `read_key_on`; `pressed` is the inverted pin. */
    method ReadKeyOn(pressed: bool, now: uint32) returns (message: Option<byte>)
      modifies this
      ensures (State(), message) == Read(old(State()), pressed, now)
    {
      if pressed == keyPrev {
        debounceMs := now;
        return None;
      }
      if Elapsed(now, debounceMs) < KEY_DEBOUNCE_MS {
        return None;
      }
      debounceMs := now;
      keyPrev := pressed;
      if pressed == keyOn {
        return None;
      }
      keyOn := pressed;
      return Some(if keyOn then MSG_KEY_ON else MSG_KEY_OFF);
    }
  }

  // ── Sample sequences ───────────────────────────────────────────────────────

  /** The key input seen at a true time. */
  datatype Sample = Sample(pressed: bool, at: nat)

  predicate InOrder(xs: seq<Sample>) {
    forall i, j :: 0 <= i < j < |xs| ==> xs[i].at <= xs[j].at
  }

  function StateAfter(xs: seq<Sample>): KeyState {
    if xs == [] then AT_BOOT
    else var x := xs[|xs| - 1]; Read(StateAfter(xs[..|xs| - 1]), x.pressed, Millis(x.at)).0
  }

  /** What the call on the k-th sample broadcasts. */
  function Message(xs: seq<Sample>, k: nat): Option<byte>
    requires k < |xs|
  {
    Read(StateAfter(xs[..k]), xs[k].pressed, Millis(xs[k].at)).1
  }

  /** All broadcasts, in order. */
  function Messages(xs: seq<Sample>): seq<byte> {
    if xs == [] then []
    else
      var before := Messages(xs[..|xs| - 1]);
      match Message(xs, |xs| - 1)
      case None => before
      case Some(m) => before + [m]
  }

  /** `read_key_on` called on one sample after the other from boot: the messages broadcast. */
  method PollAll(xs: seq<Sample>) returns (messages: seq<byte>)
    ensures messages == Messages(xs)
  {
    var input := new KeyInput();
    messages := [];
    for i := 0 to |xs|
      invariant input.State() == StateAfter(xs[..i]) && messages == Messages(xs[..i])
      invariant fresh(input)
    {
      assert xs[..i + 1][..i] == xs[..i];
      var m := input.ReadKeyOn(xs[i].pressed, Millis(xs[i].at));
      messages := messages + match m case None => [] case Some(b) => [b];
    }
    assert xs[..|xs|] == xs;
  }

  // ── The debounce clock in true time ────────────────────────────────────────

  /** The true time the debounce clock was last set. */
  function SetAt(xs: seq<Sample>): nat {
    if xs == [] then 0 else
      var x := xs[|xs| - 1];
      var s := StateAfter(xs[..|xs| - 1]);
      if x.pressed != s.keyPrev && Elapsed(Millis(x.at), s.debounceMs) < KEY_DEBOUNCE_MS then SetAt(xs[..|xs| - 1])
      else x.at
  }

  predicate Debouncing(xs: seq<Sample>) {
    var s := StateAfter(xs);
    && s.keyOn == s.keyPrev
    && s.debounceMs == Millis(SetAt(xs))
    && (xs == [] || SetAt(xs) <= xs[|xs| - 1].at)
    && (xs == [] ==> SetAt(xs) == 0)
    && forall i :: 0 <= i < |xs| && xs[i].at > SetAt(xs) ==> xs[i].pressed != s.keyPrev
  }

  lemma {:induction false} AlwaysDebouncing(xs: seq<Sample>)
    requires InOrder(xs)
    ensures Debouncing(xs)
  {
    if xs == [] {
    } else {
      AlwaysDebouncing(xs[..|xs| - 1]);
    }
  }

  lemma {:induction false} SetAtNeverGoesBack(xs: seq<Sample>, k: nat)
    requires InOrder(xs) && k <= |xs|
    ensures SetAt(xs[..k]) <= SetAt(xs)
    decreases |xs|
  {
    hide StateAfter;
    if k < |xs| {
      var n := |xs| - 1;
      SetAtNeverGoesBack(xs[..n], k);
      assert xs[..n][..k] == xs[..k];
      AlwaysDebouncing(xs[..n]);
    } else {
      assert xs[..k] == xs;
    }
  }

  // ── What a broadcast means ─────────────────────────────────────────────────

  /** A broadcast reports the sampled level, and every sample of the last 100 ms showed it. */
  lemma BroadcastIsJustified(xs: seq<Sample>, k: nat)
    requires InOrder(xs) && k < |xs| && Message(xs, k).Some?
    ensures Message(xs, k).value == if xs[k].pressed then MSG_KEY_ON else MSG_KEY_OFF
    ensures StateAfter(xs[..k]).keyOn != xs[k].pressed
    ensures xs[k].at >= 100
    ensures forall i :: 0 <= i <= k && xs[i].at > xs[k].at - 100 ==> xs[i].pressed == xs[k].pressed
  {
    var before := xs[..k];
    AlwaysDebouncing(before);
    if before != [] {
      assert before[k - 1] == xs[k - 1] && xs[k - 1].at <= xs[k].at;
    }
    ElapsedIsTrueTime(xs[k].at, SetAt(before));
    forall i | 0 <= i <= k && xs[i].at > xs[k].at - KEY_DEBOUNCE_MS
      ensures xs[i].pressed == xs[k].pressed
    {
      if i < k {
        assert before[i] == xs[i];
      }
    }
  }

  /** Two broadcasts are at least 100 ms apart. */
  lemma BroadcastsAreApart(xs: seq<Sample>, j: nat, k: nat)
    requires InOrder(xs) && j < k < |xs| && Message(xs, j).Some? && Message(xs, k).Some?
    ensures xs[k].at - xs[j].at >= 100
  {
    hide StateAfter, SetAt;
    var before := xs[..k];
    AlwaysDebouncing(before);
    assert before[k - 1] == xs[k - 1];
    ElapsedIsTrueTime(xs[k].at, SetAt(before));
    SetAtNeverGoesBack(before, j + 1);
    assert before[..j + 1] == xs[..j + 1];
    SetByBroadcast(xs, j);
  }

  lemma SetByBroadcast(xs: seq<Sample>, j: nat)
    requires j < |xs| && Message(xs, j).Some?
    ensures SetAt(xs[..j + 1]) == xs[j].at
  {
    assert xs[..j + 1][..j] == xs[..j];
  }

  /** A call broadcasts exactly when it turns the key flag, and says what it turns it to. */
  lemma CallTurnsFlag(xs: seq<Sample>)
    requires InOrder(xs) && xs != []
    ensures var before, after := StateAfter(xs[..|xs| - 1]).keyOn, StateAfter(xs).keyOn;
            match Message(xs, |xs| - 1)
            case None => after == before
            case Some(m) => after == !before && m == if after then MSG_KEY_ON else MSG_KEY_OFF
  {
    AlwaysDebouncing(xs[..|xs| - 1]);
  }

  /** Broadcasts alternate KEY_ON, KEY_OFF, beginning with KEY_ON, and the key flag says
      which came last. */
  lemma {:induction false} BroadcastsAlternate(xs: seq<Sample>)
    requires InOrder(xs)
    ensures forall i :: 0 <= i < |Messages(xs)| ==> Messages(xs)[i] == if i % 2 == 0 then MSG_KEY_ON else MSG_KEY_OFF
    ensures StateAfter(xs).keyOn <==> |Messages(xs)| % 2 == 1
  {
    if xs == [] {
    } else {
      hide StateAfter, Message;
      BroadcastsAlternate(xs[..|xs| - 1]);
      CallTurnsFlag(xs);
    }
  }

  // ── The debounce is complete as well ───────────────────────────────────────

  /** Samples come at most `gap` apart, from boot on. */
  predicate Steady(xs: seq<Sample>, gap: nat) {
    && InOrder(xs)
    && (xs != [] ==> xs[0].at <= gap)
    && forall i :: 0 < i < |xs| ==> xs[i].at <= xs[i - 1].at + gap
  }

  lemma {:induction false} NeverPendingLong(xs: seq<Sample>, gap: nat)
    requires Steady(xs, gap) && KEY_DEBOUNCE_MS + gap < WRAP
    ensures xs != [] ==> xs[|xs| - 1].at - SetAt(xs) < KEY_DEBOUNCE_MS
    decreases |xs|
  {
    if xs == [] {
    } else {
      var n := |xs| - 1;
      var before := xs[..n];
      forall i | 0 < i < n ensures before[i].at <= before[i - 1].at + gap {
        assert xs[i].at <= xs[i - 1].at + gap;
      }
      NeverPendingLong(before, gap);
      AlwaysDebouncing(before);
      assert n > 0 ==> before[n - 1] == xs[n - 1];
      ElapsedIsTrueTime(xs[n].at, SetAt(before));
    }
  }

  /** While only `level` is sampled and the key flag still disagrees, the clock stays set. */
  lemma {:induction false} PendingSince(xs: seq<Sample>, i: nat, level: bool)
    requires InOrder(xs) && i < |xs|
    requires forall m :: i <= m < |xs| ==> xs[m].pressed == level
    requires StateAfter(xs).keyPrev != level
    ensures SetAt(xs) <= xs[i].at && StateAfter(xs[..i]).keyPrev != level
    decreases |xs|
  {
    var n := |xs| - 1;
    var before := xs[..n];
    AlwaysDebouncing(before);
    if i == n {
    } else {
      assert before[n - 1] == xs[n - 1] && before[i] == xs[i];
      PendingSince(before, i, level);
      assert before[..i] == xs[..i];
    }
  }

  /** Once the input has held a level for 100 ms of samples, the key flag has that level. */
  lemma StableInputIsReported(xs: seq<Sample>, gap: nat, i: nat, level: bool)
    requires Steady(xs, gap) && KEY_DEBOUNCE_MS + gap < WRAP && i < |xs|
    requires forall m :: i <= m < |xs| ==> xs[m].pressed == level
    requires xs[|xs| - 1].at - xs[i].at >= 100
    ensures StateAfter(xs).keyOn == level
  {
    hide StateAfter, SetAt;
    AlwaysDebouncing(xs);
    if StateAfter(xs).keyPrev != level {
      PendingSince(xs, i, level);
      NeverPendingLong(xs, gap);
      assert false;
    }
  }
}
