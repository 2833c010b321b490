/** The millisecond clock of the firmware: `millis()` and `esp_timer_get_time() / 1000`
    are 32-bit and wrap, so code only ever sees true time modulo 2^32. */
module Clock {

  const WRAP: nat := 0x1_0000_0000

  type uint32 = x: int | 0 <= x < 0x1_0000_0000

  /** What the 32-bit clock shows at true time `t`. */
  function Millis(t: nat): uint32 {
    t % WRAP
  }

  /** Unsigned 32-bit subtraction `now - since`. */
  function Elapsed(now: uint32, since: uint32): uint32 {
    (now - since) % WRAP
  }

  /** The unsigned difference of two readings never exceeds the true time between them,
      and equals it when that is less than one turn of the clock. */
  lemma ElapsedIsTrueTime(t: nat, s: nat)
    requires s <= t
    ensures Elapsed(Millis(t), Millis(s)) == (t - s) % WRAP
    ensures Elapsed(Millis(t), Millis(s)) <= t - s
    ensures t - s < WRAP ==> Elapsed(Millis(t), Millis(s)) == t - s
  {
  }
}
