/**
 * The per-character cooldown pair `(TotalSeconds, RemainingSeconds)` kept by
 * `CharacterService._cooldowns`, with the countdown step that the progress
 * timer applies to it and the progress-bar width that step writes.
 */
module Cooldowns {

  /** Duration of the most recent cooldown and the seconds of it still to run. */
  datatype Cooldown = Cooldown(total: int, remaining: int)

  /** The pair every character starts with: no cooldown at all. */
  const Idle: Cooldown := Cooldown(0, 0)

  /** The remaining seconds never exceed the total they count down from. */
  predicate Consistent(c: Cooldown) {
    c.remaining <= c.total
  }

  /** A cooldown is running (and the action buttons locked) while seconds remain. */
  predicate Running(c: Cooldown) {
    c.remaining > 0
  }

  /**
   * One countdown tick: a running cooldown loses exactly one second and keeps
   * its total; a finished one is left as it is, so remaining never drops
   * below zero through ticking.
   */
  function Tick(c: Cooldown): (r: Cooldown)
    ensures r.total == c.total
    ensures Running(c) ==> r.remaining == c.remaining - 1 && r.remaining >= 0
    ensures !Running(c) ==> r == c
    ensures Consistent(c) ==> Consistent(r)
  {
    if Running(c) then Cooldown(c.total, c.remaining - 1) else c
  }

  /**
   * The progress-bar width, in percent, that a tick of the running cooldown
   * `c` writes. It is computed from the remaining seconds BEFORE the
   * decrement, so it trails the counter by one tick; for a consistent running
   * cooldown the total is positive (no division by zero) and the width stays
   * below 100.
   */
  function TickWidth(c: Cooldown): (w: real)
    requires Running(c) && Consistent(c)
    ensures 0.0 <= w < 100.0
  {
    var done := (c.total - c.remaining) as real;
    var total := c.total as real;
    assert 0.0 <= done < total;
    assert done / total < 1.0 by {
      assert (done / total) * total == done;
    }
    (done / total) * 100.0
  }

  /**
   * The width written by the tick that finds `t - k` of `t` seconds left is
   * `k / t` of the bar: the fraction already elapsed before that tick.
   */
  lemma TickWidthElapsed(t: int, k: nat)
    requires k < t
    ensures TickWidth(Cooldown(t, t - k)) == k as real / t as real * 100.0
  {
    assert (t - (t - k)) as real == k as real;
  }

  /**
   * One firing of a character's two-second progress timer, which takes one
   * second off the countdown, on its pair of
   * cooldown and bar width: a running cooldown ticks and the width is
   * rewritten; otherwise neither changes.
   */
  function Elapse(c: Cooldown, w: real): (r: (Cooldown, real))
    requires Consistent(c)
    ensures r.0 == Tick(c) && Consistent(r.0)
    ensures Running(c) ==> r.1 == TickWidth(c) && 0.0 <= r.1 < 100.0
    ensures !Running(c) ==> r.1 == w
  {
    if Running(c) then (Tick(c), TickWidth(c)) else (c, w)
  }

  /** `n` successive firings of the progress timer. */
  function Elapses(c: Cooldown, w: real, n: nat): (r: (Cooldown, real))
    requires Consistent(c)
    ensures Consistent(r.0) && r.0.total == c.total
  {
    if n == 0 then (c, w) else
      var p := Elapses(c, w, n - 1);
      Elapse(p.0, p.1)
  }

  /**
   * After a reset to `(t, t)`, `n` firings leave `t - n` seconds while
   * `n <= t`, and zero ever after: the cooldown runs out exactly after `t`
   * firings and then stays finished.
   */
  lemma {:induction false} ElapsesCountdown(t: nat, w: real, n: nat)
    ensures Elapses(Cooldown(t, t), w, n).0 == Cooldown(t, if n <= t then t - n else 0)
    ensures Running(Elapses(Cooldown(t, t), w, n).0) <==> n < t
  {
    if n > 0 {
      ElapsesCountdown(t, w, n - 1);
    }
  }

  /**
   * While the countdown from `(t, t)` runs, the width after the n-th firing is
   * `(n - 1) / t * 100`: it trails the counter by one second, so the bar
   * shows what had elapsed before that firing.
   */
  lemma ElapsesWidthRunning(t: nat, w: real, n: nat)
    requires 1 <= n <= t
    ensures Elapses(Cooldown(t, t), w, n).1 == (n - 1) as real / t as real * 100.0
  {
    ElapsesCountdown(t, w, n - 1);
    TickWidthElapsed(t, n - 1);
  }

  /**
   * Once the countdown from `(t, t)` has ended, the width stays frozen at
   * `(t - 1) / t * 100`: the bar never reaches 100 percent, because a
   * finished cooldown no longer writes a width.
   */
  lemma {:induction false} ElapsesWidthFrozen(t: nat, w: real, n: nat)
    requires 1 <= t <= n
    ensures Elapses(Cooldown(t, t), w, n).1 == (t - 1) as real / t as real * 100.0
  {
    if n == t {
      ElapsesWidthRunning(t, w, n);
    } else {
      ElapsesWidthFrozen(t, w, n - 1);
      ElapsesCountdown(t, w, n - 1);
    }
  }

  /**
   * A ten-second cooldown: four seconds in, 6 seconds remain and the bar is
   * at 30 percent (not 40: it trails by one second); after ten seconds the
   * cooldown is over and the bar stops at 90 percent.
   */
  lemma TenSecondCooldown()
    ensures Elapses(Cooldown(10, 10), 0.0, 4) == (Cooldown(10, 6), 30.0)
    ensures Elapses(Cooldown(10, 10), 0.0, 10) == (Cooldown(10, 0), 90.0)
  {
    ElapsesCountdown(10, 0.0, 4);
    ElapsesWidthRunning(10, 0.0, 4);
    ElapsesCountdown(10, 0.0, 10);
    ElapsesWidthRunning(10, 0.0, 10);
  }
}
