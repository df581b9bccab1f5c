/** The one-second countdown of an attempt. Each firing of the interval applies
    the state updater: at one second or less it clears the interval, calls
    `submit` and sets the time to 0; otherwise it takes one second off.
    A cleared interval never fires again. */
module Countdown {

  datatype Timer = Timer(timeLeft: int, running: bool)

  /** The state after one firing, and whether that firing called `submit`. */
  datatype TickOutcome = TickOutcome(next: Timer, submits: bool)

  /** Seconds on the clock when an attempt starts. */
  function StartTime(durationMinutes: int): (seconds: int)
    ensures seconds / 60 == durationMinutes && seconds % 60 == 0
    ensures durationMinutes >= 1 ==> seconds >= 60
  {
    durationMinutes * 60
  }

  function Tick(t: Timer): (o: TickOutcome)
    ensures o.submits ==> t.running && !o.next.running && o.next.timeLeft == 0
    ensures !t.running ==> o.next == t
    ensures t.timeLeft >= 0 ==> 0 <= o.next.timeLeft <= t.timeLeft
  {
    if !t.running then TickOutcome(t, false)
    else if t.timeLeft <= 1 then TickOutcome(Timer(0, false), true)
    else TickOutcome(Timer(t.timeLeft - 1, true), false)
  }

  /** The state after `k` firings and how many of them called `submit`. */
  function Run(t: Timer, k: nat): (Timer, nat)
    decreases k
  {
    if k == 0 then (t, 0)
    else
      var o := Tick(t);
      var (last, calls) := Run(o.next, k - 1);
      (last, calls + (if o.submits then 1 else 0))
  }

  /** A cleared interval stays cleared and never submits. */
  lemma {:induction false} StoppedStaysStopped(t: Timer, k: nat)
    requires !t.running
    ensures Run(t, k) == (t, 0)
  {
    if k > 0 {
      StoppedStaysStopped(t, k - 1);
    }
  }

  /** From `T >= 1` seconds, the first `T - 1` firings count down without
      submitting; the `T`-th reaches 0, clears the interval and submits; and no
      number of firings ever submits twice. */
  lemma {:induction false} CountdownFiresOnce(T: int, k: nat)
    requires T >= 1
    ensures k < T ==> Run(Timer(T, true), k) == (Timer(T - k, true), 0)
    ensures k >= T ==> Run(Timer(T, true), k) == (Timer(0, false), 1)
  {
    if k > 0 {
      if T == 1 {
        StoppedStaysStopped(Timer(0, false), k - 1);
      } else {
        CountdownFiresOnce(T - 1, k - 1);
      }
    }
  }

  /** Firing number `k + 1` is the one that submits exactly when `k + 1 == T`. */
  lemma SubmitsOnLastTick(T: int, k: nat)
    requires T >= 1
    ensures Tick(Run(Timer(T, true), k).0).submits <==> k == T - 1
  {
    CountdownFiresOnce(T, k);
  }

  /** An attempt of `durationMinutes >= 1` ends after exactly `durationMinutes * 60` firings. */
  lemma AttemptEndsOnTime(durationMinutes: int)
    requires durationMinutes >= 1
    ensures Run(Timer(StartTime(durationMinutes), true), StartTime(durationMinutes) - 1).0.timeLeft == 1
    ensures Run(Timer(StartTime(durationMinutes), true), StartTime(durationMinutes)) == (Timer(0, false), 1)
  {
    CountdownFiresOnce(StartTime(durationMinutes), StartTime(durationMinutes) - 1);
    CountdownFiresOnce(StartTime(durationMinutes), StartTime(durationMinutes));
  }
}
