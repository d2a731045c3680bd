// The five-slot window of processing times that throttles the message queue (irc.c).

module Throttle {
  const HISTORY_SIZE := 5
  const LIMIT := 300000

  function Sum(w: seq<nat>): nat {
    if w == [] then 0 else w[0] + Sum(w[1..])
  }

  /** The decision taken before a message is sent. */
  predicate Throttled(now: nat, window: seq<nat>) {
    now - Sum(window) / HISTORY_SIZE <= LIMIT
  }

  /** The last five recorded times, newest first, zero where there is none. */
  function Window(recorded: seq<nat>): (w: seq<nat>)
    ensures |w| == HISTORY_SIZE
  {
    seq(HISTORY_SIZE, i requires 0 <= i => if i < |recorded| then recorded[|recorded| - 1 - i] else 0)
  }

  /** What the shift loop and the store behind it do to the five slots. */
  function Shift(window: seq<nat>, now: nat): seq<nat>
    requires |window| == HISTORY_SIZE
  {
    [now] + window[..HISTORY_SIZE - 1]
  }

  lemma ShiftIsWindow(recorded: seq<nat>, now: nat)
    ensures Shift(Window(recorded), now) == Window(recorded + [now])
  {
  }

  lemma SumOfWindow(w: seq<nat>)
    requires |w| == HISTORY_SIZE
    ensures Sum(w) == w[0] + w[1] + w[2] + w[3] + w[4]
  {
    assert w[0..] == w && w[5..] == [];
    assert forall i :: 0 <= i < HISTORY_SIZE ==> w[i..][1..] == w[i + 1..];
    assert forall i :: 0 <= i < HISTORY_SIZE ==> Sum(w[i..]) == w[i] + Sum(w[i + 1..]);
  }

  /** The j-th time before the end of the record, zero where there is none. */
  function Earlier(recorded: seq<nat>, j: nat): nat
    requires j > 0
  {
    if j <= |recorded| then recorded[|recorded| - j] else 0
  }

  /** How far the last five recorded times lie back, all together. */
  function Behind(recorded: seq<nat>, now: nat): int {
    5 * now - (Earlier(recorded, 1) + Earlier(recorded, 2) + Earlier(recorded, 3) + Earlier(recorded, 4)
               + Earlier(recorded, 5))
  }

  /** Throttled exactly when the last five times lie no more than 1,500,000 ms back all together. */
  lemma ThrottledIff(recorded: seq<nat>, now: nat)
    ensures Throttled(now, Window(recorded)) <==> Behind(recorded, now) <= 1500000
  {
    SumOfWindow(Window(recorded));
  }

  /** The recorded times of a clock that never runs backwards and reads `now`. */
  ghost predicate Monotone(recorded: seq<nat>, now: nat) {
    && (forall i, j :: 0 <= i <= j < |recorded| ==> recorded[i] <= recorded[j])
    && (forall i :: 0 <= i < |recorded| ==> recorded[i] <= now)
  }

  /** Fewer than five messages recorded: no throttling once the clock is past 1,500,000 ms. */
  lemma FirstFiveNotThrottled(recorded: seq<nat>, now: nat)
    requires |recorded| < 5 && Monotone(recorded, now)
    requires now > 1500000
    ensures !Throttled(now, Window(recorded))
  {
    SumOfWindow(Window(recorded));
  }

  /** After more than 300,000 ms without a message the next one is not throttled. */
  lemma QuietPeriodNotThrottled(recorded: seq<nat>, now: nat)
    requires Monotone(recorded, now) && now > 300000
    requires recorded != [] ==> now - recorded[|recorded| - 1] > 300000
    ensures !Throttled(now, Window(recorded))
  {
    SumOfWindow(Window(recorded));
  }

  /** After five recorded times, none more than 300,000 ms back, the next message is throttled. */
  lemma BusyIsThrottled(recorded: seq<nat>, now: nat)
    requires |recorded| >= 5 && forall i :: |recorded| - 5 <= i < |recorded| ==> recorded[i] >= now - 300000
    ensures Throttled(now, Window(recorded))
  {
    ThrottledIff(recorded, now);
  }
}
