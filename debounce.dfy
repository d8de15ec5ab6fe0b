/**
 * The debounced button reader of `UI.getDebouncedButtonState`, one channel at
 * a time. A channel remembers the value it last reported and the time it was
 * last seen pressed. The clock reading `now` is a parameter.
 */
module Debounce {

  /** `UI._debounce_interval`, in seconds. */
  const DebounceInterval: real := 0.1

  /** One button channel: its last reported value and the time of its last update. */
  datatype Channel = Channel(reported: bool, lastChange: real)

  /**
   * One poll of one channel with raw reading `pressed` at time `now`. A
   * released channel reports false and keeps its time; a pressed channel
   * reports a press only on a rising edge that comes strictly more than the
   * interval after it was last seen pressed, and takes `now` as its time.
   */
  function Poll(c: Channel, pressed: bool, now: real): (r: Channel)
    ensures !pressed ==> !r.reported && r.lastChange == c.lastChange
    ensures pressed ==> r.lastChange == now
    ensures r.reported <==> pressed && !c.reported && now - c.lastChange > DebounceInterval
  {
    if !pressed then c.(reported := false)
    else if now - c.lastChange > DebounceInterval && !c.reported then Channel(true, now)
    else Channel(false, now)
  }

  /** The channels whose reported values and change times are given position by position. */
  function Zip(reported: seq<bool>, lastChange: seq<real>): (cs: seq<Channel>)
    requires |reported| == |lastChange|
    ensures |cs| == |reported|
  {
    seq(|reported|, i requires 0 <= i < |reported| => Channel(reported[i], lastChange[i]))
  }

  /** One poll of every channel, all at the same clock time. */
  function PollAll(cs: seq<Channel>, raw: seq<bool>, now: real): (r: seq<Channel>)
    requires |raw| == |cs|
    ensures |r| == |cs|
  {
    seq(|cs|, i requires 0 <= i < |cs| => Poll(cs[i], raw[i], now))
  }

  /** The values the channels report. */
  function Reported(cs: seq<Channel>): (r: seq<bool>)
    ensures |r| == |cs|
  {
    seq(|cs|, i requires 0 <= i < |cs| => cs[i].reported)
  }

  /** One raw reading of a channel and the clock time it was taken at. */
  datatype Reading = Reading(pressed: bool, at: real)

  /** The channel after each of a series of polls, starting from `c`. */
  function Trace(c: Channel, rs: seq<Reading>): (r: seq<Channel>)
    ensures |r| == |rs|
    decreases |rs|
  {
    if rs == [] then []
    else
      var next := Poll(c, rs[0].pressed, rs[0].at);
      [next] + Trace(next, rs[1..])
  }

  /** Each state of a trace is one poll away from the state before it. */
  lemma {:induction false} TraceStep(c: Channel, rs: seq<Reading>, k: nat)
    requires k < |rs|
    ensures Trace(c, rs)[k] == Poll(if k == 0 then c else Trace(c, rs)[k - 1], rs[k].pressed, rs[k].at)
    decreases k
  {
    if k > 0 {
      var next := Poll(c, rs[0].pressed, rs[0].at);
      TraceStep(next, rs[1..], k - 1);
      if k > 1 {
        assert Trace(c, rs)[k - 1] == Trace(next, rs[1..])[k - 2];
      }
    }
  }

  /** No channel reports a press on two consecutive polls. */
  lemma NoPulseTwiceInARow(c: Channel, rs: seq<Reading>, k: nat)
    requires 0 < k < |rs|
    ensures !(Trace(c, rs)[k - 1].reported && Trace(c, rs)[k].reported)
  {
    TraceStep(c, rs, k);
  }

  /**
   * A button held down through polls that are at most the interval apart is
   * reported at most once, on the first of those polls.
   */
  lemma HeldButtonPulsesOnce(c: Channel, rs: seq<Reading>)
    requires forall k | 0 <= k < |rs| :: rs[k].pressed
    requires forall k | 0 < k < |rs| :: rs[k].at - rs[k - 1].at <= DebounceInterval
    ensures forall k | 0 < k < |rs| :: !Trace(c, rs)[k].reported
  {
    forall k | 0 < k < |rs|
      ensures !Trace(c, rs)[k].reported
    {
      TraceStep(c, rs, k - 1);
      TraceStep(c, rs, k);
    }
  }

  /**
   * A release does not restart the interval: once the channel was seen
   * pressed at poll `i`, any releases and a new press at poll `j` no more than
   * the interval later is not reported.
   */
  lemma {:induction false} RepressWithinIntervalSuppressed(c: Channel, rs: seq<Reading>, i: nat, j: nat)
    requires i < j < |rs|
    requires rs[i].pressed && rs[j].pressed
    requires forall k | i < k < j :: !rs[k].pressed
    requires rs[j].at - rs[i].at <= DebounceInterval
    ensures !Trace(c, rs)[j].reported
  {
    var k := i;
    TraceStep(c, rs, i);
    while k < j - 1
      invariant i <= k < j
      invariant Trace(c, rs)[k].lastChange == rs[i].at
    {
      TraceStep(c, rs, k + 1);
      k := k + 1;
    }
    TraceStep(c, rs, j);
  }

  /**
   * The interval is measured from the last poll that saw the button pressed,
   * so a button held through polls that are more than the interval apart is
   * reported again on every second poll: held at 0.2 s, 0.4 s and 0.6 s it
   * reports a press, no press, a press.
   */
  lemma SlowPollsRefireHeldButton()
    ensures var t := Trace(Channel(false, 0.0), [Reading(true, 0.2), Reading(true, 0.4), Reading(true, 0.6)]);
      t[0].reported && !t[1].reported && t[2].reported
  {
    var rs := [Reading(true, 0.2), Reading(true, 0.4), Reading(true, 0.6)];
    var c := Channel(false, 0.0);
    TraceStep(c, rs, 0);
    TraceStep(c, rs, 1);
    TraceStep(c, rs, 2);
  }
}
