/**
 * The board-independent part of class `UI`: the debounce state it keeps per
 * button and the LEDs it drives. Raw button levels are an input sequence and
 * the LEDs an array of logical on/off values; the GPIO pin numbers and the
 * active-low output level of the Raspberry Pi board are not part of this model.
 */
module HardwareUI {
  import opened Options
  import opened Debounce

  class UI {
    /** `_button_state`: the value last reported per button. */
    const buttonState: array<bool>
    /** `_button_state_last_change`: the time each button was last seen pressed. */
    const lastChange: array<real>
    /** The logical state of each LED, as last written by `setLED`. */
    const leds: array<bool>

    /** One debounce entry and one time per button, kept apart from the LEDs. */
    ghost predicate Valid()
    {
      buttonState.Length == lastChange.Length && buttonState != leds
    }

    /** The debounce state of every button channel. */
    ghost function Channels(): (cs: seq<Channel>)
      reads buttonState, lastChange
      requires Valid()
      ensures |cs| == buttonState.Length
    {
      Zip(buttonState[..], lastChange[..])
    }

    /** Every button starts unreported, last changed at construction time `now`. */
    constructor (buttonCount: nat, ledCount: nat, now: real)
      ensures Valid()
      ensures buttonState.Length == buttonCount && leds.Length == ledCount
      ensures Channels() == seq(buttonCount, _ => Channel(false, now))
      ensures fresh(buttonState) && fresh(lastChange) && fresh(leds)
    {
      buttonState := new bool[buttonCount](_ => false);
      lastChange := new real[buttonCount](_ => now);
      leds := new bool[ledCount];
    }

    /** `setOnlyLED`: every LED off, then LED `index` on when there is one. */
    method SetOnlyLED(index: Option<nat>)
      requires index.Some? ==> index.value < leds.Length
      modifies leds
      ensures forall i | 0 <= i < leds.Length :: leds[i] == (index == Some(i))
    {
      for i := 0 to leds.Length
        invariant forall j | 0 <= j < i :: !leds[j]
      {
        leds[i] := false;
      }
      if index.Some? {
        leds[index.value] := true;
      }
    }

    /**
     * `getDebouncedButtonState` at clock time `now`, given the raw level of
     * every button: every channel is polled once, in index order, and the
     * reported values are returned.
     */
    method GetDebouncedButtonState(raw: seq<bool>, now: real) returns (pressed: seq<bool>)
      requires Valid() && |raw| == buttonState.Length
      modifies buttonState, lastChange
      ensures Channels() == PollAll(old(Channels()), raw, now)
      ensures pressed == Reported(Channels())
    {
      ghost var before := Channels();
      for i := 0 to buttonState.Length
        invariant forall j | 0 <= j < i :: Channel(buttonState[j], lastChange[j]) == Poll(before[j], raw[j], now)
        invariant forall j | i <= j < buttonState.Length :: Channel(buttonState[j], lastChange[j]) == before[j]
      {
        if !raw[i] {
          buttonState[i] := false;
          continue;
        }
        var wasReported := buttonState[i];
        if now - lastChange[i] > DebounceInterval && !wasReported {
          buttonState[i] := true;
        } else {
          buttonState[i] := false;
        }
        lastChange[i] := now;
      }
      pressed := buttonState[..];
    }
  }
}
