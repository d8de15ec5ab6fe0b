/**
 * `TeachableMachine`: the per-frame classify-and-teach step. Each frame is
 * classified against the examples learned so far, the label goes into the
 * smoothing window, debounced button presses clear or extend the example set,
 * and then either the loop is asked to stop or the frame-rate window, the
 * LEDs and the status line are updated.
 */
module Teachable {
  import opened Options
  import BoundedDeque
  import Smoothing
  import opened Debounce
  import opened HardwareUI
  import opened Embedding

  /** Buttons and LEDs of the Raspberry Pi layout: button 0 resets, 1 to 4 are classes. */
  const NumButtons: nat := 5
  /** `maxlen` of `_frame_times`. */
  const FrameWindow: nat := 40
  /** Status names of the classes, indexed by label (`classification or 0`). */
  const ClassNames: seq<string> := ["--", "Red", "Orange", "Green", "Blue"]

  /** `sum(filter(lambda x: x, s))`: how many entries of `s` are true. */
  function CountPressed(s: seq<bool>): (n: nat)
    ensures n <= |s|
    decreases |s|
  {
    if s == [] then 0 else CountPressed(s[..|s| - 1]) + (if s[|s| - 1] then 1 else 0)
  }

  /** The shutdown test: four class buttons pressed in one frame, reset button not. */
  predicate Shutdown(pressed: seq<bool>): (r: bool)
    requires |pressed| > 0
    ensures r ==> !pressed[0] && |pressed| >= NumButtons
  {
    CountPressed(pressed[1..]) == 4 && !pressed[0]
  }

  /** On the five-button board, shutdown means exactly buttons 1 to 4 and not 0. */
  lemma ShutdownIffAllClassButtons(p: seq<bool>)
    requires |p| == NumButtons
    ensures Shutdown(p) <==> !p[0] && p[1] && p[2] && p[3] && p[4]
  {
    var s := p[1..];
    assert s[..3][..2][..1][..0] == [];
    assert CountPressed(s[..1]) == (if p[1] then 1 else 0);
    assert CountPressed(s[..2]) == CountPressed(s[..1]) + (if p[2] then 1 else 0) by {
      assert s[..2][..1] == s[..1];
    }
    assert CountPressed(s[..3]) == CountPressed(s[..2]) + (if p[3] then 1 else 0) by {
      assert s[..3][..2] == s[..2];
    }
    assert CountPressed(s) == CountPressed(s[..3]) + (if p[4] then 1 else 0);
  }

  /**
   * The example set after the button loop has handled channels `0 .. n-1`
   * in index order: a pressed channel 0 clears, a pressed channel `i > 0`
   * adds `emb` under label `i`, a released channel does nothing.
   */
  function ApplyButtons(ex: seq<Example>, pressed: seq<bool>, emb: Embedding, n: nat): (r: seq<Example>)
    requires n <= |pressed|
    ensures |r| <= |ex| + n
    ensures 0 < n && pressed[0] ==> |r| < n
    decreases n
  {
    if n == 0 then ex
    else
      var before := ApplyButtons(ex, pressed, emb, n - 1);
      var i := n - 1;
      if !pressed[i] then before
      else if i == 0 then []
      else before + [Example(emb, i)]
  }

  /**
   * What one frame's buttons do to the example set, in closed form: the old
   * examples survive unless button 0 was pressed; after them come one example
   * of `emb` per pressed class button, in increasing button order, and none
   * under label 0.
   */
  lemma {:induction false} ButtonActions(ex: seq<Example>, p: seq<bool>, emb: Embedding, n: nat)
    requires 0 < n <= |p|
    ensures var r := ApplyButtons(ex, p, emb, n);
      var kept := if p[0] then [] else ex;
      && |r| == |kept| + CountPressed(p[1..n])
      && r[..|kept|] == kept
      && (forall k | |kept| <= k < |r| :: r[k].embedding == emb && 0 < r[k].classId < n && p[r[k].classId])
      && (forall k, k' | |kept| <= k < k' < |r| :: r[k].classId < r[k'].classId)
  {
    if n > 1 {
      ButtonActions(ex, p, emb, n - 1);
      assert p[1..n][..n - 2] == p[1..n - 1];
    }
  }

  /**
   * A frame that shuts the machine down has already added the frame's
   * embedding under each of the labels 1, 2, 3 and 4, after the old examples.
   */
  lemma ShutdownFrameAddsEveryClass(ex: seq<Example>, p: seq<bool>, emb: Embedding)
    requires |p| == NumButtons && Shutdown(p)
    ensures ApplyButtons(ex, p, emb, NumButtons)
      == ex + [Example(emb, 1), Example(emb, 2), Example(emb, 3), Example(emb, 4)]
  {
    ShutdownIffAllClassButtons(p);
  }

  /** The frame rate over the timestamps of the window (`len / (newest - oldest + 0.001)`). */
  function Fps(times: seq<real>): (r: real)
    requires |times| > 0
    requires times[|times| - 1] - times[0] + 0.001 != 0.0
    ensures times[0] <= times[|times| - 1] ==> 0.0 < r <= (|times| as real) * 1000.0
  {
    (|times| as real) / (times[|times| - 1] - times[0] + 0.001)
  }

  /** The status name of a label (`classes[classification or 0]`). */
  function ClassName(c: Label): (name: string)
    requires c.None? || c.value < |ClassNames|
    ensures name in ClassNames
    ensures name == "--" <==> c.None? || c.value == 0
  {
    ClassNames[if c.Some? then c.value else 0]
  }

  /** The status line's content: frame rate, example count and class name. */
  datatype Status = Status(fps: real, exampleCount: nat, className: string)

  class TeachableMachine {
    const engine: EmbeddingEngine
    const ui: UI
    /** `maxlen` of the label window. */
    const bufferLength: nat
    /** `_buffer`: the newest raw nearest-neighbour labels, oldest first. */
    var buffer: seq<Label>
    /** `_frame_times`: the clock times of the newest frames, oldest first. */
    var frameTimes: seq<real>
    /** `clean_shutdown`: the loop was stopped by the button combination. */
    var cleanShutdown: bool

    /**
     * Both windows within capacity, the newest frame time the latest, every learned
     * label a class button (so every voted label names an LED and a class).
     */
    ghost predicate Valid()
      reads this, engine
    {
      && ui.Valid()
      && ui.buttonState.Length == NumButtons && ui.leds.Length == NumButtons
      && 0 < bufferLength && |buffer| <= bufferLength
      && |frameTimes| <= FrameWindow
      && (forall i | 0 <= i < |frameTimes| :: frameTimes[i] <= frameTimes[|frameTimes| - 1])
      && (forall i | 0 <= i < |engine.examples| :: 0 < engine.examples[i].classId < NumButtons)
      && (forall i | 0 <= i < |buffer| :: buffer[i].None? || buffer[i].value < NumButtons)
    }

    /**
     * A machine with a fresh engine and empty windows. A zero-length label
     * window is excluded: the first vote over it would fail.
     */
    constructor (detect: Image -> Embedding, knn: Classifier, ui: UI, bufferLength: nat)
      requires ui.Valid() && ui.buttonState.Length == NumButtons && ui.leds.Length == NumButtons
      requires 0 < bufferLength
      ensures Valid() && fresh(engine)
      ensures engine.detect == detect && engine.knn == knn && engine.examples == []
      ensures this.ui == ui && this.bufferLength == bufferLength
      ensures buffer == [] && frameTimes == [] && !cleanShutdown
    {
      engine := new EmbeddingEngine(detect, knn);
      this.ui := ui;
      this.bufferLength := bufferLength;
      buffer := [];
      frameTimes := [];
      cleanShutdown := false;
    }

    /**
     * `classify` for frame `img`, with the raw button levels read at
     * `buttonsTime` and the frame timestamp `frameTime`. Returns whether the
     * pipeline should stop and, when it goes on, the status it displays.
     */
    method Classify(img: Image, raw: seq<bool>, buttonsTime: real, frameTime: real)
      returns (stop: bool, status: Option<Status>)
      requires Valid() && |raw| == NumButtons
      requires frameTimes == [] || frameTimes[|frameTimes| - 1] <= frameTime
      modifies this`buffer, this`frameTimes, this`cleanShutdown, engine, ui.buttonState, ui.lastChange, ui.leds
      ensures Valid()
      ensures ui.Channels() == PollAll(old(ui.Channels()), raw, buttonsTime)
      ensures buffer == BoundedDeque.Append(old(buffer), bufferLength, engine.knn(old(engine.examples), engine.detect(img)))
      ensures engine.examples
        == ApplyButtons(old(engine.examples), Reported(ui.Channels()), engine.detect(img), NumButtons)
      ensures stop == Shutdown(Reported(ui.Channels()))
      ensures cleanShutdown == (old(cleanShutdown) || stop)
      ensures stop ==> frameTimes == old(frameTimes) && unchanged(ui.leds) && status == None
      ensures !stop ==> frameTimes == BoundedDeque.Append(old(frameTimes), FrameWindow, frameTime)
      ensures !stop ==> forall i | 0 <= i < NumButtons :: ui.leds[i] == (Smoothing.MostCommon(buffer) == Some(i))
      ensures !stop ==>
        status == Some(Status(Fps(frameTimes), |engine.examples|, ClassName(Smoothing.MostCommon(buffer))))
    {
      var emb := PushNearestLabel(img);
      var classification := Vote();

      var pressed := ui.GetDebouncedButtonState(raw, buttonsTime);
      ghost var channels := ui.Channels();
      ApplyButtonPresses(pressed, emb);
      stop, status := FinishFrame(pressed, classification, frameTime);
      assert ui.Channels() == channels;
    }

    /**
     * The end of `classify` once the buttons have acted: stop on the shutdown
     * combination, otherwise show the classification.
     */
    method FinishFrame(pressed: seq<bool>, classification: Label, frameTime: real)
      returns (stop: bool, status: Option<Status>)
      requires Valid() && |pressed| == NumButtons
      requires classification.None? || classification.value < NumButtons
      requires frameTimes == [] || frameTimes[|frameTimes| - 1] <= frameTime
      modifies this`cleanShutdown, this`frameTimes, ui.leds
      ensures Valid()
      ensures stop == Shutdown(pressed)
      ensures cleanShutdown == (old(cleanShutdown) || stop)
      ensures stop ==> frameTimes == old(frameTimes) && unchanged(ui.leds) && status == None
      ensures !stop ==> frameTimes == BoundedDeque.Append(old(frameTimes), FrameWindow, frameTime)
      ensures !stop ==> forall i | 0 <= i < NumButtons :: ui.leds[i] == (classification == Some(i))
      ensures !stop ==> status == Some(Status(Fps(frameTimes), |engine.examples|, ClassName(classification)))
    {
      if Shutdown(pressed) {
        cleanShutdown := true;
        return true, None;
      }

      status := ShowClassification(classification, frameTime);
      stop := false;
    }

    /** Embeds the frame and pushes its nearest-neighbour label into the window. */
    method PushNearestLabel(img: Image) returns (emb: Embedding)
      requires Valid()
      modifies this`buffer
      ensures Valid()
      ensures emb == engine.detect(img)
      ensures buffer == BoundedDeque.Append(old(buffer), bufferLength, engine.knn(engine.examples, emb))
    {
      emb := engine.DetectWithImage(img);
      var nearest := engine.KnnEmbedding(emb);
      buffer := BoundedDeque.Append(buffer, bufferLength, nearest);
    }

    /** The smoothed classification: the majority label of the window, which names an LED. */
    method Vote() returns (classification: Label)
      requires Valid() && |buffer| > 0
      ensures classification == Smoothing.MostCommon(buffer)
      ensures classification.None? || classification.value < NumButtons
    {
      classification := Smoothing.MostCommon(buffer);
    }

    /** The button loop of `classify`: each pressed button, in index order, clears or teaches. */
    method ApplyButtonPresses(pressed: seq<bool>, emb: Embedding)
      requires Valid() && |pressed| == NumButtons
      modifies engine
      ensures Valid()
      ensures engine.examples == ApplyButtons(old(engine.examples), pressed, emb, NumButtons)
    {
      ghost var examples0 := engine.examples;
      for i := 0 to |pressed|
        invariant engine.examples == ApplyButtons(examples0, pressed, emb, i)
        invariant forall k | 0 <= k < |engine.examples| :: 0 < engine.examples[k].classId < NumButtons
      {
        if !pressed[i] {
          continue;
        }
        if i == 0 {
          engine.Clear();
        } else {
          engine.AddEmbedding(emb, i);
        }
      }
    }

    /**
     * The end of a frame that does not stop the loop: record the frame time,
     * light the LED of `classification` and build the status.
     */
    method ShowClassification(classification: Label, frameTime: real) returns (status: Option<Status>)
      requires Valid()
      requires classification.None? || classification.value < NumButtons
      requires frameTimes == [] || frameTimes[|frameTimes| - 1] <= frameTime
      modifies this`frameTimes, ui.leds
      ensures Valid()
      ensures frameTimes == BoundedDeque.Append(old(frameTimes), FrameWindow, frameTime)
      ensures forall i | 0 <= i < NumButtons :: ui.leds[i] == (classification == Some(i))
      ensures status == Some(Status(Fps(frameTimes), |engine.examples|, ClassName(classification)))
    {
      frameTimes := BoundedDeque.Append(frameTimes, FrameWindow, frameTime);
      var fps := Fps(frameTimes);
      ui.SetOnlyLED(classification);
      var count := engine.ExampleCount();
      status := Some(Status(fps, count, ClassName(classification)));
    }
  }
}
