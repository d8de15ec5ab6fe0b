# Teachable machine: classify-and-teach loop

A model of the per-frame loop of the Raspberry Pi "teachable machine" demo
(`magpi/teachable.py`). Each camera frame is turned into an embedding and
classified by a nearest-neighbour vote over the examples learned so far. The
raw label goes into a bounded window, and the frame's classification is the
majority label of that window. Five buttons are read through an edge-triggered
debouncer: button 0 clears the learned examples and buttons 1-4 teach the
current frame as class 1-4. Pressing the four class buttons together (without
button 0) stops the loop cleanly. Otherwise the frame time goes into a 40-entry
window, the LED of the classification is lit, and a status (frame rate, example
count, class name) is produced.

Files and modules:

- `options.dfy` (`Options`): the optional value standing for Python's `None`.
- `bounded_deque.dfy` (`BoundedDeque`): `deque(maxlen = cap).append` as a
  function on sequences, and what any series of appends leaves in the deque.
- `smoothing.dfy` (`Smoothing`): `Counter(window).most_common(1)[0][0]` as
  `MostCommon`, with the tie-break stated outright: the winner has maximal
  count, and among tied labels it is the one whose first occurrence in the
  window (oldest to newest) is earliest. `Counter` keeps keys in
  first-insertion order, and `most_common(1)` returns the first maximal key in
  that order.
- `debounce.dfy` (`Debounce`): one poll of one button channel (`Poll`), traces
  of many polls, and what the debouncer does to held and re-pressed buttons.
- `hardware_ui.dfy` (`HardwareUI`): class `UI` with its per-button debounce
  arrays and the LED array; `GetDebouncedButtonState` and `SetOnlyLED` are
  loops over those arrays.
- `embedding.dfy` (`Embedding`): the embedding engine as the loop sees it, an
  example store plus an opaque feature extractor and an opaque
  nearest-neighbour classifier.
- `teachable.dfy` (`Teachable`): the button actions, the shutdown test, the
  frame rate, the class-name lookup and class `TeachableMachine` with
  `Classify`.

Clock readings (`time.time()`) are parameters: `now` for the debouncer, and
`buttonsTime` and `frameTime` for the two readings inside `classify`. Raw
button levels are an input sequence. Times are `real`.

Two consequences of the code that are easy to miss:

- A held button does not always yield a single pulse. The debounce interval is
  measured from the last poll that saw the button pressed. So a button held
  through polls more than 0.1 s apart is reported again on every second poll
  (`Debounce.SlowPollsRefireHeldButton`). The single pulse holds when polls are
  at most 0.1 s apart (`Debounce.HeldButtonPulsesOnce`).
- When a fifth label enters a window of four, the oldest label is evicted and
  stops voting; the newest one does vote (`Smoothing.EvictedLabelDoesNotVote`).

## Model

| member | source | states |
|---|---|---|
| `BoundedDeque.Newest` | magpi/teachable.py:102 | the newest `cap` items of a sequence: all of it when it is short, otherwise exactly `cap` |
| `BoundedDeque.Append` | magpi/teachable.py:111 | appending to a deque of capacity `cap` keeps it within `cap`, puts the new item last, and drops the oldest item exactly when the deque was full |
| `BoundedDeque.AppendAllKeepsNewest` | magpi/teachable.py:102-111 | after any series of appends, the deque holds exactly the newest `cap` items seen, oldest first |
| `Smoothing.Scan` | magpi/teachable.py:112 | scanning the window oldest to newest and replacing the leader only on a strictly greater count ends with a label of maximal count that occurs first among those tied |
| `Smoothing.MostCommon` | magpi/teachable.py:112 | the smoothed classification is a label present in the window |
| `Smoothing.MostCommonWins` | magpi/teachable.py:112 | that label has maximal count, and among labels with that count its first occurrence is earliest |
| `Smoothing.VoteWinnerUnique` | magpi/teachable.py:112 | the voting rule determines one label, and a label satisfies the rule if and only if it is `MostCommon` |
| `Smoothing.OldestMaximalWins` | magpi/teachable.py:112 | when no label outnumbers the oldest label of the window, the oldest label wins |
| `Smoothing.TieGoesToFirstSeen` | magpi/teachable.py:112 | `[A, A, B, B]` gives A and `[B, A, A, B]` gives B |
| `Smoothing.FifthLabelEvictsFirst` | magpi/teachable.py:102-111 | pushing five labels into a window of four leaves the last four |
| `Smoothing.FiveLabelVote` | magpi/teachable.py:112 | over all of B, A, A, B, C the tie between B and A goes to B |
| `Smoothing.EvictedLabelDoesNotVote` | magpi/teachable.py:102-112 | pushing B, A, A, B, C into a window of four classifies as A, although B would win over all five: the evicted label no longer votes |
| `Debounce.Poll` | magpi/teachable.py:46-55 | a released channel reports false and keeps its time; a pressed channel takes the poll time as its time; a press is reported if and only if the channel is pressed, was not reporting a press, and strictly more than 0.1 s passed since its time |
| `Debounce.NoPulseTwiceInARow` | magpi/teachable.py:46-55 | no channel reports a press on two consecutive polls |
| `Debounce.HeldButtonPulsesOnce` | magpi/teachable.py:46-55 | a button held through polls at most 0.1 s apart is reported at most once, on the first of those polls |
| `Debounce.RepressWithinIntervalSuppressed` | magpi/teachable.py:46-55 | a release does not restart the interval: a re-press no more than 0.1 s after the channel was last seen pressed is not reported, whatever releases came between |
| `Debounce.SlowPollsRefireHeldButton` | magpi/teachable.py:46-55 | a button held at polls 0.2 s apart reports a press, no press, a press |
| `HardwareUI.UI.constructor` | magpi/teachable.py:30-34 | one debounce entry per button, every button unreported and last changed at construction time |
| `HardwareUI.UI.SetOnlyLED` | magpi/teachable.py:36-38 | afterwards LED `k` is on and every other LED off; with no index every LED is off |
| `HardwareUI.UI.GetDebouncedButtonState` | magpi/teachable.py:43-56 | every channel is polled once at the same time with its raw level, and the reported values are returned; array lengths never change |
| `Embedding.EmbeddingEngine.constructor` | magpi/teachable.py:100 | a new engine holds no examples |
| `Embedding.EmbeddingEngine.DetectWithImage` | magpi/teachable.py:110 | the embedding is the model's feature vector of the frame |
| `Embedding.EmbeddingEngine.KnnEmbedding` | magpi/teachable.py:111 | the nearest-neighbour label is none or the label of a stored example |
| `Embedding.EmbeddingEngine.Clear` | magpi/teachable.py:118 | afterwards no example is stored |
| `Embedding.EmbeddingEngine.AddEmbedding` | magpi/teachable.py:119 | one example is appended and the others are kept |
| `Embedding.EmbeddingEngine.ExampleCount` | magpi/teachable.py:133 | the number of stored examples |
| `Teachable.CountPressed` | magpi/teachable.py:122 | the number of pressed entries, never more than the number of entries |
| `Teachable.Shutdown` | magpi/teachable.py:122 | the shutdown test: exactly four class buttons (after index 0) pressed and button 0 not; when it holds, button 0 is released and the board has at least five buttons |
| `Teachable.ApplyButtons` | magpi/teachable.py:116-119 | the button loop over channels `0 .. n-1` in index order: a pressed button 0 empties the example set, a pressed button `i > 0` appends `(emb, i)`; it adds at most one example per channel, and when button 0 is pressed none of the old examples survive, so fewer than `n` remain |
| `Teachable.ShutdownIffAllClassButtons` | magpi/teachable.py:122 | on the five-button board, the shutdown test holds if and only if buttons 1-4 are pressed and button 0 is not |
| `Teachable.ButtonActions` | magpi/teachable.py:116-119 | after the button loop the old examples survive unless button 0 was pressed; after them comes one example of the frame's embedding per pressed class button, in increasing button order, none under label 0 |
| `Teachable.ShutdownFrameAddsEveryClass` | magpi/teachable.py:116-124 | a frame that shuts down has already added the frame's embedding under labels 1, 2, 3 and 4, after the old examples |
| `Teachable.Fps` | magpi/teachable.py:127 | with timestamps in clock order the rate is positive and at most 1000 per timestamp, because the 0.001 keeps the denominator positive |
| `Teachable.ClassName` | magpi/teachable.py:131-134 | the status name is one of the five names, and it is `--` exactly for no label or label 0 |
| `Teachable.TeachableMachine.constructor` | magpi/teachable.py:99-106 | a fresh engine, empty label and frame-time windows, no clean shutdown yet |
| `Teachable.TeachableMachine.PushNearestLabel` | magpi/teachable.py:110-111 | the frame's nearest-neighbour label, taken before any button acts, is appended to the label window |
| `Teachable.TeachableMachine.Vote` | magpi/teachable.py:112 | the classification is `MostCommon` of the window and names one of the five LEDs |
| `Teachable.TeachableMachine.ApplyButtonPresses` | magpi/teachable.py:116-119 | the example set becomes `ApplyButtons` of the pressed buttons, in index order |
| `Teachable.TeachableMachine.ShowClassification` | magpi/teachable.py:126-134 | the frame time is appended to the 40-entry window, only the classification's LED is lit, and the status carries the rate, the example count and the class name |
| `Teachable.TeachableMachine.FinishFrame` | magpi/teachable.py:121-144 | after the buttons: it stops and sets the clean-shutdown flag exactly when the shutdown test holds, leaving the frame-time window and the LEDs untouched; otherwise the frame time is appended, only the classification's LED is lit and the status is returned |
| `Teachable.TeachableMachine.Classify` | magpi/teachable.py:108-144 | label pushed first, then buttons polled, then examples cleared or added; it returns true and sets the clean-shutdown flag exactly when the shutdown test holds, and then the frame-time window, the LEDs and the status are untouched; otherwise it returns false after updating them; both windows stay within capacity |

## Left out

- The GStreamer pipeline (`magpi/gstreamer.py`) and the GPIO test scripts (`magpi/gpiotest_input.py`, `magpi/gpiotest_output.py`): I/O plumbing and endless hardware loops.
- `UI_Raspberry`: pin numbers, GPIO setup, raw reads and the active-low LED output. Buttons are an input sequence and LEDs an array of logical on/off values. The LED level left by GPIO setup at start-up is not modelled.
- `detectPlatform`, `main`, argument parsing, `wiggleLEDs`, `testButtons`: file reads, sleeps, endless loops and the process exit code.
- The internals of the embedding engine (loading the model file, the `k` of the nearest-neighbour vote): `DetectWithImage` and `kNNEmbedding` are opaque functions. The one thing assumed of `kNNEmbedding` is that it answers no label or a label of a stored example.
- `time.time()`: clock readings are parameters. `Classify` requires the frame time to be no earlier than the last one recorded, as a monotonic clock gives; otherwise the rate's denominator could be zero.
- Floating point: times and the frame rate are exact reals, so float rounding in the debounce comparison and in the rate is not modelled.
- The printed status text, its `%.1f` formatting and the SVG overlay: the status is returned as a record of rate, example count and class name.
- `getDebouncedButtonState` returns its internal list itself; the model returns a copy. `classify` reads that list before anything else changes it, so nothing depends on the difference.
- A label window of length 0: the first vote over it would raise, so the machine's constructor requires a positive length.
- The unused fields `_kNN` and `_start_time`. The machine's constructor takes the engine's feature extractor and classifier in place of `model_path` and `kNN`.
- Boards other than the five-button, five-LED Raspberry Pi layout: the machine requires that layout, the only one the program supports. With more buttons, a learned label could index past the five class names and LEDs.
- `Smoothing.MostCommon`: its own contract only says the winner is in the window. The full voting rule is `Smoothing.MostCommonWins`, kept apart so that callers of `MostCommon` do not carry its quantifiers.
