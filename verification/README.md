# Stopwatch widget: a verified model

This project models the logic inside the single React component
`src/Stopwatch.jsx`. The component is a stopwatch with start/pause, lap and reset
buttons. It shows a circular progress ring, an `MM:SS` readout and a list of lap
times. Two pieces of logic sit under the JSX, and both are modelled:

- **The timekeeper state machine.** The state is `seconds`, `isRunning`,
  `intervalId` and `laps`. Four transitions act on it: `toggleTimer`, the
  one-second interval callback, `recordLap` and `resetTimer`. The host's
  `setInterval`/`clearInterval` facility is made explicit as a registry. The
  registry holds the set of live interval ids and a counter for the next fresh
  id. The proofs can therefore see any leaked or duplicate repeating tick. Each
  event handler is one atomic step over the current state, as the single-threaded
  UI event loop runs it.
- **The presenter.** `formatTime` (whole minutes and remaining seconds, each
  `String(n).padStart(2, "0")`), the uncapped `progressPercentage`, the
  start/pause caption, and the lap-list text with its empty-list placeholder.

Files, one module each:

- `optional.dfy`: `Option`, which stands for JavaScript `null` and for parser
  failure.
- `digits.dfy`: `String(n)` for naturals (`Decimal`), `padStart` (`PadStart`),
  a digit-string parser (`Parse`), and `IndexOf`.
- `timers.dfy`: the host interval registry (`SetInterval`, `ClearInterval`).
- `stopwatch.dfy`: the state, the four transitions, event sequences (`Run`), the
  interval invariant and the lemmas about it.
- `clock.dfy`: `FormatTime` with its parser `ParseTime`, and
  `ProgressPercentage`.
- `view.dfy`: the caption, the lap-list items, and `Render`. It also holds a
  decoder for the lap list that proves no lap is lost in the text.

The invariant `Stopwatch.Inv` says three things. The stopwatch is running exactly
when it remembers an interval id. The live interval set is exactly that id, or
empty. Every live id is below the registry's next id.

## Model

| member | source | states |
|---|---|---|
| Stopwatch.Init | src/Stopwatch.jsx:4-7 | The first render shows 0 seconds, paused, a null interval id, no laps and no live interval. |
| Stopwatch.ToggleTimer | src/Stopwatch.jsx:12-23 | Toggling flips `isRunning` and keeps seconds and laps. Pausing removes the remembered id from the live set and sets the id to null. Starting takes the registry's next id, which no live interval uses, adds it to the live set, remembers it, and advances the next id past it. |
| Stopwatch.ToggleKeepsOneInterval | src/Stopwatch.jsx:12-23 | From a consistent state, starting leaves exactly the remembered interval live and pausing leaves none. |
| Timers.SetInterval | src/Stopwatch.jsx:17-20 | `setInterval` adds exactly the returned id to the live set, and that id was not already live. Ids are handed out in increasing order from a counter. |
| Timers.ClearInterval | src/Stopwatch.jsx:14 | `clearInterval` removes the given id from the live set. It is a no-op for `null` or an id that is not live. |
| Timers.SetThenClear | src/Stopwatch.jsx:14-20 | Clearing the interval just created restores the previous live set. |
| Stopwatch.Tick | src/Stopwatch.jsx:17-19 | One firing of interval `id` adds 1 to `seconds` iff that interval is live, and changes no other field. A firing of an interval that is not live changes nothing. Partner: `TickUnderInv`. |
| Stopwatch.Step | src/Stopwatch.jsx:71-87 | The three buttons run `toggleTimer`, `recordLap` and `resetTimer`, and a firing runs the interval callback. No handler moves the registry's next id backwards. Since each start takes an id at or above the next id and advances the counter past it (`ToggleTimer`), no start reuses an earlier start's id. Partner: `StepPreservesInv`. |
| Stopwatch.Run | src/Stopwatch.jsx:12-37 | Handling events one at a time in order. The next id never decreases along a run. Partners: `RunAppend`, `RunPreservesInv`. |
| Stopwatch.RunPreservesInv | src/Stopwatch.jsx:12-37 | Every sequence of clicks and timer firings preserves the interval invariant. |
| Stopwatch.ReachableInv | src/Stopwatch.jsx:4-32 | Every state reachable from the first render satisfies the invariant: at most one live interval, and running iff one is live. |
| Stopwatch.TickUnderInv | src/Stopwatch.jsx:17-19 | A firing adds exactly 1 to `seconds` iff it is the running stopwatch's own interval. Otherwise it changes nothing. It never touches `isRunning`, `intervalId`, laps or timers. |
| Stopwatch.TicksWhileRunning | src/Stopwatch.jsx:17-19 | While running, N firings of the stopwatch's interval add exactly N seconds and change nothing else. |
| Stopwatch.TicksWhilePaused | src/Stopwatch.jsx:13-15 | While paused, any sequence of timer firings, whatever the ids, leaves the state unchanged. |
| Stopwatch.ToggleAlternates | src/Stopwatch.jsx:22 | After N start/pause clicks from the first render, the stopwatch is running iff N is odd, and the invariant holds. |
| Stopwatch.RecordLap | src/Stopwatch.jsx:35-37 | A lap appends the current seconds at the end, whether running or not. Earlier laps, seconds, the running flag, the interval id and the timers stay unchanged. |
| Stopwatch.LapCount | src/Stopwatch.jsx:26-37 | The lap list holds one entry per lap click since the last reset click. |
| Stopwatch.ReachableLapsOrdered | src/Stopwatch.jsx:17-37 | In every reachable state, the laps are in non-decreasing order and none exceeds the current seconds. |
| Stopwatch.ResetTimer | src/Stopwatch.jsx:26-32 | Reset gives 0 seconds, paused, a null id and no laps. It clears the remembered interval. From a consistent state, no interval is left live and the invariant holds. |
| Stopwatch.ResetIdempotent | src/Stopwatch.jsx:26-32 | Resetting twice gives the same state as resetting once. |
| Stopwatch.EndToEndScenario | src/Stopwatch.jsx:12-37 | Start, 5 ticks, lap gives laps [5]. 3 more ticks and pause give 8 seconds. Another lap gives [5, 8]. Reset gives 0 seconds, no laps, paused, and no live interval. |
| Digits.Decimal | src/Stopwatch.jsx:46 | `String(n)` is a non-empty digit string with no leading zero that parses back to `n`. |
| Digits.DecimalLength | src/Stopwatch.jsx:46 | `String(n)` has at most k digits iff n < 10^k. |
| Digits.PadStart | src/Stopwatch.jsx:46 | `padStart` gives length max(len, width), so it never truncates. |
| Digits.PadStartShape | src/Stopwatch.jsx:46 | The padded text is a run of fill characters followed by the original text, unchanged. |
| Digits.ZeroPadPreservesValue | src/Stopwatch.jsx:46 | Zero padding does not change the number a numeral reads as. |
| Clock.Field | src/Stopwatch.jsx:46 | A padded field is at least 2 digits and parses back to its number. It is exactly 2 digits iff the number is below 100. |
| Clock.FormatTime | src/Stopwatch.jsx:43-47 | The readout has at least 5 characters. Partner: the parser `ParseTime`, through `FormatTimeRoundTrip` and `FormatTimeInjective`. |
| Clock.FormatTimeShape | src/Stopwatch.jsx:43-47 | The readout has a colon third from the end. The digits before it read as `floor(sec/60)` and the two digits after it read as `sec % 60`. Its length is 5 iff sec < 6000. |
| Clock.FormatTimeRoundTrip | src/Stopwatch.jsx:43-47 | Parsing the readout gives minutes m and seconds s with s < 60 and m*60 + s == sec. |
| Clock.FormatTimeInjective | src/Stopwatch.jsx:43-47 | Two elapsed times give the same readout iff they are equal. |
| Clock.FormatTimeDigits | src/Stopwatch.jsx:43-47 | Below 6000 seconds the readout is exactly tens and units of the minutes, a colon, then tens and units of the seconds. |
| Clock.FormatTimeWide | src/Stopwatch.jsx:43-47 | From 6000 seconds on, the minutes field is the plain, untruncated numeral and the readout is longer than 5 characters. |
| Clock.FormatTimeExamples | src/Stopwatch.jsx:43-47 | 0, 59, 60 and 600 seconds read "00:00", "00:59", "01:00" and "10:00". |
| Clock.FormatTimeHundredMinutes | src/Stopwatch.jsx:43-47 | 6000 seconds reads "100:00": padding never truncates. |
| Clock.ProgressPercentage | src/Stopwatch.jsx:40 | The percentage times 60 equals seconds times 100 exactly. It is non-negative, and it is at most 100 iff seconds ≤ 60. |
| Clock.ProgressUncapped | src/Stopwatch.jsx:40 | Each further 60 seconds adds exactly 100 percent, with no cap and no wrap. 30 gives 50 and 90 gives 150. |
| View.ButtonLabel | src/Stopwatch.jsx:78 | The caption is "Pause" iff running and "Start" iff paused. |
| View.LapEntry | src/Stopwatch.jsx:108 | The item text `Lap {index+1}: {formatTime(lap)}`. Partner: the item parser `ParseLapEntry`, through `LapEntryRoundTrip`. |
| View.Entries | src/Stopwatch.jsx:101-110 | `laps.map`: exactly one item per lap. |
| View.EntriesAt | src/Stopwatch.jsx:101-110 | Item `i` is the text for lap `i`, numbered `i + 1`, for every `i`. |
| View.LapEntries | src/Stopwatch.jsx:98-110 | An empty lap list shows the placeholder item alone; otherwise there is one item per lap. Partner: `DecodeLapList`, through `LapListRoundTrip`. |
| View.Render | src/Stopwatch.jsx:57-110 | On every render the readout reads back as the state's minutes and seconds, the ring's percentage times 60 is seconds times 100, the caption is "Pause" iff running, and the lap list reads back as exactly the recorded laps. |
| View.ToggleFlipsLabel | src/Stopwatch.jsx:71-78 | Every start/pause click changes the caption. |
| View.LapEntryRoundTrip | src/Stopwatch.jsx:108 | The item `Lap {index+1}: {formatTime(lap)}` reads back as the on-screen number index+1 and the lap's seconds. |
| View.PlaceholderIsNotALap | src/Stopwatch.jsx:98-99 | The placeholder "No laps recorded yet" never reads as a lap item. |
| View.LapListRoundTrip | src/Stopwatch.jsx:98-110 | Reading the rendered list back gives exactly the recorded laps, in order. The placeholder-only list reads as no laps. |
| View.LapListInjective | src/Stopwatch.jsx:98-110 | Two lap lists render the same items iff they are equal. |
| View.RecordLapAppendsEntry | src/Stopwatch.jsx:98-110 | After a lap, the list gains one item at the end for the new lap. It replaces the placeholder if it was the first lap, and earlier items stay unchanged. |
| View.RenderAfterReset | src/Stopwatch.jsx:57-110 | After reset the screen shows "00:00", a 0 percent ring, "Start" and only the placeholder, whatever was shown before. |

## Left out

- Layout and styling: Tailwind classes, the conic-gradient CSS string, transitions, and the alternating row colours (`index % 2`). These are presentational only.
- React mechanics: `useState` batching, re-render scheduling and stale closures. Each handler is modelled as one atomic step over the current state.
- The 1000 ms period of the interval. Real time is not modelled: a tick is an event that can occur while its interval is live.
- Clock.ProgressPercentage: computed over exact reals. The IEEE-754 rounding of the JavaScript division and multiplication is not modelled.
- Digits.Decimal, Stopwatch.Tick, Stopwatch.TicksWhileRunning: modelled over unbounded naturals. `prev + 1` stops growing at 2^53 in JavaScript, so "exactly N more seconds" holds only below that bound. JavaScript numbers lose integer precision above 2^53, and `String(n)` switches to exponent notation from 10^21. Neither is modelled.
- Cleanup on unmount: the component registers no effect and no cleanup, so an interval running at unmount is never cleared. The model makes no disposal guarantee, because the code makes none.
- The registry holds only this widget's intervals, and ids start at 1 as browsers hand them out. Other timers on the page are not modelled.
- The React `key` attribute of the list items has no observable text and is not modelled.
