# PiServe pour logic in Dafny

A model of the pour-classification core of PiServe. PiServe runs on a Raspberry Pi
and counts the clicks of a pulse flow meter on a beer tap. A polling loop watches
the meter. After a period without clicks it closes the current pour: it is a large
pour, which counts, or a small pour, which does not. The handler is told either way,
and the meter's pour is then reset. While a pour is running the loop reports
progress every 500 ms. While nothing is poured it refreshes the idle screen every
`idle_interval`.

The model has these parts:

- `Meter` (`meter.dfy`): the flow meter driver. The driver's source is not part of
  this model. Its fields are modelled, and the bodies of its operations are
  *assumptions*, not verified behaviour:
  - `update(now)` sets `lastClick := now` and adds the click's volume. That volume
    is a parameter here.
  - `reset_pour(counts)` sets `thisPour := 0` and adds one to `pours` when
    `counts` holds. `thisPour == 0` after a reset matches the direct reset in
    `flow_tester.py`. The `pours` increment is what the idle screen's pour count
    implies.
  - A new meter starts with nothing poured, capture enabled and `lastClick` at the
    start time.
- `Serve` (`serve.dfy`): the `PiServe` class and one pass of its `run` loop.
  - `Tick(now)` follows the source's fixed-priority `if`/`elif` chain.
  - It is proved against the pure `Decide` and `Step`, and against the handler
    log `Notices`.
  - `Run` and `History` replay a sequence of clicks and passes for the lemmas
    about many passes.
  - The display handler is represented by the log `shown` of the calls it
    receives, together with the meter values each call displays. The log is
    written only when a handler is present, as in `if self.handler`.
- `Pulse` (`ledpulse.dfy`): `LedPulse`, a cursor that cycles through six bar-graph
  rows.
- `Display` (`display.dfy`): the column arithmetic of `DotHandler.write_centered`
  and `DotHandler.write_right`, and the text of `pours_message`.
  - Python's `int((16 - len) / 2)` truncates toward zero. It is modelled
    explicitly as `TruncatedHalf`, because Dafny's `/` is Euclidean. For a
    17-character message the column is 0, not -1.
- `Tester` (`tester.dfy`): the earlier loop of `flow_tester.py`. It has two
  independent `if`s, hard-coded thresholds (0.23, 10 s and 2 s), and writes
  `thisPour = 0.0` directly. `AgreesWithPiServe` proves that with the same
  thresholds it zeroes the same pours as `PiServe`.

Times are integer milliseconds and are passed in as `now`. Volumes are `real`,
because they are only compared.

Three facts about the code shape the model:

- The progress interval is the class constant 500 ms, not a configured value.
- No code in `piserve.py` or `flow_tester.py` rejects a click whose timestamp does not advance.
- Closing a pour calls only `reset_pour`; no lifetime total is touched by the pour logic.

## Model

| member | source | states |
|---|---|---|
| `Serve.HasPoured` | piserve.py:98-99 | For a non-negative volume, "has poured" holds iff `thisPour` is not zero. |
| `Serve.IsLargePour` | piserve.py:101-105 | Strictly above the minimum; with a non-negative minimum a large pour is always a pour. |
| `Serve.IsSmallPour` | piserve.py:107-111 | At most the minimum, which is exactly "not large". |
| `Serve.TimePassedGreaterThan` | piserve.py:127-128 | Strictly more than `max_delta` ms have passed, first true at `last_time + max_delta + 1`. |
| `Serve.InactiveFor` | piserve.py:119-125 | No click for strictly more than `t*1000` ms; with `t >= 0` this implies the clock is past the last click. |
| `Serve.Decide` | piserve.py:130-147 | Large pour fires iff something is poured, the pour exceeds the minimum and there has been no click for more than `large_pour_inactivity` s. Small pour fires iff something is poured, the pour is at most the minimum and there has been no click for more than `small_pour_inactivity` s. Progress fires iff something is poured, neither closing condition holds and more than 500 ms have passed since the last progress report. Idle fires iff nothing is poured and more than the idle interval has passed. At most one fires. |
| `Serve.LargeSmallComplementary` | piserve.py:101-111 | Every pour volume is exactly one of large and small. |
| `Serve.AtThresholdNothingCloses` | piserve.py:119-128 | Inactivity is strict: at exactly `t*1000` ms since the last click, the matching pour does not close. |
| `Serve.StepBookkeeping` | piserve.py:51-96 | A closing pass zeroes the pour, counts it only if large, and leaves both report clocks. Progress sets only `last_progress := now`. Idle sets only `last_idle := now`. No pass changes `lastClick` or `enabled`. |
| `Serve.RunCountsLargePours` | piserve.py:51-73 | Over any sequence of clicks and passes, `pours` grows by exactly the number of large pours fired. |
| `Serve.RunKeepsPourNonNegative` | piserve.py:41-73 | If the pour starts non-negative and clicks add non-negative volumes, the pour stays non-negative. |
| `Serve.TicksNeverCloseEmpty` | piserve.py:134-147 | With nothing poured, passes without clicks never close a pour and leave the meter unchanged. |
| `Serve.TicksCloseAtMostOnce` | piserve.py:134-147 | Passes without clicks in between close a pour at most once. They never change `lastClick`, and the pour ends as it was or at 0. |
| `Serve.PiServe.constructor` | piserve.py:22-39 | Setup creates a fresh meter with nothing poured, sets `last_progress` and `last_idle` to the start time, and performs one idle trigger. |
| `Serve.PiServe.TriggerClick` | piserve.py:41-47 | The meter is updated only while `enabled`; otherwise it is unchanged. |
| `Serve.PiServe.TriggerLargePour` | piserve.py:51-61 | The handler is shown the pre-reset pour, then the pour is reset as counting. Both report clocks are unchanged. |
| `Serve.PiServe.TriggerSmallPour` | piserve.py:63-73 | The handler is shown the pre-reset pour, then the pour is reset as not counting. Both report clocks are unchanged. |
| `Serve.PiServe.TriggerProgress` | piserve.py:75-82 | Sets `last_progress := now` and shows the current pour. Nothing else changes. |
| `Serve.PiServe.TriggerIdle` | piserve.py:84-90 | Sets `last_idle := now` and shows the pour count. Nothing else changes. |
| `Serve.PiServe.UpdateIdle` | piserve.py:92-96 | Sets `last_idle := now` and leaves `last_progress` and the handler log unchanged. |
| `Serve.PiServe.Tick` | piserve.py:130-147 | One pass fires the trigger `Decide` chooses and leaves the state `Step` gives. The handler log grows by that trigger's call. |
| `Pulse.PulsesAt` | piserve.py:163-174 | The k-th of n consecutive `next` calls from cursor `s` returns row `(s + k) % 6`. |
| `Pulse.PulsesPeriod` | piserve.py:153-174 | Six calls return all six rows, rotated to the start cursor, and bring the cursor back to where it began (period 6). |
| `Pulse.LedPulse.constructor` | piserve.py:163-164 | A new pulse starts at row 0. |
| `Pulse.LedPulse.Next` | piserve.py:166-171 | Returns `leds[iteration]`, advances the cursor with wrap-around at 6, and keeps `0 <= iteration < 6`. |
| `Pulse.LedPulse.Reset` | piserve.py:173-174 | Puts the cursor back at row 0. |
| `Pulse.SixAfterReset` | piserve.py:166-174 | After `reset`, six `next` calls return rows 0..5 in order and leave `iteration` at 0. |
| `Display.CenteredColumn` | piserve.py:290-292 | A message that fits is centred, with any odd spare column on the right. A longer one starts at or left of column 0, truncating toward zero. The column is non-negative iff the length is at most 17. |
| `Display.RightColumn` | piserve.py:294-296 | The column is never negative. A message shorter than 16 ends one column before the right edge. One of 15 or more starts at column 0. |
| `Display.Decimal` | piserve.py:284-285 | `str(pours)` is a non-empty string of digits; it starts with '0' only when it is exactly "0" for 0. |
| `Display.DecimalRoundTrip` | piserve.py:284-285 | Reading back the digits of `str(n)` gives `n`. |
| `Display.PoursMessage` | piserve.py:284-285 | The message is the pour count's digits followed by " serveringar"; those digits denote the count and carry no leading zero, so the message is `str(pours)` plus the suffix. |
| `Tester.Iteration` | flow_tester.py:35-46 | A pass changes only `thisPour`, and only to 0. It zeroes a pour over 0.23 after more than 10 s without clicks, and a pour of at most 0.23 after more than 2 s. Otherwise, and always within 2 s of a click, nothing changes. |
| `Tester.MessageThenReset` | flow_tester.py:39-46 | When the first `if` fires, the second fires on the zeroed pour in the same pass, and the pour ends at 0. |
| `Tester.IterationIdempotent` | flow_tester.py:39-46 | Two passes at the same time leave the same meter as one. |
| `Tester.TesterRunFrame` | flow_tester.py:35-46 | Any number of passes leave `lastClick`, `enabled` and `pours` untouched, and the pour as it was or 0. |
| `Tester.AgreesWithPiServe` | flow_tester.py:11-14 | With thresholds 0.23, 10 s and 2 s, one `PiServe` pass and one tester pass leave the same non-negative pour. |
| `Tester.DoAClick` | flow_tester.py:23-27 | The meter is updated only while `enabled`; otherwise it is unchanged. |
| `Tester.LoopIteration` | flow_tester.py:35-46 | One pass leaves the meter `Iteration` gives. It announces the pre-reset pour exactly when the first `if` fires. |
| `Meter.FlowMeter.constructor` | piserve.py:37 | Assumed: a new meter has nothing poured, capture enabled, `lastClick` at the start time and no pours. |
| `Meter.FlowMeter.Update` | piserve.py:46-47 | Assumed: records `now` as the last click and adds the click's volume. |
| `Meter.FlowMeter.ResetPour` | flow_tester.py:42 | Assumed: zeroes `thisPour`, adds one to `pours` when the pour counts, and leaves `lastClick` and `enabled`. |

## Left out

- GPIO setup, interrupt registration and `bouncetime`: hardware I/O. A click is the call `TriggerClick(now, poured)` or `DoAClick(fm, now, poured)`.
- Clock reads (`current_time`, `time.time`) and `time.sleep`: the time is the `now` parameter.
- The infinite `while True` loops: one pass is modelled, and `Run`/`TesterRun` replay a finite sequence.
- The interplay between the interrupt thread and the polling loop: this is concurrency. Clicks and passes are separate sequential operations interleaved by `Run`.
- `read_options` environment parsing: configuration I/O. The options are constructor parameters.
- `idle_interval * 1000` is a float product in the source. It is the integer `idleIntervalMs` here.
- Everything the `dothat` display library does: `lcd` and `backlight` calls, `reset_display`, `sweep`, `led_pulse`, `set_bargraph`, `write_msg`, and the `show_*` rendering. The handler's calls are recorded in `shown` with the values they display.
- `DotHandler.step`: it only drives the rendering.
- Float formatting: `centiliters`, `formatted_centiliters`, `formatted_total`, `total_message`, `poured_message`, `get_progress` and `backlight_progress`.
- The flow meter driver's internals: `update`'s volume and rate arithmetic, `getFormatted*`, `getBeverage`, and totals. The driver's source is not part of this model. Its operations are the assumed bodies in `Meter`.
- The prints in `flow_tester.py`: the announcement, which `LoopIteration` returns as the pour it would announce, and the `'.'` that `doAClick` prints on every click whether or not capture is enabled, which `DoAClick` does not represent.
