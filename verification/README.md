# FreqCountRP2 pulse counter, modelled in Dafny

The FreqCountRP2 driver measures a digital signal's frequency. It counts the
signal's rising edges over an interval. The interval ends either at a periodic
internal timer or at an edge on an external trigger pin. The driver has two
backends:

- **RP2040** (`src/FreqCountRP2.cpp`). A PWM slice counts the edges in a
  free-running 16-bit hardware counter. A wrap interrupt adds 2^16 to the
  software high part `sCount`. A sample (`_pwm_read`) combines the two into a
  32-bit extended count. It then publishes the distance from the previous
  sample, `sLastCount`, using unsigned subtraction.
- **ESP32 per-edge counting** (`src/FreqCountESP.cpp`, lines 106-206). Each
  edge interrupt increments `sCount`. The timing handler publishes `sCount`
  and zeroes it.

Both backends expose the same consumer protocol:
- `available()` reports whether an unread result exists.
- `read()` lowers the ready flag and returns the published value.

Both encode the timing source in one `uint8_t` trigger-pin field. The value 0
means the internal timer. `end()` decodes that field to decide what to tear
down.

The model is functional. Every handler or API call is a pure transition on an
immutable state record with `uint32_t` fields. These fields are written as the
newtype `u32`, and wrap-around is written out with `Wrap`, `Add` and `Sub`.
The modules are:

- `FixedWidth` (`fixed_width.dfy`): fixed-width integers and 32-bit modular
  arithmetic.
- `Consumer` (`consumer.dfy`): the published value, the ready flag, `read`
  and `available`.
- `TimingSource` (`timing_source.dfy`): the trigger-pin encoding of the timing
  source and the branch `end()` takes.
- `FreqCountRP2` (`freq_count_rp2.dfy`): the RP2040 backend.
- `FreqCountESP` (`freq_count_esp.dfy`): the per-edge backend.

There is a race between the 16-bit hardware counter and the wrap interrupt.
It is modelled as the two values of `sCount` that a sample may read, `s1` and
`s2`, together with the 16-bit hardware value `part`. Each interrupt handler
is one atomic transition.

`Available` in each backend has no contract of its own. It is a pure read of
the flag, and its behaviour is stated by `Consumer.PublishThenRead` and
`Consumer.StaleReadRepeats`.

The two backends configure differently:

- The RP2040 `beginTimer` and `beginExtTrig` never reset `sCount`,
  `sLastCount`, `sFrequency` or the ready flag. Only the per-edge backend's
  `_begin` clears its state (see Findings).
- Only the per-edge backend asserts that the trigger pin is not 0. The
  RP2040 `beginExtTrig` accepts 0 (see Findings).

## Model

| member | source | states |
|---|---|---|
| FixedWidth.Wrap | src/FreqCountRP2.cpp:29-30 | storing an integer into a `uint32_t` keeps it when it fits and otherwise changes it by a whole multiple of 2^32 |
| FixedWidth.Add | src/FreqCountRP2.cpp:29 | `uint32_t` addition is the true sum, minus 2^32 exactly when the sum carries out of bit 31 |
| FixedWidth.Sub | src/FreqCountRP2.cpp:30 | `uint32_t` subtraction is the true difference, plus 2^32 exactly when it borrows |
| FixedWidth.AddThenSub | src/FreqCountRP2.cpp:29-31 | subtracting `a` from `a + d` gives back `d` for every `a` and `d`, across wrap |
| FixedWidth.SubThenAdd | src/FreqCountRP2.cpp:29-31 | `b + (a - b)` is `a` again for every pair |
| FixedWidth.WrapAdd | src/FreqCountRP2.cpp:29 | wrapping commutes with addition: only the operands' residues modulo 2^32 matter |
| FixedWidth.SubMeasuresDistance | src/FreqCountRP2.cpp:30 | unsigned subtraction of two wrapped counts is their true distance whenever that distance is below 2^32, even if the later count wrapped |
| FixedWidth.SubWrapExample | src/FreqCountRP2.cpp:30 | from 0xFFFFFFF0 to 0x5 the delta is 21 |
| Consumer.Publish | src/FreqCountRP2.cpp:36-37 | after a sample is published the flag is up and `read` returns that sample |
| Consumer.Read | src/FreqCountRP2.cpp:97-100 | `read` lowers the flag and returns the published value, which stays in place |
| Consumer.StaleReadRepeats | src/FreqCountRP2.cpp:97-100 | two reads with no sample between them return the same value, and the second changes nothing |
| Consumer.PublishThenRead | src/FreqCountRP2.cpp:93-100 | Idle/Ready protocol: after a sample `available` is true and `read` returns it; after that read `available` is false |
| TimingSource.TeardownFor | src/FreqCountRP2.cpp:119-125 | `end` cancels the timer exactly when the trigger-pin field is 0; otherwise it detaches that pin |
| TimingSource.TeardownMatchesMode | src/FreqCountESP.cpp:169-174 | storing a mode in the trigger-pin field and decoding it at `end` gives back that mode's teardown if and only if the mode avoids pin 0 |
| FreqCountRP2.Initial | src/FreqCountRP2.cpp:8-13 | the static initial state holds whole wraps, nothing ready, and timer mode for `end` |
| FreqCountRP2.OnPwmWrap | src/FreqCountRP2.cpp:15-20 | the wrap handler advances `sCount` by exactly 65536 modulo 2^32, keeps it a whole number of wraps, and changes no other field |
| FreqCountRP2.ExtendedCount | src/FreqCountRP2.cpp:22-29 | taking the hardware part off the extended count gives back the chosen snapshot (the second when `part < 100`, else the first); with whole-wrap snapshots the low 16 bits are exactly the hardware value |
| FreqCountRP2.PwmRead | src/FreqCountRP2.cpp:22-33 | `_pwm_read` only changes `sLastCount`, which becomes the extended count, and old `sLastCount` plus the returned advance is the new `sLastCount` modulo 2^32 |
| FreqCountRP2.Sample | src/FreqCountRP2.cpp:35-37 | a sampling event raises the flag and publishes the `_pwm_read` advance, which carries `sLastCount` to the extended count; `sCount` and the trigger pin are untouched |
| FreqCountRP2.OnTrigger | src/FreqCountRP2.cpp:35-39 | the trigger handler raises the flag and publishes an advance that carries `sLastCount` to the extended count; `sCount` and the trigger pin are untouched |
| FreqCountRP2.RepeatingTimerCallback | src/FreqCountRP2.cpp:79-83 | the timer callback publishes the same way and always asks to keep repeating |
| FreqCountRP2.Read | src/FreqCountRP2.cpp:97-100 | `read` returns `sFrequency`, lowers the flag and changes nothing else |
| FreqCountRP2.End | src/FreqCountRP2.cpp:112-126 | `end` tears down the timer if and only if `sTriggerPin == 0`, otherwise that trigger pin, and clears no counter |
| FreqCountRP2.BeginTimerAsWritten | src/FreqCountRP2.cpp:85-91 | as written, `beginTimer` leaves every modelled field, the trigger pin included, as it was |
| FreqCountRP2.BeginExtTrigAsWritten | src/FreqCountRP2.cpp:65-68 | as written, `beginExtTrig` stores any trigger pin, 0 included, and touches nothing else |
| FreqCountRP2.Restart | src/FreqCountRP2.cpp:52 | corrected counter reset for a restarted hardware counter: `sCount` and `sLastCount` become 0 and a whole number of wraps; the published value, the flag and the trigger pin are kept |
| FreqCountRP2.BeginTimer | src/FreqCountRP2.cpp:85-91 | corrected `beginTimer`: the following `end` cancels the timer, `sCount` and `sLastCount` restart at 0, and the published value and flag are kept |
| FreqCountRP2.BeginExtTrig | src/FreqCountRP2.cpp:65-77 | corrected `beginExtTrig`: it succeeds if and only if the pin is not 0; then `end` detaches that pin, `sCount` and `sLastCount` restart at 0, and the published value and flag are kept |
| FreqCountRP2.BeginThenEndTearsDownMode | src/FreqCountRP2.cpp:102-125 | with the corrected begin calls, configuration succeeds exactly for valid modes, and then `end` tears down the armed source from any prior state |
| FreqCountRP2.BeginTimerAsWrittenKeepsTriggerPin | src/FreqCountRP2.cpp:85-91 | counterexample: `beginExtTrig(3)`, `end`, `beginTimer` makes the next `end` detach pin 3 instead of cancelling the timer |
| FreqCountRP2.BeginExtTrigAsWrittenMisreadsPinZero | src/FreqCountRP2.cpp:65-68 | counterexample: `beginExtTrig` on pin 0 makes `end` cancel a timer instead of detaching the trigger |
| FreqCountRP2.RunCount | src/FreqCountRP2.cpp:15-20 | over any trace, `sCount` advances by 65536 per wrap interrupt modulo 2^32, so only the wrap handler writes it; a trace without sampling events leaves `sLastCount` unchanged |
| FreqCountRP2.AlwaysAligned | src/FreqCountRP2.cpp:10-19 | from the static initial 0, `sCount` stays a multiple of 65536 after every trace |
| FreqCountRP2.ExtendedCountIsPulseCount | src/FreqCountRP2.cpp:22-29 | if the chosen snapshot holds every wrap and the hardware shows the rest, the extended count is the edge count modulo 2^32 |
| FreqCountRP2.RereadRecoversPendingWrap | src/FreqCountRP2.cpp:25-28 | near a wrap (`part < 100`, first snapshot missing the latest wrap, second including it) the re-read gives the true count, and the first snapshot would have been 65536 short |
| FreqCountRP2.AccumulationCountsPulses | src/FreqCountRP2.cpp:15-29 | servicing the wraps of N edges from the initial state and sampling without a race gives N modulo 2^32 |
| FreqCountRP2.SampleMeasuresInterval | src/FreqCountRP2.cpp:29-31 | if fewer than 2^32 edges arrived since the last sample, the published delta is exactly that number, even across a 32-bit wrap |
| FreqCountRP2.RestartAsWrittenMisreadsFirstSample | src/FreqCountRP2.cpp:85-91 | counterexample: after one session (a wrap, then a sample at hardware value 500), `end`, `beginTimer` and 100 edges on the restarted counter, the first sample publishes 2^32 - 400 instead of 100 |
| FreqCountRP2.RestartedSampleMeasuresPulses | src/FreqCountRP2.cpp:22-33 | with the corrected begin calls, the first sample of a session publishes exactly the edges since the hardware counter restarted (below 2^32), whatever earlier sessions left |
| FreqCountESP.OnRise | src/FreqCountESP.cpp:118-123 | `onRise` advances `sCount` by exactly 1 modulo 2^32 and changes nothing else |
| FreqCountESP.OnTimer | src/FreqCountESP.cpp:106-113 | `onTimer` publishes the previous `sCount`, raises the flag and zeroes `sCount` |
| FreqCountESP.Read | src/FreqCountESP.cpp:181-185 | `read` returns `sFrequency`, lowers the flag and changes nothing else |
| FreqCountESP.BeginCommon | src/FreqCountESP.cpp:135-155 | `_begin` clears the counter, the published value and the flag; it enables the alarm exactly when `end` would cancel the timer |
| FreqCountESP.Begin | src/FreqCountESP.cpp:157-167 | `begin` selects timer mode: the alarm is enabled, `end` cancels the timer, and the counter, published value and flag are cleared |
| FreqCountESP.BeginExtTrig | src/FreqCountESP.cpp:169-179 | `beginExtTrig` stops if and only if the pin is 0; otherwise the alarm stays off, `end` detaches that pin, and the counter, published value and flag are cleared |
| FreqCountESP.End | src/FreqCountESP.cpp:192-206 | `end` tears down the alarm if and only if `mTriggerPin == 0`, otherwise the trigger, and leaves the counter, published value and flag unchanged |
| FreqCountESP.ConfigureThenEndTearsDownMode | src/FreqCountESP.cpp:151-174 | configuration succeeds exactly for valid modes; the alarm is enabled exactly in timer mode, and `end` tears down the armed source |
| FreqCountESP.SinceLastTimer | src/FreqCountESP.cpp:106-113 | finds the position just after the last timing event of a trace: no timing event occurs at or after it |
| FreqCountESP.RunCount | src/FreqCountESP.cpp:106-123 | over any trace, `sCount` is the number of edges since the last timing event (or since the start) modulo 2^32 |
| FreqCountESP.TimerPublishesPendingRises | src/FreqCountESP.cpp:106-113 | a timing event publishes the edges since the previous one, raises the flag and zeroes the counter |
| FreqCountESP.ConfigureThenRisesPublish | src/FreqCountESP.cpp:135-155 | after a successful begin, N edges then a timing event publish N modulo 2^32, with any reads interleaved |

## Findings

| source | as written | input that shows it | evidently intended | confidence | as-written member | corrected member |
|---|---|---|---|---|---|---|
| src/FreqCountRP2.cpp:85-91 | `beginTimer` never writes `sTriggerPin`, so a value stored by an earlier `beginExtTrig` survives | `beginExtTrig(p, 3)`, `end()`, `beginTimer(p, ms)`, `end()`: the second `end` detaches pin 3 and never cancels the repeating timer | `beginTimer` stores the timer sentinel 0, as `begin` in src/FreqCountESP.cpp:161 does | high (not executed) | FreqCountRP2.BeginTimerAsWrittenKeepsTriggerPin | FreqCountRP2.BeginTimer |
| src/FreqCountRP2.cpp:65-68 | `beginExtTrig` stores any trigger pin, including GPIO 0, which is also the timer sentinel | `beginExtTrig(p, 0)`, `end()`: `end` cancels a timer that was never armed and leaves the trigger interrupt enabled | reject pin 0, as the assertion in src/FreqCountESP.cpp:173 does | medium (not executed) | FreqCountRP2.BeginExtTrigAsWrittenMisreadsPinZero | FreqCountRP2.BeginExtTrig |
| src/FreqCountRP2.cpp:41-54 | neither begin call resets `sCount` or `sLastCount`, although `pwm_init` (line 52) restarts the 16-bit hardware counter from 0 | a session that serviced one wrap and sampled at 500; then `end()`, `beginTimer(p, ms)` and 100 edges: the first sample publishes 2^32 - 400 | each begin resets `sCount` and `sLastCount` to 0, as `_begin` in src/FreqCountESP.cpp:140 clears its counter | medium (not executed; relies on the SDK's `pwm_init` resetting the counter) | FreqCountRP2.RestartAsWrittenMisreadsFirstSample | FreqCountRP2.RestartedSampleMeasuresPulses |

## Left out

- Vendor SDK and Arduino calls are hardware plumbing and are not modelled. These are `pwm_*`, `irq_*`, `gpio_*`, `add_repeating_timer_ms`, `cancel_repeating_timer`, `timerBegin`, `timerAlarm*`, `attachInterrupt`, `detachInterrupt` and `pinMode`. `end` is modelled only by which timing source it tears down. Teardown that is common to both modes, such as stopping the PWM slice or detaching the input pin, is left out.
- `_setup_pwm_counter` (src/FreqCountRP2.cpp:41-63) configures only hardware. Its assertion that the input is a PWM channel B pin is a wiring precondition on a pin property that is not modelled.
- The hardware counter's own value is not state. A sample receives it as `part`. Its restart by the PWM setup appears only in the third finding and in the corrected begin calls.
- Interrupt concurrency, interrupt latency and the `portENTER_CRITICAL_ISR` critical sections are not modelled. Each handler is atomic.
- The wrap race appears only as the free choice of the two `sCount` snapshots. The model does not claim that the threshold of 100 always suffices. `RereadRecoversPendingWrap` assumes that the wrap interrupt has run before the re-read.
- Lines 1-100 of src/FreqCountESP.cpp are a non-compiling copy of the RP2040 backend and are not modelled.
- The `USE_PCNT` pulse-counter path (`setupPcnt`, `teardownPcnt`) is not part of this model. The same goes for the header declarations, which are used only for field widths.
- Timer period and prescaler conversions (src/FreqCountRP2.cpp:90, src/FreqCountESP.cpp:162-164) are left out because the model has no time.
- The pin fields `mPin` and `sSliceNum` select hardware only and are not modelled.
- The destructors call `end` and are not modelled separately.
- The ready flag is a `uint8_t` in the driver but a `bool` in the model, because the driver only ever stores `true` or `false` into it.
