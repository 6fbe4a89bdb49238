/**
 * The RP2040 backend. A PWM slice counts rising edges of the input in a
 * free-running 16-bit hardware counter; every time that counter wraps, an
 * interrupt adds 2^16 to the software high part `sCount`. A sample combines
 * the two into a 32-bit extended count and publishes the distance from the
 * previous sample, `sLastCount`.
 *
 * Each handler is one atomic transition on `State`. The hardware counter and
 * the race between it and the wrap interrupt are not state here: a sample
 * receives the two values of `sCount` it may have read (`s1` before the
 * hardware counter, `s2` after it) and the 16-bit hardware value `part`.
 */
module FreqCountRP2 {
  import opened FixedWidth
  import Consumer
  import opened TimingSource

  /** What one wrap of the 16-bit hardware counter adds: `1L << 16`. */
  const WRAP_STEP: u32 := 0x1_0000

  /** Hardware values below this make a sample re-read `sCount`. */
  const REREAD_THRESHOLD: u16 := 100

  /** The driver's static fields, with the widths the header gives them. */
  datatype State = State(count: u32, lastCount: u32, out: Consumer.Output, triggerPin: u8)

  /** A sample's delta together with the state it leaves behind. */
  datatype Reading = Reading(advance: u32, next: State)

  /** The timer callback's return value (keep repeating?) and its effect. */
  datatype Tick = Tick(repeat: bool, next: State)

  /** What `read()` returns together with the state it leaves behind. */
  datatype Consumed = Consumed(value: u32, next: State)

  /** `end()`: which timing source it tears down, and the state it leaves. */
  datatype Stopped = Stopped(teardown: Teardown, next: State)

  /** `sCount` holds a whole number of hardware wraps. */
  predicate Aligned(count: u32)
  {
    count as int % WRAP_STEP as int == 0
  }

  /**
   * The static initialisers and the constructor: every counter is zero,
   * nothing is ready, and the trigger-pin field holds the timer sentinel.
   */
  function Initial(): (s: State)
    ensures Aligned(s.count)
    ensures !Available(s)
    ensures TeardownFor(s.triggerPin) == TeardownOf(InternalTimer)
  {
    State(0, 0, Consumer.Cleared, 0)
  }

  /** `_on_pwm_wrap`: winds `sCount` on by one hardware wrap, modulo 2^32. */
  function OnPwmWrap(s: State): (t: State)
    ensures Sub(t.count, s.count) == WRAP_STEP
    ensures t == s.(count := t.count)
    ensures Aligned(s.count) ==> Aligned(t.count)
  {
    s.(count := Add(s.count, WRAP_STEP))
  }

  /**
   * The snapshot of `sCount` a sample builds on: a hardware value this low
   * may have just rolled over, so the second read is used.
   */
  function Base(s1: u32, s2: u32, part: u16): u32
  {
    if part < REREAD_THRESHOLD then s2 else s1
  }

  /**
   * The extended count `this_count + part_count` of `_pwm_read`. Subtracting
   * the hardware part recovers the snapshot; when the snapshots are whole
   * wraps the hardware part is exactly the low half of the result.
   */
  function ExtendedCount(s1: u32, s2: u32, part: u16): (r: u32)
    ensures Sub(r, part as u32) == Base(s1, s2, part)
    ensures Aligned(s1) && Aligned(s2) ==>
              r as int % WRAP_STEP as int == part as int &&
              r as int - part as int == Base(s1, s2, part) as int
  {
    Add(Base(s1, s2, part), part as u32)
  }

  /**
   * `_pwm_read`: records the extended count as the new `sLastCount` and
   * returns how far it is from the old one. Nothing else changes.
   */
  function PwmRead(s: State, s1: u32, s2: u32, part: u16): (r: Reading)
    ensures r.next == s.(lastCount := ExtendedCount(s1, s2, part))
    ensures Add(s.lastCount, r.advance) == r.next.lastCount
  {
    var current := ExtendedCount(s1, s2, part);
    Reading(Sub(current, s.lastCount), s.(lastCount := current))
  }

  /** A sampling event: publishes the delta of `_pwm_read` and raises the flag. */
  function Sample(s: State, s1: u32, s2: u32, part: u16): (t: State)
    ensures Available(t)
    ensures Read(t).value == PwmRead(s, s1, s2, part).advance
    ensures Add(s.lastCount, Read(t).value) == t.lastCount == ExtendedCount(s1, s2, part)
    ensures t.count == s.count && t.triggerPin == s.triggerPin
  {
    var r := PwmRead(s, s1, s2, part);
    r.next.(out := Consumer.Publish(r.next.out, r.advance))
  }

  /** `_on_trigger`: the external trigger's edge takes a sample. */
  function OnTrigger(s: State, s1: u32, s2: u32, part: u16): (t: State)
    ensures Available(t)
    ensures Add(s.lastCount, Read(t).value) == t.lastCount == ExtendedCount(s1, s2, part)
    ensures t.count == s.count && t.triggerPin == s.triggerPin
  {
    Sample(s, s1, s2, part)
  }

  /** `_repeating_timer_callback`: takes a sample and asks to keep repeating. */
  function RepeatingTimerCallback(s: State, s1: u32, s2: u32, part: u16): (r: Tick)
    ensures r.repeat
    ensures Available(r.next)
    ensures Add(s.lastCount, Read(r.next).value) == r.next.lastCount == ExtendedCount(s1, s2, part)
    ensures r.next.count == s.count && r.next.triggerPin == s.triggerPin
  {
    Tick(true, Sample(s, s1, s2, part))
  }

  /** `available()` */
  function Available(s: State): bool
  {
    Consumer.Available(s.out)
  }

  /** `read()`: consumes the published delta; the counters are untouched. */
  function Read(s: State): (r: Consumed)
    ensures r.value == s.out.frequency
    ensures !Available(r.next)
    ensures r.next == s.(out := r.next.out) && r.next.out.frequency == s.out.frequency
  {
    var taken := Consumer.Read(s.out);
    Consumed(taken.value, s.(out := taken.next))
  }

  /**
   * `end()`: tears down the timer when the trigger-pin field holds the
   * sentinel 0 and the trigger interrupt otherwise; no counter is cleared.
   */
  function End(s: State): (r: Stopped)
    ensures r.next == s
    ensures r.teardown.CancelTimer? <==> s.triggerPin == 0
    ensures r.teardown.DetachTrigger? ==> r.teardown.pin == s.triggerPin
  {
    Stopped(TeardownFor(s.triggerPin), s)
  }

  // Configuration. `_setup_pwm_counter` programs only hardware: its one
  // assertion, that the input is a PWM channel B pin, is about wiring, and
  // its `pwm_init` restarts the 16-bit hardware counter from 0. As written,
  // the begin calls change nothing but the trigger-pin field; in particular
  // neither resets `sCount` or `sLastCount` to match the restarted counter.

  /** `beginTimer` as written: the trigger-pin field is left as it was. */
  function BeginTimerAsWritten(s: State): (t: State)
    ensures t == s
  {
    s
  }

  /** `beginExtTrig` as written: any pin, 0 included, is stored. */
  function BeginExtTrigAsWritten(s: State, trigPin: u8): (t: State)
    ensures t == s.(triggerPin := trigPin)
  {
    s.(triggerPin := trigPin)
  }

  /**
   * The counters as a restarted hardware counter needs them: no wraps
   * serviced and the previous sample at 0, as the per-edge backend's
   * `_begin` clears its counter.
   */
  function Restart(s: State): (t: State)
    ensures t.count == 0 && t.lastCount == 0 && Aligned(t.count)
    ensures t.out == s.out && t.triggerPin == s.triggerPin
  {
    s.(count := 0, lastCount := 0)
  }

  /**
   * Corrected `beginTimer`: stores the sentinel, as the per-edge backend's
   * `begin` does, and restarts the counters; the published value and the
   * ready flag are kept.
   */
  function BeginTimer(s: State): (t: State)
    ensures End(t).teardown == CancelTimer
    ensures t.count == 0 && t.lastCount == 0 && t.out == s.out
  {
    Restart(s).(triggerPin := EncodeMode(InternalTimer))
  }

  /**
   * Corrected `beginExtTrig`: refuses the sentinel pin, as the per-edge
   * backend's assertion does, and restarts the counters; the published value
   * and the ready flag are kept.
   */
  function BeginExtTrig(s: State, trigPin: u8): (r: Outcome<State>)
    ensures r.Ok? <==> trigPin > 0
    ensures r.Ok? ==> End(r.value).teardown == DetachTrigger(trigPin)
    ensures r.Ok? ==> r.value.count == 0 && r.value.lastCount == 0 && r.value.out == s.out
  {
    if trigPin > 0 then Ok(Restart(s).(triggerPin := EncodeMode(ExternalTrigger(trigPin)))) else Fatal
  }

  /** Either corrected begin call, chosen by the timing source asked for. */
  function Begin(s: State, m: Mode): Outcome<State>
  {
    match m
    case InternalTimer => Ok(BeginTimer(s))
    case ExternalTrigger(pin) => BeginExtTrig(s, pin)
  }

  /**
   * With the corrected begin calls, configuration succeeds exactly for the
   * valid timing sources, and then `end()` tears down the source that
   * `begin` armed, whatever state the driver was left in before.
   */
  lemma BeginThenEndTearsDownMode(s: State, m: Mode)
    ensures Begin(s, m).Ok? <==> ValidMode(m)
    ensures Begin(s, m).Ok? ==> End(Begin(s, m).value).teardown == TeardownOf(m)
  {
  }

  /**
   * As written, `beginTimer` after an earlier trigger session keeps the old
   * trigger pin, so the following `end()` detaches the trigger and never
   * cancels the repeating timer it armed.
   */
  lemma BeginTimerAsWrittenKeepsTriggerPin()
    ensures var first := End(BeginExtTrigAsWritten(Initial(), 3)).next;
            End(BeginTimerAsWritten(first)).teardown == DetachTrigger(3)
    ensures DetachTrigger(3) != TeardownOf(InternalTimer)
  {
  }

  /**
   * As written, `beginExtTrig` on GPIO 0 stores the sentinel, so `end()`
   * cancels a timer that was never armed and leaves the trigger enabled.
   */
  lemma BeginExtTrigAsWrittenMisreadsPinZero(s: State)
    ensures End(BeginExtTrigAsWritten(s, 0)).teardown == CancelTimer
    ensures CancelTimer != TeardownOf(ExternalTrigger(0))
  {
  }

  // Traces: the driver's interrupts and API calls in the order they happen.

  datatype Event =
    | PwmWrap
    | Trigger(s1: u32, s2: u32, part: u16)
    | TimerTick(s1: u32, s2: u32, part: u16)
    | ReadCall
    | AvailableCall

  /** Whether `e` is a sampling event, the only kind that writes `sLastCount`. */
  predicate Samples(e: Event)
  {
    e.Trigger? || e.TimerTick?
  }

  function Step(s: State, e: Event): State
  {
    match e
    case PwmWrap => OnPwmWrap(s)
    case Trigger(s1, s2, part) => OnTrigger(s, s1, s2, part)
    case TimerTick(s1, s2, part) => RepeatingTimerCallback(s, s1, s2, part).next
    case ReadCall => Read(s).next
    case AvailableCall => s
  }

  /** The state after the events `evs`, applied first to last. */
  function Run(s: State, evs: seq<Event>): State
    decreases |evs|
  {
    if |evs| == 0 then s else Step(Run(s, evs[..|evs| - 1]), evs[|evs| - 1])
  }

  /** The number of wrap interrupts in `evs`. */
  function Wraps(evs: seq<Event>): nat
    decreases |evs|
  {
    if |evs| == 0 then 0
    else Wraps(evs[..|evs| - 1]) + (if evs[|evs| - 1].PwmWrap? then 1 else 0)
  }

  /**
   * The wrap handler is the only writer of `sCount`: after any trace it has
   * advanced by 2^16 per wrap, modulo 2^32, and the trigger-pin field is
   * untouched. Without a sampling event, `sLastCount` is untouched too.
   */
  lemma {:induction false} RunCount(s: State, evs: seq<Event>)
    ensures Run(s, evs).count == Wrap(s.count as int + WRAP_STEP as int * Wraps(evs))
    ensures Run(s, evs).triggerPin == s.triggerPin
    ensures (forall i :: 0 <= i < |evs| ==> !Samples(evs[i])) ==> Run(s, evs).lastCount == s.lastCount
    decreases |evs|
  {
    if |evs| == 0 {
    } else {
      var init := evs[..|evs| - 1];
      RunCount(s, init);
      var before := Run(s, init);
      var x := s.count as int + WRAP_STEP as int * Wraps(init);
      if evs[|evs| - 1].PwmWrap? {
        WrapAdd(x, WRAP_STEP as int);
        assert Wrap(WRAP_STEP as int) == WRAP_STEP;
        assert x + WRAP_STEP as int == s.count as int + WRAP_STEP as int * Wraps(evs);
      }
    }
  }

  /** Starting from the initial zero, `sCount` is always a whole number of wraps. */
  lemma {:induction false} AlwaysAligned(evs: seq<Event>)
    ensures Aligned(Run(Initial(), evs).count)
    decreases |evs|
  {
    if |evs| > 0 {
      AlwaysAligned(evs[..|evs| - 1]);
    }
  }

  /**
   * When the snapshot the sample builds on reflects every wrap of `pulses`
   * and the hardware shows the rest, the extended count is `pulses` modulo
   * 2^32.
   */
  lemma ExtendedCountIsPulseCount(pulses: nat, s1: u32, s2: u32, part: u16)
    requires part as int == pulses % WRAP_STEP as int
    requires Base(s1, s2, part) == Wrap(pulses / WRAP_STEP as int * WRAP_STEP as int)
    ensures ExtendedCount(s1, s2, part) == Wrap(pulses)
  {
    var whole := pulses / WRAP_STEP as int * WRAP_STEP as int;
    assert pulses == whole + part as int;
    WrapAdd(whole, part as int);
  }

  /**
   * The near-wrap race: the hardware counter has just completed its
   * `wraps`-th wrap and shows a value below the threshold, while `sCount` was
   * first read without that wrap. The re-read, taken once the wrap interrupt
   * has run, gives the true count, where the first snapshot would have come
   * out 2^16 short.
   */
  lemma RereadRecoversPendingWrap(wraps: nat, s1: u32, s2: u32, part: u16)
    requires wraps >= 1 && part < REREAD_THRESHOLD
    requires s1 == Wrap((wraps - 1) * WRAP_STEP as int)
    requires s2 == Wrap(wraps * WRAP_STEP as int)
    ensures ExtendedCount(s1, s2, part) == Wrap(wraps * WRAP_STEP as int + part as int)
    ensures Add(s1, part as u32) == Wrap(wraps * WRAP_STEP as int + part as int - WRAP_STEP as int)
    ensures Add(s1, part as u32) != ExtendedCount(s1, s2, part)
  {
    var pulses := wraps * WRAP_STEP as int + part as int;
    WrapAdd(wraps * WRAP_STEP as int, part as int);
    WrapAdd((wraps - 1) * WRAP_STEP as int, part as int);
    SubMeasuresDistance(pulses - WRAP_STEP as int, pulses);
  }

  /**
   * Servicing the wraps of `pulses` edges from the initial state and then
   * sampling without a race yields `pulses` modulo 2^32: the software high
   * part and the hardware low part together lose no edge.
   */
  lemma AccumulationCountsPulses(pulses: nat, evs: seq<Event>)
    requires Wraps(evs) == pulses / WRAP_STEP as int
    ensures var c := Run(Initial(), evs).count;
            ExtendedCount(c, c, (pulses % WRAP_STEP as int) as u16) == Wrap(pulses)
  {
    RunCount(Initial(), evs);
    var c := Run(Initial(), evs).count;
    assert c == Wrap(pulses / WRAP_STEP as int * WRAP_STEP as int);
    ExtendedCountIsPulseCount(pulses, c, c, (pulses % WRAP_STEP as int) as u16);
  }

  /**
   * The delta is wrap-safe: if `sLastCount` holds the count at the previous
   * sample and fewer than 2^32 edges arrived since, the published delta is
   * exactly the number of edges, even across a wrap of the 32-bit count.
   */
  lemma SampleMeasuresInterval(s: State, earlier: nat, later: nat, s1: u32, s2: u32, part: u16)
    requires earlier <= later < earlier + MODULUS
    requires s.lastCount == Wrap(earlier)
    requires ExtendedCount(s1, s2, part) == Wrap(later)
    ensures PwmRead(s, s1, s2, part).advance as int == later - earlier
    ensures Read(Sample(s, s1, s2, part)).value as int == later - earlier
  {
    SubMeasuresDistance(earlier, later);
  }

  /**
   * As written, a second session misreads its first sample: from the
   * initial state one session services a wrap and samples at hardware value
   * 500; after `end()` and
   * `beginTimer` the hardware counter restarts from 0, and 100 edges later
   * the sample publishes 2^32 - 400 instead of 100, because `sCount` and
   * `sLastCount` still hold the old session's counts.
   */
  lemma RestartAsWrittenMisreadsFirstSample()
    ensures var session := RepeatingTimerCallback(OnPwmWrap(Initial()), 0x1_0000, 0x1_0000, 500).next;
            var restarted := BeginTimerAsWritten(End(session).next);
            PwmRead(restarted, 0x1_0000, 0x1_0000, 100).advance as int == MODULUS - 400
  {
    var wrapped := OnPwmWrap(Initial());
    assert wrapped.count == 0x1_0000;
    var session := RepeatingTimerCallback(wrapped, 0x1_0000, 0x1_0000, 500).next;
    assert ExtendedCount(0x1_0000, 0x1_0000, 500) == 0x1_0000 + 500;
    assert session.lastCount == 0x1_0000 + 500;
    assert ExtendedCount(0x1_0000, 0x1_0000, 100) == 0x1_0000 + 100;
  }

  /**
   * With the corrected begin calls, the first sample of every session counts
   * the edges since the hardware counter restarted: after the wraps of
   * `pulses` edges are serviced, with no sample in between, the published
   * delta is `pulses`, whatever state earlier sessions left behind.
   */
  lemma RestartedSampleMeasuresPulses(s: State, m: Mode, evs: seq<Event>, pulses: nat)
    requires Begin(s, m).Ok?
    requires pulses < MODULUS
    requires Wraps(evs) == pulses / WRAP_STEP as int
    requires forall i :: 0 <= i < |evs| ==> !Samples(evs[i])
    ensures var t := Run(Begin(s, m).value, evs);
            PwmRead(t, t.count, t.count, (pulses % WRAP_STEP as int) as u16).advance as int == pulses
  {
    var started := Begin(s, m).value;
    RunCount(started, evs);
    var t := Run(started, evs);
    var part := (pulses % WRAP_STEP as int) as u16;
    ExtendedCountIsPulseCount(pulses, t.count, t.count, part);
    SampleMeasuresInterval(t, 0, pulses, t.count, t.count, part);
  }
}
