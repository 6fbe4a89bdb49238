/**
 * The ESP32 backend without a hardware pulse counter: every rising edge of
 * the input raises an interrupt that counts it, and the timing event (the
 * internal alarm or the external trigger, both wired to the same handler)
 * publishes the count gathered since the previous event and starts again
 * from zero.
 *
 * The handlers run inside a critical section in the driver; here each one is
 * a single atomic transition on `State`.
 */
module FreqCountESP {
  import opened FixedWidth
  import Consumer
  import opened TimingSource

  /**
   * The static counters and the instance's trigger-pin field (0 while the
   * internal timer paces the samples).
   */
  datatype State = State(count: u32, out: Consumer.Output, triggerPin: u8)

  /** What a begin call leaves, and whether it enabled the internal alarm. */
  datatype Started = Started(next: State, timerAlarmEnabled: bool)

  /** What `read()` returns together with the state it leaves behind. */
  datatype Consumed = Consumed(value: u32, next: State)

  /** `end()`: which timing source it tears down, and the state it leaves. */
  datatype Stopped = Stopped(teardown: Teardown, next: State)

  /** `onRise`: one more edge, modulo 2^32; nothing else changes. */
  function OnRise(s: State): (t: State)
    ensures Sub(t.count, s.count) == 1
    ensures t == s.(count := t.count)
  {
    s.(count := Add(s.count, 1))
  }

  /**
   * `onTimer`: publishes the edges counted so far, raises the ready flag and
   * starts counting again from zero.
   */
  function OnTimer(s: State): (t: State)
    ensures Available(t) && Read(t).value == s.count
    ensures t.count == 0 && t.triggerPin == s.triggerPin
  {
    s.(count := 0, out := Consumer.Publish(s.out, s.count))
  }

  /** `available()` */
  function Available(s: State): bool
  {
    Consumer.Available(s.out)
  }

  /** `read()`: consumes the published count; the edge counter is untouched. */
  function Read(s: State): (r: Consumed)
    ensures r.value == s.out.frequency
    ensures !Available(r.next)
    ensures r.next == s.(out := r.next.out) && r.next.out.frequency == s.out.frequency
  {
    var taken := Consumer.Read(s.out);
    Consumed(taken.value, s.(out := taken.next))
  }

  /**
   * `_begin`: clears the counter, the published value and the ready flag,
   * and enables the internal alarm exactly when the trigger-pin field says
   * the timer is the timing source.
   */
  function BeginCommon(s: State): (r: Started)
    ensures r.next.count == 0 && !Available(r.next) && Read(r.next).value == 0
    ensures r.next.triggerPin == s.triggerPin
    ensures r.timerAlarmEnabled <==> End(r.next).teardown == CancelTimer
  {
    Started(s.(count := 0, out := Consumer.Cleared), s.triggerPin == 0)
  }

  /** `begin`: selects the internal timer, then resets through `_begin`. */
  function Begin(s: State): (r: Started)
    ensures r.timerAlarmEnabled
    ensures End(r.next).teardown == CancelTimer
    ensures r.next.count == 0 && !Available(r.next) && Read(r.next).value == 0
  {
    BeginCommon(s.(triggerPin := EncodeMode(InternalTimer)))
  }

  /**
   * `beginExtTrig`: stops on its assertion for the sentinel pin 0; otherwise
   * stores the trigger pin and resets through `_begin`, which then leaves
   * the internal alarm off.
   */
  function BeginExtTrig(s: State, extTriggerPin: u8): (r: Outcome<Started>)
    ensures r.Ok? <==> extTriggerPin > 0
    ensures r.Ok? ==> !r.value.timerAlarmEnabled
    ensures r.Ok? ==> End(r.value.next).teardown == DetachTrigger(extTriggerPin)
    ensures r.Ok? ==> r.value.next.count == 0 && !Available(r.value.next)
    ensures r.Ok? ==> Read(r.value.next).value == 0
  {
    if extTriggerPin > 0 then Ok(BeginCommon(s.(triggerPin := EncodeMode(ExternalTrigger(extTriggerPin)))))
    else Fatal
  }

  /**
   * `end()`: tears down the alarm when the trigger-pin field is 0 and the
   * trigger interrupt otherwise; the counter, the published value and the
   * ready flag keep their last values.
   */
  function End(s: State): (r: Stopped)
    ensures r.next == s
    ensures r.teardown.CancelTimer? <==> s.triggerPin == 0
    ensures r.teardown.DetachTrigger? ==> r.teardown.pin == s.triggerPin
  {
    Stopped(TeardownFor(s.triggerPin), s)
  }

  /** Either begin call, chosen by the timing source asked for. */
  function Configure(s: State, m: Mode): Outcome<Started>
  {
    match m
    case InternalTimer => Ok(Begin(s))
    case ExternalTrigger(pin) => BeginExtTrig(s, pin)
  }

  /**
   * Configuration succeeds exactly for the valid timing sources; the alarm
   * is enabled exactly in timer mode, and `end()` tears down the source that
   * was armed.
   */
  lemma ConfigureThenEndTearsDownMode(s: State, m: Mode)
    ensures Configure(s, m).Ok? <==> ValidMode(m)
    ensures Configure(s, m).Ok? ==>
              (Configure(s, m).value.timerAlarmEnabled <==> m == InternalTimer)
    ensures Configure(s, m).Ok? ==> End(Configure(s, m).value.next).teardown == TeardownOf(m)
  {
  }

  // Traces: edges, timing events and reads in the order they happen.

  datatype Event = Rise | Timer | ReadCall

  function Step(s: State, e: Event): State
  {
    match e
    case Rise => OnRise(s)
    case Timer => OnTimer(s)
    case ReadCall => Read(s).next
  }

  /** The state after the events `evs`, applied first to last. */
  function Run(s: State, evs: seq<Event>): State
    decreases |evs|
  {
    if |evs| == 0 then s else Step(Run(s, evs[..|evs| - 1]), evs[|evs| - 1])
  }

  /** The number of edges in `evs`. */
  function Rises(evs: seq<Event>): nat
    decreases |evs|
  {
    if |evs| == 0 then 0
    else Rises(evs[..|evs| - 1]) + (if evs[|evs| - 1].Rise? then 1 else 0)
  }

  /** The position just after the last timing event of `evs`, or 0 if none. */
  function SinceLastTimer(evs: seq<Event>): (k: nat)
    ensures k <= |evs|
    ensures k > 0 ==> evs[k - 1].Timer?
    ensures forall i :: k <= i < |evs| ==> !evs[i].Timer?
    decreases |evs|
  {
    if |evs| == 0 then 0
    else if evs[|evs| - 1].Timer? then |evs|
    else SinceLastTimer(evs[..|evs| - 1])
  }

  /**
   * After any trace, the counter holds the edges since the last timing event
   * (added to the starting count when there was none), modulo 2^32, and the
   * trigger-pin field is untouched.
   */
  lemma {:induction false} RunCount(s: State, evs: seq<Event>)
    ensures var k := SinceLastTimer(evs);
            Run(s, evs).count == Wrap((if k == 0 then s.count as int else 0) + Rises(evs[k..]))
    ensures Run(s, evs).triggerPin == s.triggerPin
    decreases |evs|
  {
    if |evs| > 0 {
      var init := evs[..|evs| - 1];
      var e := evs[|evs| - 1];
      RunCount(s, init);
      if !e.Timer? {
        var k := SinceLastTimer(evs);
        assert k == SinceLastTimer(init);
        assert evs[k..][..|evs[k..]| - 1] == init[k..];
        var x := (if k == 0 then s.count as int else 0) + Rises(init[k..]);
        if e.Rise? {
          WrapAdd(x, 1);
        }
      }
    }
  }

  /**
   * A timing event publishes the edges counted since the previous one (or
   * since the start of the trace) and raises the ready flag.
   */
  lemma TimerPublishesPendingRises(s: State, evs: seq<Event>)
    ensures var k := SinceLastTimer(evs);
            var t := Run(s, evs + [Timer]);
            Available(t) && t.count == 0 &&
            Read(t).value == Wrap((if k == 0 then s.count as int else 0) + Rises(evs[k..]))
  {
    RunCount(s, evs);
    assert (evs + [Timer])[..|evs|] == evs;
  }

  /**
   * After a successful `begin` or `beginExtTrig`, N edges followed by a
   * timing event publish N modulo 2^32, whatever reads are interleaved.
   */
  lemma ConfigureThenRisesPublish(s: State, m: Mode, evs: seq<Event>)
    requires Configure(s, m).Ok?
    requires forall i :: 0 <= i < |evs| ==> !evs[i].Timer?
    ensures Read(Run(Configure(s, m).value.next, evs + [Timer])).value == Wrap(Rises(evs))
  {
    var start := Configure(s, m).value.next;
    assert start.count == 0;
    TimerPublishesPendingRises(start, evs);
    assert SinceLastTimer(evs) == 0;
    assert evs[0..] == evs;
    assert Wrap(0 + Rises(evs)) == Wrap(Rises(evs));
  }
}
