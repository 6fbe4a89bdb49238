/**
 * Which interrupt source paces the sampling. Both backends record the choice
 * in a single `uint8_t` trigger-pin field: 0 means the internal periodic
 * timer, any other value is the external trigger pin. `end()` decodes the
 * field again to pick what to tear down.
 */
module TimingSource {
  import opened FixedWidth

  /** The timing source a `begin` call asks for. */
  datatype Mode = InternalTimer | ExternalTrigger(pin: u8)

  /** The source-specific half of `end()`. */
  datatype Teardown = CancelTimer | DetachTrigger(pin: u8)

  /** A configuration call either returns, or stops on a failed `assert`. */
  datatype Outcome<T> = Ok(value: T) | Fatal

  /** The value a `begin` call stores in the trigger-pin field. */
  function EncodeMode(m: Mode): u8
  {
    match m
    case InternalTimer => 0
    case ExternalTrigger(pin) => pin
  }

  /** What tearing down the source `m` means. */
  function TeardownOf(m: Mode): Teardown
  {
    match m
    case InternalTimer => CancelTimer
    case ExternalTrigger(pin) => DetachTrigger(pin)
  }

  /** The branch `end()` takes on the stored trigger-pin field. */
  function TeardownFor(triggerPin: u8): (t: Teardown)
    ensures t.CancelTimer? <==> triggerPin == 0
    ensures t.DetachTrigger? ==> t.pin == triggerPin
  {
    if triggerPin == 0 then CancelTimer else DetachTrigger(triggerPin)
  }

  /** Pin 0 is the "no trigger" sentinel, so it cannot name a trigger. */
  predicate ValidMode(m: Mode)
  {
    m.ExternalTrigger? ==> m.pin > 0
  }

  /**
   * `end()` tears down exactly the source that was armed if and only if the
   * mode avoids the sentinel: an external trigger on pin 0 is misread as
   * the internal timer.
   */
  lemma TeardownMatchesMode(m: Mode)
    ensures TeardownFor(EncodeMode(m)) == TeardownOf(m) <==> ValidMode(m)
  {
  }
}
