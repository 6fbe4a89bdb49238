/**
 * The consumer side shared by both backends: the most recently published
 * pulse count (`sFrequency`) and the flag that says it has not been read yet
 * (`sIsFrequencyReady`). Interrupt handlers publish; `read` consumes;
 * `available` only looks.
 *
 * The flag is a `uint8_t` in the driver, but only `true` and `false` are ever
 * stored into it, so it is a `bool` here.
 */
module Consumer {
  import opened FixedWidth

  datatype Output = Output(frequency: u32, isFrequencyReady: bool)

  /** What a reset leaves behind: nothing published, nothing to read. */
  const Cleared: Output := Output(0, false)

  /** The value `read` hands back together with the output it leaves behind. */
  datatype Taken = Taken(value: u32, next: Output)

  /** A sampling event publishes `value` and raises the ready flag. */
  function Publish(o: Output, value: u32): (r: Output)
    ensures Available(r)
    ensures Read(r).value == value
  {
    Output(value, true)
  }

  /** `available()`: reports whether an unread result exists. */
  function Available(o: Output): bool
  {
    o.isFrequencyReady
  }

  /**
   * `read()`: lowers the ready flag and returns the published value; the
   * value itself stays in place, so a stale read repeats it.
   */
  function Read(o: Output): (r: Taken)
    ensures !Available(r.next)
    ensures r.next.frequency == o.frequency == r.value
  {
    Taken(o.frequency, o.(isFrequencyReady := false))
  }

  /**
   * Two reads with no sample in between return the same value, and the
   * second read changes nothing: once consumed, the output is a fixed point.
   */
  lemma StaleReadRepeats(o: Output)
    ensures Read(Read(o).next).value == Read(o).value
    ensures Read(Read(o).next).next == Read(o).next
    ensures !Available(Read(o).next)
  {
  }

  /**
   * The Idle/Ready protocol: right after a sample `available()` is true and
   * `read()` returns the sample; right after that read `available()` is false.
   */
  lemma PublishThenRead(o: Output, value: u32)
    ensures Available(Publish(o, value))
    ensures Read(Publish(o, value)).value == value
    ensures !Available(Read(Publish(o, value)).next)
  {
  }
}
