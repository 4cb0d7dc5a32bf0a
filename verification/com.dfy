/** The timeout arithmetic of `Communications::pop_query` (src/com.rs): the
    time left until the deadline, converted to whole milliseconds and handed
    to the socket as an `i32`. The sockets themselves are not modelled.

    Instants are nanosecond counts of a monotonic clock. */
module Com {

  const NanosPerSec: nat := 1_000_000_000
  const NanosPerMilli: nat := 1_000_000
  const MillisPerSec: nat := 1000

  /** `std::time::Duration`: whole seconds and the nanoseconds below one
      second (`subsec_nanos`). */
  datatype Duration = Duration(secs: nat, subsecNanos: nat)

  /** The length of a duration in nanoseconds. */
  function Nanos(d: Duration): nat
  {
    d.secs * NanosPerSec + d.subsecNanos
  }

  /** `deadline - now`: the duration between two instants, split into whole
      seconds and a sub-second part below one second. */
  function Until(deadline: nat, now: nat): (d: Duration)
    requires now <= deadline
    ensures d.subsecNanos < NanosPerSec
    ensures Nanos(d) == deadline - now
  {
    Duration((deadline - now) / NanosPerSec, (deadline - now) % NanosPerSec)
  }

  /** `as_secs() * 1000 + subsec_nanos() / 1_000_000`, integer division. */
  function Millis(d: Duration): nat
  {
    d.secs * MillisPerSec + d.subsecNanos / NanosPerMilli
  }

  /** For a duration whose sub-second part is below one second, that part
      contributes 0 to 999 milliseconds and the conversion rounds down: the
      milliseconds never exceed the duration and fall short of it by less
      than one millisecond. */
  lemma MillisRoundsDown(d: Duration)
    requires d.subsecNanos < NanosPerSec
    ensures d.subsecNanos / NanosPerMilli <= 999
    ensures Millis(d) * NanosPerMilli <= Nanos(d) < Millis(d) * NanosPerMilli + NanosPerMilli
    ensures Millis(d) == Nanos(d) / NanosPerMilli
  {
  }

  /** `x as i32` for a `u64` value: the low 32 bits read as two's complement. */
  function AsI32(x: nat): (r: int)
    ensures -0x8000_0000 <= r < 0x8000_0000
    ensures (x - r) % 0x1_0000_0000 == 0
    ensures x < 0x8000_0000 ==> r == x
  {
    var low := x % 0x1_0000_0000;
    if low < 0x8000_0000 then low else low - 0x1_0000_0000
  }

  /** The receive timeout `pop_query` sets: the time left until `deadline`
      in whole milliseconds, rounded down, when that fits in an `i32`
      (about 24.8 days); beyond that the cast wraps. There is no clamping
      at zero, so the deadline must not have passed. */
  function ReceiveTimeout(deadline: nat, now: nat): (t: int)
    requires now <= deadline
    ensures -0x8000_0000 <= t < 0x8000_0000
    ensures (deadline - now) / NanosPerMilli < 0x8000_0000 ==>
      && t == (deadline - now) / NanosPerMilli
      && t * NanosPerMilli <= deadline - now < t * NanosPerMilli + NanosPerMilli
  {
    var left := Until(deadline, now);
    MillisRoundsDown(left);
    AsI32(Millis(left))
  }
}
