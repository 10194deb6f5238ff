/** PT_SYSTIME values: a FILETIME, the count of 100-nanosecond ticks since
    1 January 1601 (section 2.3.3 of [MS-DTYP]), turned into Unix
    milliseconds with unsigned 64-bit arithmetic and then into the int64
    nanosecond count time.Unix(0, ns) is given. */
module FileTime {
  import opened ByteOrder

  const TWO_64: nat := 0x1_0000_0000_0000_0000
  const TWO_63: nat := 0x8000_0000_0000_0000

  /** Ticks in a millisecond. */
  const TICKS_PER_MS: nat := 10000
  /** Milliseconds from 1601-01-01 to 1970-01-01. */
  const EPOCH_DELTA_MS: nat := 11644473600000
  /** Nanoseconds in a millisecond (time.Millisecond). */
  const NANOS_PER_MS: nat := 1000000

  /** Go's uint64 arithmetic: the result modulo 2^64. */
  function Uint64Wrap(x: int): (u: nat)
    ensures u < TWO_64
  {
    x % TWO_64
  }

  /** Go's conversion int64(u) of a uint64 u. */
  function Int64Of(u: nat): (v: int)
    requires u < TWO_64
    ensures -(TWO_63 as int) <= v < TWO_63
  {
    if u >= TWO_63 then u - TWO_64 else u
  }

  /** Go's int64 arithmetic: the result wrapped into the int64 range. */
  function Int64Wrap(x: int): (v: int)
    ensures -(TWO_63 as int) <= v < TWO_63
  {
    Int64Of(Uint64Wrap(x))
  }

  /** a /= 10000; a -= 11644473600000 on the uint64 a, read back as int64. */
  function UnixMillis(ticks: nat): int
    requires ticks < TWO_64
  {
    Int64Of(Uint64Wrap(ticks / TICKS_PER_MS - EPOCH_DELTA_MS))
  }

  /** int64(a) * int64(time.Millisecond): the nanosecond count handed to
      time.Unix, with int64 overflow. */
  function UnixNanos(ms: int): int {
    Int64Wrap(ms * NANOS_PER_MS)
  }

  /** The nanosecond count a FILETIME stored as 8 little-endian bytes gives. */
  function FileTimeNanos(b: seq<Byte>): int
    requires |b| == 8
  {
    assert Pow256(8) == TWO_64;
    UnixNanos(UnixMillis(LeUint(b)))
  }

  /** The unsigned wrap-around and the int64 reinterpretation cancel: the
      millisecond count is the exact signed difference, also for FILETIMEs
      before 1970. */
  lemma UnixMillisExact(ticks: nat)
    requires ticks < TWO_64
    ensures UnixMillis(ticks) == ticks / TICKS_PER_MS - EPOCH_DELTA_MS
  {
    var d := ticks / TICKS_PER_MS - EPOCH_DELTA_MS;
    assert -(EPOCH_DELTA_MS as int) <= d < TWO_63;
    if d < 0 {
      assert Uint64Wrap(d) == d + TWO_64;
    } else {
      assert Uint64Wrap(d) == d;
    }
  }

  /** The Unix epoch itself. */
  lemma EpochIsZero()
    ensures UnixMillis(116444736000000000) == 0
    ensures UnixNanos(0) == 0
  {
    UnixMillisExact(116444736000000000);
  }

  /** Milliseconds earlier or later stay in order. */
  lemma UnixMillisMonotone(t1: nat, t2: nat)
    requires t1 <= t2 < TWO_64
    ensures UnixMillis(t1) <= UnixMillis(t2)
  {
    UnixMillisExact(t1);
    UnixMillisExact(t2);
  }

  /** The nanosecond count is exact for every date time.Unix can represent
      with int64 nanoseconds (roughly the years 1678 to 2262). */
  lemma UnixNanosExact(ms: int)
    requires -9223372036854 <= ms <= 9223372036854
    ensures UnixNanos(ms) == ms * NANOS_PER_MS
  {
    var x := ms * NANOS_PER_MS;
    assert -(TWO_63 as int) <= x < TWO_63;
    if x < 0 {
      assert Uint64Wrap(x) == x + TWO_64;
    } else {
      assert Uint64Wrap(x) == x;
    }
  }

  /** The largest FILETIME, 0x7FFFFFFFFFFFFFFF (used for "never"), lies far
      beyond 2262: its millisecond count is exact but the int64 product
      wraps, so time.Unix is handed a different instant. */
  lemma LatestFileTimeWraps()
    ensures UnixMillis(0x7FFF_FFFF_FFFF_FFFF) == 910692730085477
    ensures UnixNanos(910692730085477) != 910692730085477 * NANOS_PER_MS
  {
    UnixMillisExact(0x7FFF_FFFF_FFFF_FFFF);
  }
}
