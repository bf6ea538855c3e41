/**
 * `ProtobufExtensions`: day and second arithmetic on a protobuf `Timestamp`.
 * Both work on a clone, so the argument is never changed; a `Timestamp`
 * here is a value. `Seconds` is a C# `long` and the additions are
 * unchecked, so they wrap around modulo 2^64.
 */
module Timestamps {

  const TwoTo63: int := 0x8000_0000_0000_0000
  const TwoTo64: int := 0x1_0000_0000_0000_0000

  /** A C# `long`. */
  newtype Int64 = x: int | -TwoTo63 <= x < TwoTo63

  /** A C# `int`. */
  newtype Int32 = x: int | -0x8000_0000 <= x < 0x8000_0000

  /** Unchecked conversion of an integer to a `long`: two's-complement wrap-around. */
  function Wrap(x: int): (r: Int64)
    ensures (r as int - x) % TwoTo64 == 0
  {
    ((x + TwoTo63) % TwoTo64 - TwoTo63) as Int64
  }

  /** A value that fits is kept. */
  lemma WrapFits(x: int)
    requires -TwoTo63 <= x < TwoTo63
    ensures Wrap(x) as int == x
  {
  }

  /** Wrapping an operand first changes nothing: wrap-around addition is addition modulo 2^64. */
  lemma WrapAdd(a: int, b: int)
    ensures Wrap(Wrap(a) as int + b) == Wrap(a + b)
  {
    var w := Wrap(a) as int;
    var k := (w - a) / TwoTo64;
    assert w == a + k * TwoTo64;
    assert (w + b + TwoTo63) % TwoTo64 == (a + b + TwoTo63 + k * TwoTo64) % TwoTo64;
    ModShift(a + b + TwoTo63, k);
  }

  /** Adding a multiple of 2^64 leaves the remainder modulo 2^64 unchanged. */
  lemma ModShift(x: int, k: int)
    ensures (x + k * TwoTo64) % TwoTo64 == x % TwoTo64
  {
    var q, r := x / TwoTo64, x % TwoTo64;
    assert x == q * TwoTo64 + r && 0 <= r < TwoTo64;
    assert x + k * TwoTo64 == (q + k) * TwoTo64 + r;
  }

  const SecondsInDay: Int64 := 86400

  /** The `seconds` and `nanos` fields of `google.protobuf.Timestamp`. */
  datatype Timestamp = Timestamp(seconds: Int64, nanos: Int32)

  /** `AddDays`: the clone's seconds advanced by `days * SecondsInDay`, both operations unchecked. */
  function AddDays(t: Timestamp, days: Int64): (r: Timestamp)
    ensures r.nanos == t.nanos
    ensures r.seconds == Wrap(t.seconds as int + days as int * SecondsInDay as int)
  {
    WrapAdd(days as int * SecondsInDay as int, t.seconds as int);
    t.(seconds := Wrap(t.seconds as int + Wrap(days as int * SecondsInDay as int) as int))
  }

  /** `AddSeconds`: the clone's seconds advanced by `seconds`, unchecked. */
  function AddSeconds(t: Timestamp, seconds: Int64): (r: Timestamp)
    ensures r.nanos == t.nanos
    ensures r.seconds == Wrap(t.seconds as int + seconds as int)
  {
    t.(seconds := Wrap(t.seconds as int + seconds as int))
  }

  /** Without overflow, `AddDays` adds exactly `days * 86400` seconds and `AddSeconds` exactly `seconds`. */
  lemma AddExact(t: Timestamp, days: Int64, seconds: Int64)
    requires -TwoTo63 <= t.seconds as int + days as int * 86400 < TwoTo63
    requires -TwoTo63 <= t.seconds as int + seconds as int < TwoTo63
    ensures AddDays(t, days).seconds as int == t.seconds as int + days as int * 86400
    ensures AddSeconds(t, seconds).seconds as int == t.seconds as int + seconds as int
  {
    WrapFits(t.seconds as int + days as int * 86400);
    WrapFits(t.seconds as int + seconds as int);
  }

  /** `AddDays(t, d)` is `AddSeconds(t, d * 86400)` with the product taken as a `long`, overflow included. */
  lemma AddDaysIsAddSeconds(t: Timestamp, days: Int64)
    ensures AddDays(t, days) == AddSeconds(t, Wrap(days as int * 86400))
  {
    var p := days as int * 86400;
    WrapAdd(p, t.seconds as int);
    assert Wrap(p) as int + t.seconds as int == t.seconds as int + Wrap(p) as int;
  }

  /** Whole days added in two steps are added once, when the days themselves do not overflow. */
  lemma AddDaysTwice(t: Timestamp, a: Int64, b: Int64)
    requires -TwoTo63 <= a as int + b as int < TwoTo63
    ensures AddDays(AddDays(t, a), b) == AddDays(t, (a as int + b as int) as Int64)
  {
    var x := t.seconds as int + a as int * 86400;
    WrapAdd(x, b as int * 86400);
    assert Wrap(x) as int + b as int * 86400 == Wrap(x) as int + b as int * 86400;
    assert x + b as int * 86400 == t.seconds as int + (a as int + b as int) * 86400;
  }
}
