/** Fixed-width C integers: the ranges as subset types, the wrap-around as functions. */
module MachineInts {

  const TWO_32: int := 0x1_0000_0000
  const TWO_63: int := 0x8000_0000_0000_0000
  const TWO_64: int := 0x1_0000_0000_0000_0000

  type u32 = x: int | 0 <= x < 0x1_0000_0000
  type u64 = x: int | 0 <= x < 0x1_0000_0000_0000_0000
  type s64 = x: int | -0x8000_0000_0000_0000 <= x < 0x8000_0000_0000_0000

  /** Conversion to an unsigned 32-bit integer. */
  function AsU32(x: int): u32 {
    x % 0x1_0000_0000
  }

  /** Conversion to an unsigned 64-bit integer. */
  function AsU64(x: int): u64 {
    x % 0x1_0000_0000_0000_0000
  }

  /** Conversion to a signed 64-bit integer, two's complement. */
  function AsS64(x: int): s64 {
    var m := x % 0x1_0000_0000_0000_0000;
    if m < 0x8000_0000_0000_0000 then m else m - 0x1_0000_0000_0000_0000
  }

  /** A multiple of 2^64 is invisible to both 64-bit conversions. */
  lemma WrapIgnoresMultiples(x: int, k: int)
    ensures AsU64(x + k * TWO_64) == AsU64(x)
    ensures AsS64(x + k * TWO_64) == AsS64(x)
  {
  }

  /** How many multiples of 2^64 the signed conversion takes away. */
  function Laps(x: int): (k: int)
    ensures x == AsS64(x) + k * TWO_64
  {
    (x - AsS64(x)) / TWO_64
  }

  /** One accumulation step `sum += count * duration` in wrapping signed arithmetic loses
      nothing that a single wrap of the unbounded sum would not lose. */
  lemma AccumulateWraps(sum: int, count: int, duration: int)
    ensures AsS64(AsS64(sum) + AsS64(count * AsS64(duration))) == AsS64(sum + count * duration)
  {
    var a, b := Laps(sum), Laps(duration);
    var p := count * AsS64(duration);
    var c := Laps(p);
    assert count * duration == p + count * b * TWO_64 by {
      assert duration == AsS64(duration) + b * TWO_64;
      assert count * (AsS64(duration) + b * TWO_64) == p + count * (b * TWO_64);
    }
    WrapIgnoresMultiples(sum + count * duration, -a - c - count * b);
    assert sum + count * duration + (-a - c - count * b) * TWO_64 == AsS64(sum) + AsS64(p);
  }

  /** The same for an unsigned accumulator. */
  lemma AddWraps(time: int, duration: int)
    ensures AsU64(AsU64(time) + duration) == AsU64(time + duration)
  {
  }

  /** Reading a wrapped signed sum as unsigned gives the unsigned wrap of the unbounded sum. */
  lemma SignedReadAsUnsigned(x: int)
    ensures AsU64(AsS64(x)) == AsU64(x)
  {
    WrapIgnoresMultiples(x, -Laps(x));
  }

  lemma InWord(x: int)
    requires 0 <= x < TWO_64
    ensures AsU64(x) == x
  {
  }

  lemma NoWrap(x: int)
    requires 0 <= x < TWO_63
    ensures AsS64(x) == AsU64(x) == x
  {
  }
}
