/** Go's fixed-width integers and `time.Duration` arithmetic, written out over `int`. */
module MachineInts {

  const MAX_INT64 := 0x7FFF_FFFF_FFFF_FFFF
  const MIN_INT64 := -0x8000_0000_0000_0000
  const TWO_TO_64 := 0x1_0000_0000_0000_0000

  const MAX_INT32 := 0x7FFF_FFFF
  const MIN_INT32 := -0x8000_0000
  const TWO_TO_32 := 0x1_0000_0000

  type int64 = x: int | MIN_INT64 <= x <= MAX_INT64
  type int32 = x: int | MIN_INT32 <= x <= MAX_INT32

  /** `Int64` is what the compiled program computes; `Ideal` is the same formula over unbounded integers. */
  datatype Arithmetic = Ideal | Int64

  /** The 64-bit two's complement value congruent to `x`. */
  function Wrap64(x: int): (w: int64) {
    (x - MIN_INT64) % TWO_TO_64 + MIN_INT64
  }

  function Wrap32(x: int): (w: int32) {
    (x - MIN_INT32) % TWO_TO_32 + MIN_INT32
  }

  function Fix(a: Arithmetic, x: int): (w: int)
    ensures MIN_INT64 <= x <= MAX_INT64 ==> w == x
  {
    if a.Ideal? then x else Wrap64(x)
  }

  /** `time.Time.Sub`: the difference, saturated at the ends of the 64-bit range. */
  function Sub(a: Arithmetic, to: int, from: int): (d: int)
    ensures MIN_INT64 <= to - from <= MAX_INT64 ==> d == to - from
    ensures a.Int64? ==> MIN_INT64 <= d <= MAX_INT64
  {
    if a.Ideal? || MIN_INT64 <= to - from <= MAX_INT64 then to - from
    else if to < from then MIN_INT64
    else MAX_INT64
  }

  /** Go's integer division truncates toward zero. */
  function TruncDiv(x: int, d: int): int
    requires d > 0
  {
    if x >= 0 then x / d else -(-x / d)
  }

  /** The extreme values, and what one step beyond them wraps to. */
  lemma Extremes()
    ensures MAX_INT64 == 9223372036854775807 && MIN_INT64 == -9223372036854775808
    ensures MAX_INT32 == 2147483647 && MIN_INT32 == -2147483648
    ensures Wrap64(MAX_INT64 + 1) == MIN_INT64 && Wrap64(MIN_INT64 - 1) == MAX_INT64
    ensures Wrap32(MAX_INT32 + 1) == MIN_INT32 && Wrap32(MIN_INT32 - 1) == MAX_INT32
  {
  }

  /** A difference that does not fit becomes the representable one nearest to it. */
  lemma SubIsNearest(to: int, from: int, e: int64)
    ensures Sub(Ideal, to, from) == to - from
    ensures var d, exact := Sub(Int64, to, from), to - from;
            if exact >= d then exact - d <= (if exact >= e then exact - e else e - exact)
            else d - exact <= (if exact >= e then exact - e else e - exact)
  {
  }

  lemma TruncDivIsOdd(x: int, d: int)
    requires d > 0
    ensures TruncDiv(-x, d) == -TruncDiv(x, d)
  {
  }

  /** Rounding is toward zero: the quotient is the largest whole number of `d`s in `x`. */
  lemma TruncDivBounds(x: int, d: int)
    requires d > 0 && x >= 0
    ensures TruncDiv(x, d) * d <= x < (TruncDiv(x, d) + 1) * d
  {
  }

  /** Only one quotient fits that description. */
  lemma QuotientIs(x: nat, d: nat, q: nat)
    requires d > 0 && q * d <= x < (q + 1) * d
    ensures TruncDiv(x, d) == q
  {
    var r := TruncDiv(x, d);
    TruncDivBounds(x, d);
    if r < q {
      TimesMonotone(r + 1, q, d);
    } else if q < r {
      TimesMonotone(q + 1, r, d);
    }
  }

  lemma TimesMonotone(x: int, y: int, d: nat)
    requires x <= y
    ensures x * d <= y * d
  {
  }

  /** Wrapping is characterised by congruence: it is the one 64-bit value that differs by a multiple of 2^64. */
  lemma Wrap64Spec(x: int) returns (k: int)
    ensures Wrap64(x) == x - k * TWO_TO_64
  {
    k := (x - MIN_INT64) / TWO_TO_64;
  }

  lemma Wrap64Unique(x: int, w: int64, k: int)
    requires w == x - k * TWO_TO_64
    ensures w == Wrap64(x)
  {
  }

  lemma WrapOfSmall(x: int)
    ensures MIN_INT64 <= x <= MAX_INT64 ==> Wrap64(x) == x
    ensures MIN_INT32 <= x <= MAX_INT32 ==> Wrap32(x) == x
  {
  }

  /** Wrapping after every addition or only once at the end gives the same value. */
  lemma Wrap64Add(x: int, y: int)
    ensures Wrap64(Wrap64(x) + y) == Wrap64(x + y)
  {
  }

  lemma Wrap32Add(x: int, y: int)
    ensures Wrap32(Wrap32(x) + y) == Wrap32(x + y)
  {
  }
}
