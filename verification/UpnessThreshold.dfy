/** When a resource counts as up: all members ready, or unknown within a threshold. */
module UpnessThreshold {
  import opened MachineInts

  /** One observation of a resource. `attrs` stands for the descriptive labels, which no decision reads. */
  datatype Upness = Upness(
    readyCount: int32,
    expectedCount: int32,
    unknownCount: int32,
    expectedDown: bool,
    failed: bool,
    attrs: Attrs)

  datatype Attrs = NoAttrs | Attrs(name: string, owner: OwnerInfo)

  datatype OwnerInfo = OwnerInfo(kind: string, namespace: string, name: string)

  /** `math.RoundToEven`. */
  function RoundToEven(x: real): int {
    var f := x.Floor;
    if x - f as real < 0.5 || (x - f as real == 0.5 && f % 2 == 0) then f else f + 1
  }

  /** The unknown thresholds the manager accepts at start-up. */
  predicate ValidThreshold(threshold: real) {
    0.0 <= threshold <= 1.0
  }

  function Product(expected: int, threshold: real): real {
    expected as real * threshold
  }

  function MaxUnknown(expected: int, threshold: real): int {
    RoundToEven(Product(expected, threshold))
  }

  /** For a valid threshold the bound fits `int32`, so the program's conversion of it is exact. */
  predicate Up(u: Upness, threshold: real) {
    u.unknownCount <= MaxUnknown(u.expectedCount, threshold) &&
    Wrap32(u.readyCount + u.unknownCount) == u.expectedCount
  }

  /** The gauge exported for a resource. */
  predicate Gauge(u: Upness, threshold: real) {
    Up(u, threshold) && !u.expectedDown
  }

  lemma ProductBounds(expected: int, threshold: real)
    requires ValidThreshold(threshold)
    ensures expected >= 0 ==> 0.0 <= Product(expected, threshold) <= expected as real
    ensures expected <= 0 ==> expected as real <= Product(expected, threshold) <= 0.0
  {
  }

  lemma ProductMonotone(expected: nat, low: real, high: real)
    requires low <= high
    ensures Product(expected, low) <= Product(expected, high)
  {
  }

  /** The bound lies between zero and the expected count, within one half of the exact product. */
  lemma MaxUnknownBounds(expected: int, threshold: real)
    requires ValidThreshold(threshold)
    ensures expected >= 0 ==> 0 <= MaxUnknown(expected, threshold) <= expected
    ensures expected <= 0 ==> expected <= MaxUnknown(expected, threshold) <= 0
    ensures -0.5 <= MaxUnknown(expected, threshold) as real - expected as real * threshold <= 0.5
  {
    ProductBounds(expected, threshold);
    if expected >= 0 {
      RoundBetween(Product(expected, threshold), 0, expected);
    } else {
      RoundBetween(Product(expected, threshold), expected, 0);
    }
  }

  lemma RoundBetween(x: real, lo: int, hi: int)
    requires lo as real <= x <= hi as real
    ensures lo <= RoundToEven(x) <= hi
    ensures -0.5 <= RoundToEven(x) as real - x <= 0.5
  {
  }

  lemma RoundMonotone(x: real, y: real)
    requires x <= y
    ensures RoundToEven(x) <= RoundToEven(y)
  {
  }

  /** The result is the nearest integer, an even one at a tie; no other integer fits that description. */
  lemma RoundSpec(x: real, r: int)
    ensures r == RoundToEven(x)
       <==> -0.5 <= r as real - x <= 0.5 && (r as real - x == 0.5 || x - r as real == 0.5 ==> r % 2 == 0)
  {
    if -0.5 <= r as real - x <= 0.5 {
      assert -1.0 <= (r - RoundToEven(x)) as real <= 1.0;
    }
  }

  lemma MaxUnknownMonotone(expected: nat, low: real, high: real)
    requires ValidThreshold(low) && ValidThreshold(high) && low <= high
    ensures MaxUnknown(expected, low) <= MaxUnknown(expected, high)
  {
    ProductMonotone(expected, low, high);
    RoundMonotone(Product(expected, low), Product(expected, high));
  }

  /** The whole number nearest to `x`, the even one at a tie. */
  predicate Nearest(m: int, x: real) {
    -0.5 <= m as real - x <= 0.5 && (-0.5 < m as real - x < 0.5 || m % 2 == 0)
  }

  /** So many unknown members, and no more, are tolerated. */
  predicate Tolerated(m: int, expected: int, threshold: real) {
    Nearest(m, expected as real * threshold)
  }

  /**
   * What up means between the two ends: the unknown members are no more than the whole number nearest to the product
   * of the expected count and the threshold, the even one at a tie, and together with the ready ones they are all.
   */
  lemma UpIff(u: Upness, threshold: real, m: int)
    requires Tolerated(m, u.expectedCount, threshold)
    ensures Up(u, threshold) <==> u.unknownCount <= m && Wrap32(u.readyCount + u.unknownCount) == u.expectedCount
  {
    NearestIs(Product(u.expectedCount, threshold), m);
  }

  lemma NearestIs(x: real, m: int)
    requires Nearest(m, x)
    ensures RoundToEven(x) == m
  {
    RoundSpec(x, m);
  }

  /** A more tolerant threshold never takes a resource down. */
  lemma UpMonotone(u: Upness, low: real, high: real)
    requires ValidThreshold(low) && ValidThreshold(high) && low <= high
    requires u.expectedCount >= 0
    ensures Up(u, low) ==> Up(u, high)
  {
    MaxUnknownMonotone(u.expectedCount, low, high);
  }

  /** Unknown members turning ready never take a resource down. */
  lemma UpKeptWhenUnknownBecomeReady(u: Upness, k: nat, threshold: real)
    requires ValidThreshold(threshold) && k <= u.unknownCount
    requires Up(u, threshold)
    ensures Up(u.(readyCount := Wrap32(u.readyCount + k), unknownCount := u.unknownCount - k), threshold)
  {
    MovedMembers(u.readyCount, u.unknownCount, k);
  }

  lemma MovedMembers(ready: int, unknown: int, k: int)
    ensures Wrap32(Wrap32(ready + k) + (unknown - k)) == Wrap32(ready + unknown)
  {
    Wrap32Add(ready + k, unknown - k);
    assert (ready + k) + (unknown - k) == ready + unknown;
  }

  /** The two ends of the threshold's range. */
  lemma UpAtTheEnds(u: Upness)
    requires u.readyCount >= 0 && u.expectedCount >= 0 && u.unknownCount >= 0
    requires u.readyCount + u.unknownCount <= MAX_INT32
    ensures Up(u, 0.0) <==> u.unknownCount == 0 && u.readyCount == u.expectedCount
    ensures Up(u, 1.0) <==> u.readyCount + u.unknownCount == u.expectedCount
  {
  }
}
