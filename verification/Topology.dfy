/** TPU topologies such as "2x2x4", machine types such as "ct5p-hightpu-4t", and node pool sizes. */
module Topology {
  import opened MachineInts
  import opened Wrappers
  import opened Events

  /******* strings.Split *******/

  /** `strings.Split` for a separator of one character. */
  function Split(s: string, sep: char): (parts: seq<string>)
    ensures parts != []
  {
    if s == [] then [""]
    else
      var rest := Split(s[1..], sep);
      if s[0] == sep then [""] + rest else [[s[0]] + rest[0]] + rest[1..]
  }

  function Join(parts: seq<string>, sep: char): string
    requires parts != []
  {
    if |parts| == 1 then parts[0] else parts[0] + [sep] + Join(parts[1..], sep)
  }

  lemma {:induction false} JoinSnoc(parts: seq<string>, sep: char)
    requires |parts| >= 2
    ensures Join(parts, sep) == Join(DropLast(parts), sep) + [sep] + Last(parts)
  {
    if |parts| > 2 {
      JoinSnoc(parts[1..], sep);
      assert DropLast(parts[1..]) == DropLast(parts)[1..];
    } else {
      assert parts[1..] == [parts[1]] && DropLast(parts) == [parts[0]];
    }
  }

  lemma {:induction false} JoinOfSplit(s: string, sep: char)
    ensures Join(Split(s, sep), sep) == s
    ensures forall part :: part in Split(s, sep) ==> sep !in part
  {
    if s != [] {
      var rest, parts := Split(s[1..], sep), Split(s, sep);
      JoinOfSplit(s[1..], sep);
      assert s == [s[0]] + s[1..];
      if s[0] == sep {
        assert parts[1..] == rest;
      } else {
        assert parts[1..] == rest[1..];
        assert rest[0] in rest && parts[0] == [s[0]] + rest[0];
      }
    }
  }

  lemma {:induction false} SplitOfPlain(s: string, sep: char)
    requires sep !in s
    ensures Split(s, sep) == [s]
  {
    if s != [] {
      SplitOfPlain(s[1..], sep);
      assert s == [s[0]] + s[1..];
    }
  }

  lemma {:induction false} SplitConcat(s: string, t: string, sep: char)
    ensures sep !in s ==> Split(s + [sep] + t, sep) == [s] + Split(t, sep)
    ensures Last(Split(s + [sep] + t, sep)) == Last(Split(t, sep))
    ensures |Split(s + [sep] + t, sep)| >= 2
  {
    var whole := s + [sep] + t;
    if s == [] {
      assert whole[1..] == t;
    } else {
      assert whole[1..] == s[1..] + [sep] + t;
      SplitConcat(s[1..], t, sep);
      assert s == [s[0]] + s[1..];
    }
  }

  lemma {:induction false} SplitOfJoin(parts: seq<string>, sep: char)
    requires parts != [] && forall part :: part in parts ==> sep !in part
    ensures Split(Join(parts, sep), sep) == parts
  {
    if |parts| == 1 {
      SplitOfPlain(parts[0], sep);
    } else {
      SplitOfJoin(parts[1..], sep);
      SplitConcat(parts[0], Join(parts[1..], sep), sep);
    }
  }

  /******* strconv.Atoi *******/

  predicate AllDigits(s: string) {
    forall i :: 0 <= i < |s| ==> '0' <= s[i] <= '9'
  }

  predicate IsNumeral(s: string) {
    s != "" && AllDigits(s)
  }

  function Value(s: string): nat
    requires AllDigits(s)
  {
    if s == "" then 0 else 10 * Value(DropLast(s)) + (s[|s| - 1] as int - '0' as int)
  }

  /** An optional sign and digits, within the 64-bit range. */
  function Atoi(s: string): (r: Result<int>)
    ensures r.Ok? ==> MIN_INT64 <= r.value <= MAX_INT64
  {
    var signed := s != "" && (s[0] == '+' || s[0] == '-');
    var digits := if signed then s[1..] else s;
    if !IsNumeral(digits) then Err
    else
      var n: int := Value(digits);
      var v := if signed && s[0] == '-' then -n else n;
      if MIN_INT64 <= v <= MAX_INT64 then Ok(v) else Err
  }

  lemma AtoiOfNumeral(s: string)
    requires IsNumeral(s)
    ensures Atoi(s) == if Value(s) <= MAX_INT64 then Ok(Value(s)) else Err
    ensures 'x' !in s && '-' !in s
  {
  }

  /******* Decimal numerals *******/

  const DIGITS := "0123456789"

  /** How a number is written. */
  function Decimal(n: nat): string {
    if n < 10 then [DIGITS[n]] else Decimal(n / 10) + [DIGITS[n % 10]]
  }

  lemma DigitIs(d: nat)
    requires d < 10
    ensures '0' <= DIGITS[d] <= '9' && DIGITS[d] as int - '0' as int == d
  {
    assert d == 0 || d == 1 || d == 2 || d == 3 || d == 4 || d == 5 || d == 6 || d == 7 || d == 8 || d == 9;
  }

  lemma ValueSnoc(s: string, c: char)
    requires AllDigits(s) && '0' <= c <= '9'
    ensures AllDigits(s + [c]) && Value(s + [c]) == 10 * Value(s) + (c as int - '0' as int)
  {
    assert DropLast(s + [c]) == s;
  }

  /** Reading undoes writing. */
  lemma {:induction false} ValueOfDecimal(n: nat)
    ensures IsNumeral(Decimal(n)) && Value(Decimal(n)) == n
  {
    DigitIs(n % 10);
    if n < 10 {
      assert Decimal(n) == "" + [DIGITS[n]];
      ValueSnoc("", DIGITS[n]);
    } else {
      ValueOfDecimal(n / 10);
      ValueSnoc(Decimal(n / 10), DIGITS[n % 10]);
    }
  }

  lemma {:induction false} LeadingZero(s: string)
    requires AllDigits(s)
    ensures AllDigits("0" + s) && Value("0" + s) == Value(s)
  {
    if s == "" {
      assert "0" + s == "" + ['0'];
      ValueSnoc("", '0');
    } else {
      LeadingZero(DropLast(s));
      assert "0" + s == ("0" + DropLast(s)) + [Last(s)];
      ValueSnoc("0" + DropLast(s), Last(s));
    }
  }

  /** Numbers are read as they are written, with or without a sign, if they fit 64 bits. */
  lemma AtoiOfDecimal(n: nat)
    ensures Atoi(Decimal(n)) == if n <= MAX_INT64 then Ok(n) else Err
    ensures Atoi("+" + Decimal(n)) == if n <= MAX_INT64 then Ok(n) else Err
    ensures Atoi("-" + Decimal(n)) == if n <= MAX_INT64 + 1 then Ok(0 - n as int) else Err
  {
    ValueOfDecimal(n);
    AtoiOfNumeral(Decimal(n));
    AtoiOfSigned(Decimal(n));
  }

  lemma AtoiOfSigned(digits: string)
    requires IsNumeral(digits)
    ensures Atoi("+" + digits) == if Value(digits) <= MAX_INT64 then Ok(Value(digits)) else Err
    ensures Atoi("-" + digits) == if Value(digits) <= MAX_INT64 + 1 then Ok(0 - Value(digits) as int) else Err
  {
    assert ("+" + digits)[1..] == digits && ("-" + digits)[1..] == digits;
  }

  /** Nothing is read that has anything but digits after an optional sign, or no digits at all. */
  lemma AtoiRejects(s: string)
    requires s == "" || s == "+" || s == "-" || !('0' <= s[0] <= '9' || s[0] == '+' || s[0] == '-')
          || exists i :: 0 < i < |s| && !('0' <= s[i] <= '9')
    ensures Atoi(s).Err?
  {
    if i :| 0 < i < |s| && !('0' <= s[i] <= '9') {
      assert s[1..][i - 1] == s[i];
    }
  }

  /******* Chip counts *******/

  predicate AllParse(parts: seq<string>) {
    forall part :: part in parts ==> Atoi(part).Ok?
  }

  function Product(parts: seq<string>): int
    requires AllParse(parts)
  {
    if parts == [] then 1 else Product(DropLast(parts)) * Atoi(Last(parts)).value
  }

  /** The number of chips of a topology, in 64-bit arithmetic. */
  function ChipCount(topology: string): Result<int> {
    var parts := Split(topology, 'x');
    if |parts| < 2 || !AllParse(parts) then Err else Ok(Wrap64(Product(parts)))
  }

  lemma {:induction false} Wrap64Mul(x: int, y: int)
    ensures Wrap64(Wrap64(x) * y) == Wrap64(x * y)
  {
    var j := Wrap64Spec(x);
    var k := Wrap64Spec(Wrap64(x) * y);
    assert Wrap64(x) * y == x * y - j * y * TWO_TO_64;
    Wrap64Unique(x * y, Wrap64(Wrap64(x) * y), j * y + k);
  }

  predicate Accumulated(parts: seq<string>, product: int) {
    AllParse(parts) && product == Wrap64(Product(parts))
  }

  lemma {:induction false} AccumulateStep(parts: seq<string>, i: nat, product: int)
    requires i < |parts| && Atoi(parts[i]).Ok? && Accumulated(parts[..i], product)
    ensures Accumulated(parts[..i + 1], Wrap64(product * Atoi(parts[i]).value))
  {
    var next := parts[..i + 1];
    assert DropLast(next) == parts[..i] && Last(next) == parts[i];
    assert next == parts[..i] + [parts[i]];
    Wrap64Mul(Product(parts[..i]), Atoi(parts[i]).value);
  }

  method GetTpuTopologyToChipCount(topology: string) returns (r: Result<int>)
    ensures r == ChipCount(topology)
  {
    var parts := Split(topology, 'x');
    if |parts| < 2 {
      return Err;
    }
    var product := 1;
    for i := 0 to |parts|
      invariant Accumulated(parts[..i], product)
    {
      var x := Atoi(parts[i]);
      if x.Err? {
        assert parts[i] in parts;
        return Err;
      }
      AccumulateStep(parts, i, product);
      product := Wrap64(product * x.value);
    }
    assert parts[..|parts|] == parts;
    return Ok(product);
  }

  /** Two or more integers joined by "x". */
  predicate Spells(topology: string, parts: seq<string>) {
    |parts| >= 2 && AllParse(parts) && topology == Join(parts, 'x')
  }

  /** A topology has a chip count iff it spells integers, and then it is their product, wrapped to 64 bits. */
  lemma ChipCountIff(topology: string)
    ensures ChipCount(topology).Ok? <==> exists parts :: Spells(topology, parts)
    ensures forall parts :: Spells(topology, parts) ==> ChipCount(topology) == Ok(Wrap64(Product(parts)))
  {
    JoinOfSplit(topology, 'x');
    if ChipCount(topology).Ok? {
      assert Spells(topology, Split(topology, 'x'));
    }
    forall parts | Spells(topology, parts) ensures Split(topology, 'x') == parts {
      SplitOfJoin(parts, 'x');
    }
  }

  predicate AllNumerals(parts: seq<string>) {
    forall i :: 0 <= i < |parts| ==> IsNumeral(parts[i]) && Value(parts[i]) <= MAX_INT64
  }

  function NumeralProduct(numerals: seq<string>): nat
    requires AllNumerals(numerals)
  {
    if numerals == [] then 1
    else NumeralProduct(DropLast(numerals)) * Value(numerals[|numerals| - 1])
  }

  lemma {:induction false} ProductOfNumerals(numerals: seq<string>)
    requires AllNumerals(numerals)
    ensures AllParse(numerals) && Product(numerals) == NumeralProduct(numerals)
  {
    forall s | s in numerals ensures Atoi(s) == Ok(Value(s)) {
      AtoiOfNumeral(s);
    }
    if numerals != [] {
      ProductOfNumerals(DropLast(numerals));
    }
  }

  lemma NumeralsArePlain(numerals: seq<string>)
    requires AllNumerals(numerals)
    ensures forall s :: s in numerals ==> 'x' !in s
  {
  }

  /** Numerals joined by "x" are read as their product. */
  lemma {:induction false} TopologyOfNumerals(numerals: seq<string>)
    requires |numerals| >= 2 && AllNumerals(numerals)
    ensures ChipCount(Join(numerals, 'x')) == Ok(Wrap64(NumeralProduct(numerals)))
    ensures NumeralProduct(numerals) <= MAX_INT64 ==> ChipCount(Join(numerals, 'x')) == Ok(NumeralProduct(numerals))
  {
    NumeralsArePlain(numerals);
    SplitOfJoin(numerals, 'x');
    ProductOfNumerals(numerals);
    WrapOfSmall(NumeralProduct(numerals));
  }

  function Decimals(sides: seq<nat>): (parts: seq<string>)
    ensures |parts| == |sides|
  {
    seq(|sides|, i requires 0 <= i < |sides| => Decimal(sides[i]))
  }

  /** The number of chips in a block with these sides. */
  function Volume(sides: seq<nat>): nat {
    if sides == [] then 1 else Volume(DropLast(sides)) * Last(sides)
  }

  predicate Fit64(sides: seq<nat>) {
    forall i :: 0 <= i < |sides| ==> sides[i] <= MAX_INT64
  }

  lemma DecimalsAreNumerals(sides: seq<nat>)
    requires Fit64(sides)
    ensures AllNumerals(Decimals(sides))
    ensures forall i :: 0 <= i < |sides| ==> Value(Decimals(sides)[i]) == sides[i]
  {
    forall i | 0 <= i < |sides| ensures IsNumeral(Decimal(sides[i])) && Value(Decimal(sides[i])) == sides[i] {
      ValueOfDecimal(sides[i]);
    }
  }

  lemma {:induction false} ProductOfSides(numerals: seq<string>, sides: seq<nat>)
    requires |numerals| == |sides| && AllNumerals(numerals)
    requires forall i :: 0 <= i < |sides| ==> Value(numerals[i]) == sides[i]
    ensures NumeralProduct(numerals) == Volume(sides)
  {
    if sides != [] {
      ProductOfSides(DropLast(numerals), DropLast(sides));
      assert Value(numerals[|numerals| - 1]) == Last(sides);
    }
  }

  /** Two or more numbers written with "x" between them are read as their product. */
  lemma TopologyOf(sides: seq<nat>)
    requires |sides| >= 2 && Fit64(sides)
    ensures ChipCount(Join(Decimals(sides), 'x')) == Ok(Wrap64(Volume(sides)))
    ensures Volume(sides) <= MAX_INT64 ==> ChipCount(Join(Decimals(sides), 'x')) == Ok(Volume(sides))
  {
    DecimalsAreNumerals(sides);
    ProductOfSides(Decimals(sides), sides);
    TopologyOfNumerals(Decimals(sides));
  }

  /******* Machine types *******/

  function TrimSuffixT(s: string): string {
    if s != "" && Last(s) == 't' then DropLast(s) else s
  }

  function MachineChips(machineType: string): Result<int> {
    var parts := Split(machineType, '-');
    if |parts| < 2 then Err
    else
      var count := Atoi(TrimSuffixT(Last(parts)));
      if count.Ok? && count.value >= 1 then count else Err
  }

  /** Whatever the family is called, the number after the last dash is the chip count, with or without a "t". */
  lemma MachineChipsOf(family: string, n: nat)
    requires 1 <= n <= MAX_INT64
    ensures MachineChips(family + "-" + (Decimal(n) + "t")) == Ok(n)
    ensures MachineChips(family + "-" + Decimal(n)) == Ok(n)
  {
    ValueOfDecimal(n);
    MachineChipsOfNumeral(family, Decimal(n));
  }

  /** A machine type has a chip count in no other case than that a positive integer follows its last dash. */
  lemma MachineChipsIff(machineType: string)
    ensures MachineChips(machineType).Ok?
       <==> exists family, part :: EndsIn(machineType, family, part) && Atoi(part).Ok? && Atoi(part).value >= 1
  {
    var parts := Split(machineType, '-');
    if MachineChips(machineType).Ok? {
      JoinOfSplit(machineType, '-');
      JoinSnoc(parts, '-');
      TrimmedEnds(machineType, Join(DropLast(parts), '-'), Last(parts));
    }
    if family, part :| EndsIn(machineType, family, part) && Atoi(part).Ok? && Atoi(part).value >= 1 {
      IntegerHasNoT(part);
      LastPart(family, part);
      LastPart(family, part + "t");
      assert DropLast(part + "t") == part;
    }
  }

  lemma TrimmedEnds(machineType: string, family: string, last: string)
    requires machineType == family + ['-'] + last && '-' !in last
    ensures EndsIn(machineType, family, TrimSuffixT(last))
  {
    if last != "" && Last(last) == 't' {
      assert last == DropLast(last) + "t";
    }
  }

  lemma IntegerHasNoT(part: string)
    requires Atoi(part).Ok?
    ensures part != "" && Last(part) != 't'
  {
  }

  /** The part stands after the last dash, perhaps with a "t" behind it. */
  predicate EndsIn(machineType: string, family: string, part: string) {
    '-' !in part && (machineType == family + "-" + part || machineType == family + "-" + (part + "t"))
  }

  lemma MachineChipsOfNumeral(family: string, numeral: string)
    requires IsNumeral(numeral) && 1 <= Value(numeral) <= MAX_INT64
    ensures MachineChips(family + "-" + (numeral + "t")) == Ok(Value(numeral))
    ensures MachineChips(family + "-" + numeral) == Ok(Value(numeral))
  {
    AtoiOfNumeral(numeral);
    LastPart(family, numeral + "t");
    LastPart(family, numeral);
    assert DropLast(numeral + "t") == numeral;
  }

  lemma LastPart(family: string, suffix: string)
    requires '-' !in suffix
    ensures var parts := Split(family + "-" + suffix, '-');
            |parts| >= 2 && Last(parts) == suffix
  {
    SplitConcat(family, suffix, '-');
    SplitOfPlain(suffix, '-');
    assert family + "-" + suffix == family + ['-'] + suffix;
  }

  /******* Node pool sizes *******/

  /** How many machines of `chips` chips a topology needs, truncated to 32 bits. */
  function PoolSize(topology: Result<int>, chips: Result<int>): Result<int> {
    if topology.Err? || chips.Err? || chips.value < 1 then Err
    else Ok(Wrap32(TruncDiv(topology.value, chips.value)))
  }

  /** From a node pool's placement policy and machine type, with its own copy of the parsing loop. */
  method GetExpectedTPUNodePoolSize(topology: Option<string>, machineType: string) returns (r: Result<int>)
    ensures r == if topology.None? || topology.value == "" then Err
                 else PoolSize(ChipCount(topology.value), MachineChips(machineType))
  {
    if topology.None? || topology.value == "" {
      return Err;
    }
    var chips := MachineChips(machineType);
    if chips.Err? {
      return Err;
    }
    var parts := Split(topology.value, 'x');
    if |parts| < 2 {
      return Err;
    }
    var product := 1;
    for i := 0 to |parts|
      invariant Accumulated(parts[..i], product)
    {
      var x := Atoi(parts[i]);
      if x.Err? {
        assert parts[i] in parts;
        return Err;
      }
      AccumulateStep(parts, i, product);
      product := Wrap64(product * x.value);
    }
    assert parts[..|parts|] == parts;
    return Ok(Wrap32(TruncDiv(product, chips.value)));
  }

  /** From the labels of a node. */
  method GetExpectedNodeSize(topology: Option<string>, acceleratorCount: Option<string>) returns (r: Result<int>)
    ensures r == if topology.None? || acceleratorCount.None? then Err
                 else PoolSize(ChipCount(topology.value), Atoi(acceleratorCount.value))
  {
    if topology.None? || acceleratorCount.None? {
      return Err;
    }
    var chips := Atoi(acceleratorCount.value);
    if chips.Err? || chips.value < 1 {
      return Err;
    }
    var product := GetTpuTopologyToChipCount(topology.value);
    if product.Err? {
      return Err;
    }
    return Ok(Wrap32(TruncDiv(product.value, chips.value)));
  }

  /** The size is the largest number of machines whose chips fit the topology. */
  lemma PoolSizeFits(product: nat, chips: nat)
    requires chips >= 1 && TruncDiv(product, chips) <= MAX_INT32
    ensures var size := PoolSize(Ok(product), Ok(chips));
            size.Ok? && size.value * chips <= product < (size.value + 1) * chips
  {
    SizeIsQuotient(product, chips, TruncDiv(product, chips));
    TruncDivBounds(product, chips);
  }

  lemma SizeIsQuotient(product: nat, chips: nat, quotient: nat)
    requires chips >= 1 && quotient == TruncDiv(product, chips) && quotient <= MAX_INT32
    ensures PoolSize(Ok(product), Ok(chips)) == Ok(quotient)
  {
    WrapOfSmall(quotient);
  }
}
