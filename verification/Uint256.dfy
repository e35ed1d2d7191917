/**
 * The limb arithmetic of `Uint256` (crates/usdd-bitcoin-bmm/src/lib.rs). Every operation is proved
 * against the natural number its little-endian 64-bit limbs denote.
 */
module Uint256 {
  import opened Machine

  const LIMIT: nat := 0x1_0000_0000_0000_0000_0000_0000_0000_0000_0000_0000_0000_0000_0000_0000_0000_0000

  type Limbs = s: seq<u64> | |s| == 4 witness [0, 0, 0, 0]

  const UINT_ZERO: Limbs := [0, 0, 0, 0]

  // ----- the number a limb sequence denotes -----

  /** The weight of limb `i`. */
  function Weight(i: nat): (w: nat)
    ensures w > 0
  {
    Pow2(64 * i)
  }

  function Value(s: seq<u64>): nat {
    if s == [] then 0 else Value(s[..|s| - 1]) + s[|s| - 1] * Weight(|s| - 1)
  }

  lemma {:induction false} WeightStep(i: nat)
    ensures Weight(0) == 1
    ensures Weight(i + 1) == U64_LIMIT * Weight(i)
  {
    Pow2Words();
    Pow2Add(64, 64 * i);
  }

  lemma {:induction false} WeightOfFour()
    ensures Weight(4) == LIMIT
  {
    Pow2Words();
    Pow2Double(64, U64_LIMIT);
    Pow2Double(128, U64_LIMIT * U64_LIMIT);
  }

  lemma {:induction false} ValuePrefix(s: seq<u64>, i: nat)
    requires i < |s|
    ensures Value(s[..i + 1]) == Value(s[..i]) + s[i] * Weight(i)
  {
    assert s[..i + 1][..i] == s[..i];
  }

  lemma {:induction false} ValueBound(s: seq<u64>)
    ensures Value(s) < Weight(|s|)
  {
    if s != [] {
      var n := |s| - 1;
      ValueBound(s[..n]);
      WeightStep(n);
      MulLe(s[n], U64_LIMIT - 1, Weight(n));
    } else {
      WeightStep(0);
    }
  }

  lemma {:induction false} FourBound(a: Limbs)
    ensures Value(a) < LIMIT
  {
    ValueBound(a);
    WeightOfFour();
  }

  /** Least-significant limb first. */
  lemma {:induction false} ValueCons(s: seq<u64>)
    requires s != []
    ensures Value(s) == s[0] + U64_LIMIT * Value(s[1..])
  {
    var n := |s| - 1;
    if n == 0 {
      WeightStep(0);
      assert Value(s[1..]) == 0;
      assert Value(s[..0]) == 0;
    } else {
      ValueCons(s[..n]);
      assert s[..n][1..] == s[1..][..n - 1];
      WeightStep(n - 1);
      var low := Value(s[1..][..n - 1]);
      calc {
        U64_LIMIT * Value(s[1..]);
        U64_LIMIT * (low + s[n] * Weight(n - 1));
        U64_LIMIT * low + U64_LIMIT * (s[n] * Weight(n - 1));
        { MulAssoc(s[n], U64_LIMIT, Weight(n - 1)); }
        U64_LIMIT * low + s[n] * Weight(n);
      }
    }
  }

  // ----- addition, multiplication and division by a word -----

  lemma {:induction false} AddArithmetic(low: nat, lowA: nat, lowB: nat, x: nat, y: nat, carry: nat,
                                         sum: nat, carry': nat, w: nat)
    requires x + y + carry == sum + carry' * U64_LIMIT
    requires low + carry * w == lowA + lowB
    ensures (low + sum * w) + carry' * (U64_LIMIT * w) == (lowA + x * w) + (lowB + y * w)
  {
    Distribute(x, y, w);
    Distribute(x + y, carry, w);
    Distribute(sum, carry' * U64_LIMIT, w);
    MulAssoc(carry', U64_LIMIT, w);
  }

  /** Column `i` of a carried addition. */
  lemma {:induction false} AddColumn(a: seq<u64>, b: seq<u64>, out: seq<u64>, i: nat,
                                     carry: nat, sum: u64, carry': nat)
    requires i < |a| == |b| == |out| && a[i] as int + b[i] + carry == sum + carry' * U64_LIMIT
    requires Value(out[..i]) + carry * Weight(i) == Value(a[..i]) + Value(b[..i])
    ensures Value(out[i := sum][..i + 1]) + carry' * Weight(i + 1) == Value(a[..i + 1]) + Value(b[..i + 1])
  {
    var out' := out[i := sum];
    assert out'[..i] == out[..i];
    ValuePrefix(out', i);
    ValuePrefix(a, i);
    ValuePrefix(b, i);
    WeightStep(i);
    AddArithmetic(Value(out[..i]), Value(a[..i]), Value(b[..i]), a[i], b[i], carry, sum, carry', Weight(i));
  }

  /** Two `overflowing_add` calls in a row. */
  method AddWithCarry(x: u64, y: u64, carryIn: bool) returns (sum: u64, carryOut: bool)
    ensures x as int + y + (if carryIn then 1 else 0) == sum + (if carryOut then U64_LIMIT else 0)
  {
    var exact: nat := x as int + y;
    var first: u64 := exact % U64_LIMIT;
    var firstCarry := exact >= U64_LIMIT;
    var again: nat := first as int + if carryIn then 1 else 0;
    sum := again % U64_LIMIT;
    carryOut := firstCarry || again >= U64_LIMIT;
  }

  method CheckedAdd(a: Limbs, b: Limbs) returns (r: Option<Limbs>)
    ensures r.Some? <==> Value(a) + Value(b) < LIMIT
    ensures r.Some? ==> Value(r.value) == Value(a) + Value(b)
  {
    var out: Limbs := UINT_ZERO;
    var carry := false;
    for i := 0 to 4
      invariant Value(out[..i]) + (if carry then 1 else 0) * Weight(i) == Value(a[..i]) + Value(b[..i])
    {
      var sum, carry' := AddWithCarry(a[i], b[i], carry);
      AddColumn(a, b, out, i, if carry then 1 else 0, sum, if carry' then 1 else 0);
      out := out[i := sum];
      carry := carry';
    }
    WholeIsPrefix(out);
    WholeIsPrefix(a);
    WholeIsPrefix(b);
    return if !carry then Some(out) else None;
  }

  lemma {:induction false} WholeIsPrefix(a: Limbs)
    ensures a[..4] == a && a[0..] == a && Value(a) < LIMIT == Weight(4)
  {
    FourBound(a);
    WeightOfFour();
  }

  lemma {:induction false} MulArithmetic(low: nat, lowA: nat, x: nat, rhs: nat, carry: nat,
                                         digit: nat, carry': nat, w: nat)
    requires x * rhs + carry == digit + carry' * U64_LIMIT
    requires low + carry * w == lowA * rhs
    ensures (low + digit * w) + carry' * (U64_LIMIT * w) == (lowA + x * w) * rhs
  {
    var product := x * rhs;
    Distribute(lowA, x * w, rhs);
    assert (x * w) * rhs == product * w;
    Distribute(product, carry, w);
    Distribute(digit, carry' * U64_LIMIT, w);
    MulAssoc(carry', U64_LIMIT, w);
  }

  /** Column `i` of a multiplication by one word. */
  lemma {:induction false} MulColumn(a: Limbs, rhs: nat, out: Limbs, i: nat, carry: nat, digit: u64, carry': nat)
    requires i < 4 && a[i] * rhs + carry == digit + carry' * U64_LIMIT
    requires Value(out[..i]) + carry * Weight(i) == Value(a[..i]) * rhs
    ensures Value(out[i := digit][..i + 1]) + carry' * Weight(i + 1) == Value(a[..i + 1]) * rhs
  {
    var out' := out[i := digit];
    assert out'[..i] == out[..i];
    ValuePrefix(out', i);
    ValuePrefix(a, i);
    WeightStep(i);
    MulArithmetic(Value(out[..i]), Value(a[..i]), a[i], rhs, carry, digit, carry', Weight(i));
  }

  method CheckedMulU64(a: Limbs, rhs: u64) returns (r: Option<Limbs>)
    ensures r.Some? <==> Value(a) * rhs < LIMIT
    ensures r.Some? ==> Value(r.value) == Value(a) * rhs
  {
    var out: Limbs := UINT_ZERO;
    var carry: nat := 0;
    for i := 0 to 4
      invariant carry < U64_LIMIT
      invariant Value(out[..i]) + carry * Weight(i) == Value(a[..i]) * rhs
    {
      ProductFitsU128(a[i], rhs, carry);
      var product := a[i] * rhs + carry;
      MulColumn(a, rhs, out, i, carry, product % U64_LIMIT, product / U64_LIMIT);
      out := out[i := product % U64_LIMIT];
      carry := product / U64_LIMIT;
    }
    WholeIsPrefix(out);
    WholeIsPrefix(a);
    MulLe(Min(1, carry), carry, Weight(4));
    return if carry == 0 then Some(out) else None;
  }

  /** A limb product with a carry fits the 128-bit accumulator, and its high word fits a limb. */
  lemma {:induction false} ProductFitsU128(x: u64, y: u64, carry: u64)
    ensures x * y + carry < U64_LIMIT * U64_LIMIT
    ensures (x * y + carry) / U64_LIMIT < U64_LIMIT
  {
    MulLe(x, U64_LIMIT - 1, y);
    MulLe(y, U64_LIMIT - 1, U64_LIMIT - 1);
  }

  method DivU64(a: Limbs, rhs: u64) returns (r: Option<Limbs>)
    ensures r.Some? <==> rhs != 0
    ensures r.Some? ==> Value(r.value) == Value(a) / rhs
  {
    if rhs == 0 {
      return None;
    }
    var out: Limbs := UINT_ZERO;
    var remainder: nat := 0;
    for i := 4 downto 0
      invariant remainder < rhs
      invariant Value(a[i..]) == Value(out[i..]) * rhs + remainder
    {
      var digit, rest := DivideWord(remainder, a[i], rhs);
      DivColumn(a, rhs, out, i, remainder, digit, rest);
      out := out[i := digit];
      remainder := rest;
    }
    WholeIsPrefix(out);
    WholeIsPrefix(a);
    DivUnique(Value(a), rhs, Value(out), remainder);
    return Some(out);
  }

  /** One 128-bit division: the quotient fits a limb because the running remainder is below the divisor. */
  method DivideWord(remainder: nat, limb: u64, rhs: nat) returns (digit: u64, rest: nat)
    requires remainder < rhs
    ensures rest < rhs && digit * rhs + rest == remainder * U64_LIMIT + limb
  {
    var dividend := remainder * U64_LIMIT + limb;
    MulLe(remainder + 1, rhs, U64_LIMIT);
    Quotient(dividend, rhs, U64_LIMIT);
    digit, rest := dividend / rhs, dividend % rhs;
  }

  lemma {:induction false} DivArithmetic(lowA: nat, lowOut: nat, a: nat, out: nat, rhs: nat, remainder: nat, limb: nat,
                                         digit: nat, rest: nat)
    requires digit * rhs + rest == remainder * U64_LIMIT + limb
    requires lowA == lowOut * rhs + remainder
    requires a == limb + U64_LIMIT * lowA && out == digit + U64_LIMIT * lowOut
    ensures a == out * rhs + rest
  {
    Distribute(digit, U64_LIMIT * lowOut, rhs);
    Distribute(lowOut * rhs, remainder, U64_LIMIT);
    MulAssoc(U64_LIMIT, lowOut, rhs);
  }

  /** Digit `i` of a long division by one word. */
  lemma {:induction false} DivColumn(a: Limbs, rhs: nat, out: Limbs, i: nat, remainder: nat, digit: u64, rest: nat)
    requires i < 4 && digit * rhs + rest == remainder * U64_LIMIT + a[i]
    requires Value(a[i + 1..]) == Value(out[i + 1..]) * rhs + remainder
    ensures Value(a[i..]) == Value(out[i := digit][i..]) * rhs + rest
  {
    TailValue(out, i, digit);
    TailValue(a, i, a[i]);
    assert a[i := a[i]] == a;
    DivArithmetic(Value(a[i + 1..]), Value(out[i + 1..]), Value(a[i..]), Value(out[i := digit][i..]), rhs, remainder, a[i],
                  digit, rest);
  }

  lemma {:induction false} TailValue(s: seq<u64>, i: nat, x: u64)
    requires i < |s|
    ensures Value(s[i := x][i..]) == x + U64_LIMIT * Value(s[i + 1..])
  {
    var tail := s[i := x][i..];
    assert tail[0] == x && tail[1..] == s[i + 1..];
    ValueCons(tail);
  }

  // ----- order, complement, bits -----

  datatype Order = Less | Equal | Greater

  function Compare(x: nat, y: nat): Order {
    if x < y then Less else if x == y then Equal else Greater
  }

  /** Comparison from the most significant limb, for both the 4- and the 5-limb operands. */
  method CompareLimbs(a: seq<u64>, b: seq<u64>) returns (r: Order)
    requires |a| == |b|
    ensures r == Compare(Value(a), Value(b))
  {
    for i := |a| downto 0
      invariant a[i..] == b[i..]
    {
      if a[i] != b[i] {
        HighLimbDecides(a, b, i);
        return Compare(a[i], b[i]);
      }
    }
    assert a == a[0..] && b == b[0..];
    return Equal;
  }

  /** Equal high limbs cancel. */
  lemma {:induction false} HighLimbsCancel(a: seq<u64>, b: seq<u64>, i: nat)
    requires i <= |a| == |b| && a[i..] == b[i..]
    ensures Value(a) - Value(b) == Value(a[..i]) - Value(b[..i])
  {
    if i == |a| {
      assert a[..i] == a && b[..i] == b;
    } else {
      var n := |a| - 1;
      assert a[n] == a[i..][n - i] == b[n];
      assert a[..n][i..] == a[i..][..n - i] == b[..n][i..];
      assert a[..n][..i] == a[..i] && b[..n][..i] == b[..i];
      HighLimbsCancel(a[..n], b[..n], i);
    }
  }

  lemma {:induction false} HighLimbDecides(a: seq<u64>, b: seq<u64>, i: nat)
    requires i < |a| == |b| && a[i + 1..] == b[i + 1..]
    requires a[i] != b[i]
    ensures Compare(Value(a), Value(b)) == Compare(a[i], b[i])
  {
    HighLimbsCancel(a, b, i + 1);
    ValuePrefix(a, i);
    ValuePrefix(b, i);
    ValueBound(a[..i]);
    ValueBound(b[..i]);
    if a[i] < b[i] {
      Dominates(a[i], b[i], Weight(i));
    } else {
      Dominates(b[i], a[i], Weight(i));
    }
  }

  lemma {:induction false} Dominates(small: nat, big: nat, w: nat)
    requires small < big
    ensures small * w + w <= big * w
  {
    MulLe(small + 1, big, w);
  }

  function WrappingNot(a: Limbs): Limbs {
    [U64_MAX - a[0], U64_MAX - a[1], U64_MAX - a[2], U64_MAX - a[3]]
  }

  lemma {:induction false} ExpandFour(a: Limbs)
    ensures Value(a) == a[0] + U64_LIMIT * (a[1] + U64_LIMIT * (a[2] + U64_LIMIT * a[3]))
  {
    ValueCons(a);
    ValueCons(a[1..]);
    ValueCons(a[2..]);
    ValueCons(a[3..]);
    assert a[1..][1..] == a[2..] && a[2..][1..] == a[3..] && a[3..][1..] == [];
  }

  lemma {:induction false} WrappingNotValue(a: Limbs)
    ensures Value(WrappingNot(a)) == LIMIT - 1 - Value(a)
  {
    ExpandFour(a);
    ExpandFour(WrappingNot(a));
  }

  predicate Bit(a: Limbs, bit: nat)
    requires bit < 256
  {
    Shr64(a[bit / 64], bit % 64) % 2 != 0
  }

  /** Shifting a limb together with everything above it. */
  lemma {:induction false} ShiftJoined(x: nat, high: nat, j: nat)
    requires j <= 64
    ensures (x + U64_LIMIT * high) / Pow2(j) == x / Pow2(j) + Pow2(64 - j) * high
  {
    WordSplit(j);
    ShiftWords(x, high, Pow2(j), Pow2(64 - j), U64_LIMIT);
  }

  /** Above bit `j` of limb `i` there is that limb's high part and an even multiple. */
  lemma {:induction false} ShiftInsideLimb(s: seq<u64>, i: nat, j: nat) returns (rest: nat)
    requires i < |s| && j < 64
    ensures Value(s) / Pow2(64 * i + j) == s[i] / Pow2(j) + 2 * rest
  {
    if i == 0 {
      rest := FirstLimbShifted(s, j);
    } else {
      rest := ShiftInsideLimb(s[1..], i - 1, j);
      DropOneLimb(s, 64 * (i - 1) + j);
    }
  }

  lemma {:induction false} FirstLimbShifted(s: seq<u64>, j: nat) returns (rest: nat)
    requires s != [] && j < 64
    ensures Value(s) / Pow2(j) == s[0] / Pow2(j) + 2 * rest
  {
    var x, high, half := s[0], Value(s[1..]), Pow2(63 - j);
    ValueCons(s);
    ShiftJoined(x, high, j);
    rest := DoubledProduct(half, high);
  }

  lemma {:induction false} DoubledProduct(half: nat, high: nat) returns (rest: nat)
    ensures (2 * half) * high == 2 * rest
  {
    rest := half * high;
    MulAssoc(2, half, high);
  }

  lemma {:induction false} DropOneLimb(s: seq<u64>, k: nat)
    requires s != []
    ensures Value(s) / Pow2(64 + k) == Value(s[1..]) / Pow2(k)
  {
    ValueCons(s);
    Pow2Words();
    Pow2Add(64, k);
    DivUnique(Value(s), U64_LIMIT, Value(s[1..]), s[0]);
    DivDiv(Value(s), U64_LIMIT, Pow2(k));
  }

  lemma {:induction false} BitInsideLimb(s: seq<u64>, i: nat, j: nat, bit: nat)
    requires i < |s| && j < 64 && bit == 64 * i + j
    ensures (Value(s) / Pow2(bit)) % 2 == (s[i] / Pow2(j)) % 2
  {
    var rest := ShiftInsideLimb(s, i, j);
    AddEven(s[i] / Pow2(j), rest);
  }

  lemma {:induction false} AddEven(x: nat, rest: nat)
    ensures (x + 2 * rest) % 2 == x % 2
  {
  }

  lemma {:induction false} BitValue(a: Limbs, bit: nat)
    requires bit < 256
    ensures Bit(a, bit) <==> (Value(a) / Pow2(bit)) % 2 == 1
  {
    BitInsideLimb(a, bit / 64, bit % 64, bit);
  }

  // ----- bit length and shifts -----

  lemma {:induction false} ZeroLimbs(s: seq<u64>, i: nat)
    requires i <= |s| && forall k :: i <= k < |s| ==> s[k] == 0
    ensures Value(s) == Value(s[..i])
  {
    if i == |s| {
      assert s[..i] == s;
    } else {
      var n := |s| - 1;
      assert s[..n][..i] == s[..i];
      ZeroLimbs(s[..n], i);
    }
  }

  lemma {:induction false} TopLimbLength(s: seq<u64>, i: nat)
    requires i < |s| && s[i] != 0 && forall k :: i < k < |s| ==> s[k] == 0
    ensures BitLength(Value(s)) == 64 * i + BitLength(s[i])
  {
    var n := BitLength(s[i]);
    ZeroLimbs(s, i + 1);
    ValuePrefix(s, i);
    ValueBound(s[..i]);
    BitLengthBounds(s[i]);
    Pow2Add(n - 1, 64 * i);
    Pow2Add(n, 64 * i);
    MulLe(Pow2(n - 1), s[i], Weight(i));
    Dominates(s[i], Pow2(n), Weight(i));
    BitLengthUnique(Value(s), 64 * i + n);
  }

  method BitLen(a: Limbs) returns (n: nat)
    ensures n == BitLength(Value(a))
  {
    for i := 4 downto 0
      invariant forall k :: i <= k < 4 ==> a[k] == 0
    {
      if a[i] != 0 {
        TopLimbLength(a, i);
        return 64 * i + BitLength(a[i]);
      }
    }
    ZeroLimbs(a, 0);
    return 0;
  }

  lemma {:induction false} WordSplit(b: nat)
    requires b <= 64
    ensures Pow2(b) * Pow2(64 - b) == U64_LIMIT
  {
    Pow2Words();
    Pow2Add(b, 64 - b);
  }

  /** A limb shifted right, or-ed with the low bits of the limb above. */
  lemma {:induction false} JoinLimbs(x: u64, above: u64, b: nat)
    requires 0 < b < 64
    ensures BitOr(Shr64(x, b), Shl64(above, 64 - b)) == x / Pow2(b) + (above % Pow2(b)) * Pow2(64 - b) < U64_LIMIT
  {
    var p, c := Pow2(b), Pow2(64 - b);
    WordSplit(b);
    var kept := TruncatedShift(above, p, c, U64_LIMIT);
    assert Shl64(above, 64 - b) == kept;
    Quotient(x, p, c);
    BitOrDisjoint(kept, x / p, 64 - b);
  }

  /** The limbs of a right shift by fewer than 64 bits. */
  function ShiftedLimb(s: seq<u64>, k: nat, b: nat): int
    requires k < |s| && b < 64
  {
    s[k] / Pow2(b) + if k + 1 < |s| then (s[k + 1] % Pow2(b)) * Pow2(64 - b) else 0
  }

  ghost predicate IsShifted(s: seq<u64>, out: seq<u64>, b: nat)
    requires b < 64
  {
    |out| == |s| && forall k :: 0 <= k < |s| ==> out[k] == ShiftedLimb(s, k, b)
  }

  lemma {:induction false} ShiftedTail(s: seq<u64>, out: seq<u64>, b: nat)
    requires b < 64 && s != [] && IsShifted(s, out, b)
    ensures IsShifted(s[1..], out[1..], b)
  {
    forall k | 0 <= k < |s[1..]|
      ensures out[1..][k] == ShiftedLimb(s[1..], k, b)
    {
      assert out[k + 1] == ShiftedLimb(s, k + 1, b);
    }
  }

  lemma {:induction false} ShiftedValue(s: seq<u64>, out: seq<u64>, b: nat)
    requires b < 64 && IsShifted(s, out, b)
    ensures Value(out) == Value(s) / Pow2(b)
    decreases |s|
  {
    if s == [] {
      DivUnique(0, Pow2(b), 0, 0);
    } else {
      ShiftedTail(s, out, b);
      ShiftedValue(s[1..], out[1..], b);
      JoinedValue(s, b);
      ValueCons(out);
      assert out[0] == ShiftedLimb(s, 0, b);
    }
  }

  lemma {:induction false} JoinedValue(s: seq<u64>, b: nat)
    requires b < 64 && s != []
    ensures Value(s) / Pow2(b) == ShiftedLimb(s, 0, b) + U64_LIMIT * (Value(s[1..]) / Pow2(b))
  {
    var high := Value(s[1..]);
    ValueCons(s);
    ShiftJoined(s[0], high, b);
    LowBits(s[1..], b);
    WordSplit(b);
    SplitProduct(high, Pow2(b), Pow2(64 - b), U64_LIMIT);
  }

  lemma {:induction false} LowBits(s: seq<u64>, b: nat)
    requires b < 64
    ensures Value(s) % Pow2(b) == if s == [] then 0 else s[0] % Pow2(b)
  {
    if s == [] {
      DivUnique(0, Pow2(b), 0, 0);
    } else {
      var x, high, p := s[0], Value(s[1..]), Pow2(b);
      ValueCons(s);
      WordSplit(b);
      ShiftWords(x, high, p, Pow2(64 - b), U64_LIMIT);
      assert Value(s) % p == x % p;
    }
  }

  /** Dropping low limbs divides by their weight. */
  lemma {:induction false} DropLimbs(s: seq<u64>, w: nat, b: nat)
    requires w <= |s|
    ensures Value(s) / Pow2(64 * w + b) == Value(s[w..]) / Pow2(b)
  {
    if w > 0 {
      DropOneLimb(s, 64 * (w - 1) + b);
      assert s[1..][w - 1..] == s[w..];
      DropLimbs(s[1..], w - 1, b);
    } else {
      assert s[0..] == s;
    }
  }

  method Shr(a: Limbs, shift: nat) returns (r: Limbs)
    ensures Value(r) == Value(a) / Pow2(shift)
  {
    if shift >= 256 {
      ShiftedOut(a, shift);
      return UINT_ZERO;
    }
    var wordShift, bitShift := shift / 64, shift % 64;
    ghost var source := a[wordShift..];
    var out: Limbs := UINT_ZERO;
    var dst := 0;
    while dst < 4
      invariant 0 <= dst <= 4
      invariant forall k :: 0 <= k < dst ==> out[k] == if k < |source| then ShiftedLimb(source, k, bitShift) else 0
      invariant forall k :: dst <= k < 4 ==> out[k] == 0
    {
      var src := dst + wordShift;
      if src >= 4 {
        break;
      }
      var limb := Shr64(a[src], bitShift);
      if bitShift != 0 && src + 1 < 4 {
        JoinLimbs(a[src], a[src + 1], bitShift);
        limb := BitOr(limb, Shl64(a[src + 1], 64 - bitShift));
      }
      out := out[dst := limb];
      dst := dst + 1;
    }
    r := out;
    ShrComplete(a, source, out, wordShift, bitShift, shift);
  }

  lemma {:induction false} ShiftedOut(a: Limbs, shift: nat)
    requires shift >= 256
    ensures Value(UINT_ZERO) == Value(a) / Pow2(shift)
  {
    FourBound(a);
    WeightOfFour();
    Pow2Mono(256, shift);
    DivUnique(Value(a), Pow2(shift), 0, Value(a));
    ZeroLimbs(UINT_ZERO, 0);
  }

  lemma {:induction false} ShrComplete(a: Limbs, source: seq<u64>, out: Limbs, w: nat, b: nat, shift: nat)
    requires w < 4 && b < 64 && shift == 64 * w + b && source == a[w..]
    requires IsShifted(source, out[..4 - w], b)
    requires forall k :: 4 - w <= k < 4 ==> out[k] == 0
    ensures Value(out) == Value(a) / Pow2(shift)
  {
    ShiftedValue(source, out[..4 - w], b);
    ZeroLimbs(out, 4 - w);
    DropLimbs(a, w, b);
  }

  // ----- left shift -----

  /** The bit-length guard of a left shift is exactly "the product fits". */
  lemma {:induction false} ShlGuard(v: nat, shift: nat)
    requires v < LIMIT && shift < 256
    ensures BitLength(v) <= 256 - shift <==> v * Pow2(shift) < LIMIT
  {
    var n := BitLength(v);
    BitLengthBounds(v);
    WeightOfFour();
    Pow2Add(256 - shift, shift);
    if n <= 256 - shift {
      Pow2Mono(n, 256 - shift);
      Dominates(v, Pow2(256 - shift), Pow2(shift));
    } else {
      Pow2Mono(256 - shift, n - 1);
      MulLe(Pow2(256 - shift), v, Pow2(shift));
    }
  }

  lemma {:induction false} SmallValue(s: seq<u64>, n: nat)
    requires n <= |s| && Value(s) < Weight(n)
    ensures Value(s[..n]) == Value(s)
  {
    if n == |s| {
      assert s[..n] == s;
    } else {
      var m := |s| - 1;
      var low := s[..m];
      Pow2Mono(64 * n, 64 * m);
      ZeroFactor(Value(low), s[m], Weight(m), Weight(n));
      assert low[..n] == s[..n];
      SmallValue(low, n);
    }
  }

  lemma {:induction false} ZeroFactor(low: nat, x: nat, w: nat, small: nat)
    requires low + x * w < small <= w
    ensures x == 0
  {
    if x > 0 {
      MulLe(1, x, w);
    }
  }

  lemma {:induction false} LowLimbsLe(s: seq<u64>)
    requires s != []
    ensures Value(s[..|s| - 1]) <= Value(s)
  {
    MulLe(0, s[|s| - 1], Weight(|s| - 1));
  }

  lemma {:induction false} PrefixLe(s: seq<u64>, n: nat)
    requires n <= |s|
    ensures Value(s[..n]) <= Value(s)
  {
    if n == |s| {
      assert s[..n] == s;
    } else {
      var m := |s| - 1;
      assert s[..m][..n] == s[..n];
      PrefixLe(s[..m], n);
      LowLimbsLe(s);
    }
  }

  /** One limb shifted left by less than a word: its low part, and what spills into the next limb. */
  lemma {:induction false} SpillOver(x: u64, b: nat)
    requires b < 64
    ensures x * Pow2(b) == Shl64(x, b) + (if b == 0 then 0 else Shr64(x, 64 - b)) * U64_LIMIT
    ensures b > 0 ==> Shr64(x, 64 - b) < Pow2(b)
    ensures Shl64(x, b) % Pow2(b) == 0 && Shl64(x, b) <= U64_LIMIT - Pow2(b)
  {
    var p, c := Pow2(64 - b), Pow2(b);
    WordSplit(64 - b);
    var kept := TruncatedShift(x, p, c, U64_LIMIT);
    SplitProduct(x, p, c, U64_LIMIT);
    Quotient(x, p, c);
    if b == 0 {
      Pow2Words();
      DivUnique(x, U64_LIMIT, 0, x);
    }
  }

  /** State of the left-shift loop after `src` limbs: finished digits below `src + w`, and the spill
      of the last limb already or-ed into position `src + w`. */
  ghost predicate Shifted(a: Limbs, out: Limbs, w: nat, b: nat, src: nat, spill: nat)
    requires src <= 4 && w + src <= 4
  {
    && Value(out[..w + src]) + spill * Weight(w + src) == Value(a[..src]) * Pow2(64 * w + b)
    && spill < Pow2(b)
    && (forall k :: w + src < k < 4 ==> out[k] == 0)
    && (w + src < 4 ==> out[w + src] == spill)
  }

  lemma {:induction false} ShlArithmetic(low: nat, lowA: nat, x: nat, p: nat, ww: nat, wsrc: nat,
                                         spill: nat, digit: nat, spill': nat)
    requires x * p + spill == digit + spill' * U64_LIMIT
    requires low + spill * (ww * wsrc) == lowA * (ww * p)
    ensures (low + digit * (ww * wsrc)) + spill' * (U64_LIMIT * (ww * wsrc)) == (lowA + x * wsrc) * (ww * p)
  {
    var w := ww * wsrc;
    var product := x * p;
    Distribute(product, spill, w);
    Distribute(digit, spill' * U64_LIMIT, w);
    MulAssoc(spill', U64_LIMIT, w);
    Distribute(lowA, x * wsrc, ww * p);
    calc {
      (x * wsrc) * (ww * p);
      { MulAssoc(x * wsrc, ww, p); }
      ((x * wsrc) * ww) * p;
      { MulAssoc(x, wsrc, ww); }
      (x * w) * p;
      { MulAssoc(p, x, w); }
      product * w;
    }
  }

  /** One turn of the left-shift loop: or the low part in place, and the spill into the next limb. */
  function ShlTurn(a: Limbs, out: seq<nat>, w: nat, b: nat, src: nat): (out': seq<nat>)
    requires src < 4 && w + src < 4 && b < 64 && |out| == 4
  {
    var d := w + src;
    var first := out[d := BitOr(out[d], Shl64(a[src], b))];
    if b != 0 && d + 1 < 4 then first[d + 1 := BitOr(out[d + 1], Shr64(a[src], 64 - b))] else first
  }

  lemma {:induction false} ShlDigit(a: Limbs, out: Limbs, w: nat, b: nat, src: nat, spill: nat)
    returns (digit: u64, spill': nat)
    requires src < 4 && w + src < 4 && b < 64
    requires Shifted(a, out, w, b, src, spill)
    ensures digit == BitOr(out[w + src], Shl64(a[src], b))
    ensures spill' == (if b == 0 then 0 else Shr64(a[src], 64 - b)) && spill' < Pow2(b)
    ensures a[src] * Pow2(b) + spill == digit + spill' * U64_LIMIT
  {
    SpillOver(a[src], b);
    spill' := if b == 0 then 0 else Shr64(a[src], 64 - b);
    BitOrDisjoint(Shl64(a[src], b), spill, b);
    digit := Shl64(a[src], b) + spill;
  }

  lemma {:induction false} ShlColumn(a: Limbs, out: Limbs, w: nat, b: nat, src: nat, spill: nat)
    returns (out': Limbs, spill': nat)
    requires src < 4 && w + src < 4 && b < 64
    requires Shifted(a, out, w, b, src, spill)
    ensures out' == ShlTurn(a, out, w, b, src)
    ensures Shifted(a, out', w, b, src + 1, spill')
  {
    var d := w + src;
    var digit;
    digit, spill' := ShlDigit(a, out, w, b, src, spill);
    BitOrZero(spill');
    Pow2Mono(b, 64);
    Pow2Words();
    out' := StoreSpill(out, d, digit, spill');
    ShlValue(a, out, out', w, b, src, spill, digit, spill');
  }

  lemma {:induction false} StoreSpill(out: Limbs, d: nat, digit: u64, spill: u64) returns (out': Limbs)
    requires d < 4 && forall k :: d < k < 4 ==> out[k] == 0
    ensures out'[..d] == out[..d] && out'[d] == digit
    ensures forall k :: d + 1 < k < 4 ==> out'[k] == 0
    ensures d + 1 < 4 ==> out'[d + 1] == spill
    ensures out' == if d + 1 < 4 then out[d := digit][d + 1 := spill] else out[d := digit]
  {
    out' := out[d := digit];
    if d + 1 < 4 {
      out' := out'[d + 1 := spill];
    }
  }

  lemma {:induction false} ShlValue(a: Limbs, out: Limbs, out': Limbs, w: nat, b: nat, src: nat, spill: nat,
                                    digit: u64, spill': nat)
    requires src < 4 && w + src < 4 && out'[..w + src] == out[..w + src] && out'[w + src] == digit
    requires a[src] * Pow2(b) + spill == digit + spill' * U64_LIMIT
    requires Value(out[..w + src]) + spill * Weight(w + src) == Value(a[..src]) * Pow2(64 * w + b)
    ensures Value(out'[..w + src + 1]) + spill' * Weight(w + src + 1) == Value(a[..src + 1]) * Pow2(64 * w + b)
  {
    ValuePrefix(a, src);
    ValuePrefix(out', w + src);
    ShlSum(Value(out[..w + src]), Value(a[..src]), a[src], w, b, src, spill, digit, spill');
  }

  lemma {:induction false} ShlSum(low: nat, lowA: nat, x: nat, w: nat, b: nat, src: nat,
                                  spill: nat, digit: nat, spill': nat)
    requires x * Pow2(b) + spill == digit + spill' * U64_LIMIT
    requires low + spill * Weight(w + src) == lowA * Pow2(64 * w + b)
    ensures (low + digit * Weight(w + src)) + spill' * Weight(w + src + 1)
         == (lowA + x * Weight(src)) * Pow2(64 * w + b)
  {
    ShlWeights(w, b, src);
    ShlArithmetic(low, lowA, x, Pow2(b), Weight(w), Weight(src), spill, digit, spill');
  }

  lemma {:induction false} ShlWeights(w: nat, b: nat, src: nat)
    ensures Weight(w + src) == Weight(w) * Weight(src)
    ensures Weight(w + src + 1) == U64_LIMIT * (Weight(w) * Weight(src))
    ensures Pow2(64 * w + b) == Weight(w) * Pow2(b)
  {
    Pow2Add(64 * w, 64 * src);
    Pow2Add(64 * w, b);
    WeightStep(w + src);
  }

  method CheckedShl(a: Limbs, shift: nat) returns (r: Option<Limbs>)
    ensures r.Some? <==> Value(a) * Pow2(shift) < LIMIT
    ensures r.Some? ==> Value(r.value) == Value(a) * Pow2(shift)
  {
    FourBound(a);
    if shift >= 256 {
      var zero := IsZero(a);
      WideShift(Value(a), shift);
      ZeroLimbs(UINT_ZERO, 0);
      return if zero then Some(UINT_ZERO) else None;
    }
    var length := BitLen(a);
    ShlGuard(Value(a), shift);
    if shift != 0 && length > 256 - shift {
      return None;
    }
    ShlGuardZero(Value(a), shift);
    var out := ShlLimbs(a, shift);
    return Some(out);
  }

  lemma {:induction false} WideShift(v: nat, shift: nat)
    requires shift >= 256
    ensures v * Pow2(shift) < LIMIT <==> v == 0
  {
    WeightOfFour();
    Pow2Mono(256, shift);
    if v > 0 {
      MulLe(1, v, Pow2(shift));
    }
  }

  /** The word-and-bit loop of the left shift, once the guard has ruled out a loss. */
  method ShlLimbs(a: Limbs, shift: nat) returns (out: Limbs)
    requires shift < 256 && Value(a) * Pow2(shift) < LIMIT
    ensures Value(out) == Value(a) * Pow2(shift)
  {
    var wordShift, bitShift := shift / 64, shift % 64;
    out := UINT_ZERO;
    ghost var spill := 0;
    ShlStart(a, wordShift, bitShift);
    var src := 0;
    while src < 4
      invariant 0 <= src <= 4 && wordShift + src <= 4
      invariant Shifted(a, out, wordShift, bitShift, src, spill)
    {
      var dst := src + wordShift;
      if dst >= 4 {
        break;
      }
      ghost var after;
      after, spill := ShlColumn(a, out, wordShift, bitShift, src, spill);
      var turned := ShlRound(a, out, wordShift, bitShift, src);
      assert turned == after;
      out := turned;
      src := src + 1;
    }
    ShlComplete(a, out, wordShift, bitShift, shift, src, spill);
  }

  /** One round of the loop: the limb's low part joins its own position, the rest the next one. */
  method ShlRound(a: Limbs, out: Limbs, w: nat, b: nat, src: nat) returns (wide: seq<nat>)
    requires src < 4 && w + src < 4 && b < 64
    ensures wide == ShlTurn(a, out, w, b, src)
  {
    var dst := src + w;
    wide := out;
    wide := wide[dst := BitOr(wide[dst], Shl64(a[src], b))];
    if b != 0 && dst + 1 < 4 {
      wide := wide[dst + 1 := BitOr(wide[dst + 1], Shr64(a[src], 64 - b))];
    }
  }

  lemma {:induction false} ShlStart(a: Limbs, w: nat, b: nat)
    requires w < 4
    ensures Shifted(a, UINT_ZERO, w, b, 0, 0)
  {
    ZeroLimbs(UINT_ZERO[..w], 0);
    assert a[..0] == [];
  }

  lemma {:induction false} ShlGuardZero(v: nat, shift: nat)
    requires v < LIMIT && shift < 256 && (shift == 0 || v * Pow2(shift) < LIMIT)
    ensures v * Pow2(shift) < LIMIT
  {
  }

  lemma {:induction false} ShlComplete(a: Limbs, out: Limbs, w: nat, b: nat, shift: nat, src: nat, spill: nat)
    requires w + src == 4 && b < 64 && shift == 64 * w + b && Shifted(a, out, w, b, src, spill)
    requires Value(a) * Pow2(shift) < LIMIT
    ensures Value(out) == Value(a) * Pow2(shift)
  {
    if Value(a) >= Weight(src) {
      TooBig(Value(a), w, b, src);
      assert false;
    }
    SmallValue(a, src);
    WholeIsPrefix(out);
    ZeroFactor(Value(out), spill, LIMIT, LIMIT);
  }

  lemma {:induction false} TooBig(v: nat, w: nat, b: nat, src: nat)
    requires w + src == 4 && v >= Weight(src)
    ensures v * Pow2(64 * w + b) >= LIMIT
  {
    var q := Pow2(64 * w + b);
    WeightOfFour();
    Pow2Add(64 * w + b, 64 * src);
    Pow2Mono(256, 64 * w + b + 64 * src);
    MulLe(Weight(src), v, q);
  }

  method IsZero(a: Limbs) returns (zero: bool)
    ensures zero <==> Value(a) == 0
  {
    ExpandFour(a);
    return a[0] == 0 && a[1] == 0 && a[2] == 0 && a[3] == 0;
  }

  // ----- long division -----

  lemma {:induction false} OrOneBit(x: nat, j: nat)
    ensures BitOr(x, Pow2(j)) == x + if (x / Pow2(j)) % 2 == 1 then 0 else Pow2(j)
  {
    if j == 0 {
      BitOrZero(x / 2);
    } else {
      OrOneBit(x / 2, j - 1);
      DivDiv(x, 2, Pow2(j - 1));
    }
  }

  lemma {:induction false} LimbUpdate(s: seq<u64>, i: nat, x: u64)
    requires i < |s|
    ensures Value(s[i := x]) + s[i] * Weight(i) == Value(s) + x * Weight(i)
  {
    var t, n := s[i := x], |s| - 1;
    if i == n {
      assert t[..n] == s[..n];
    } else {
      assert t[..n] == s[..n][i := x];
      LimbUpdate(s[..n], i, x);
    }
  }

  lemma {:induction false} OneBit(j: nat)
    requires j < 64
    ensures Shl64(1, j) == Pow2(j) < U64_LIMIT
  {
    Pow2Words();
    Pow2Mono(j + 1, 64);
  }

  lemma {:induction false} OrBelow(x: nat, y: nat, n: nat)
    requires x < Pow2(n) && y < Pow2(n)
    ensures BitOr(x, y) < Pow2(n)
    decreases n
  {
    if n > 0 {
      OrBelow(x / 2, y / 2, n - 1);
    }
  }

  /** Setting a bit adds its weight unless it was already there. */
  method SetBit(a: Limbs, bit: nat) returns (r: Limbs)
    requires bit < 256
    ensures Value(r) == Value(a) + if (Value(a) / Pow2(bit)) % 2 == 1 then 0 else Pow2(bit)
  {
    var i, j := bit / 64, bit % 64;
    OneBit(j);
    Pow2Words();
    OrBelow(a[i], Pow2(j), 64);
    r := a[i := BitOr(a[i], Shl64(1, j))];
    SetBitValue(a, r, i, j, bit);
  }

  lemma {:induction false} SetBitValue(a: Limbs, r: Limbs, i: nat, j: nat, bit: nat)
    requires i < 4 && j < 64 && bit == 64 * i + j
    requires BitOr(a[i], Pow2(j)) < U64_LIMIT && r == a[i := BitOr(a[i], Pow2(j))]
    ensures Value(r) == Value(a) + if (Value(a) / Pow2(bit)) % 2 == 1 then 0 else Pow2(bit)
  {
    var isSet := (Value(a) / Pow2(bit)) % 2 == 1;
    LimbUpdate(a, i, r[i]);
    OrOneBit(a[i], j);
    BitInsideLimb(a, i, j, bit);
    Pow2Add(j, 64 * i);
    BitAdded(Value(a), Value(r), a[i], r[i], Pow2(j), Weight(i), Pow2(bit), isSet);
  }

  lemma {:induction false} BitAdded(v: nat, v': nat, x: nat, x': nat, p: nat, w: nat, weight: nat, isSet: bool)
    requires v' + x * w == v + x' * w && x' == x + (if isSet then 0 else p) && weight == p * w
    ensures v' == v + if isSet then 0 else weight
  {
    Distribute(x, p, w);
  }

  /** The remainder buffer shifted left by one, a new bit coming in at the bottom. */
  method ShiftIn(buffer: array<u64>, bit: nat)
    requires buffer.Length == 5 && bit <= 1
    requires 2 * Value(buffer[..]) + bit < Weight(5)
    modifies buffer
    ensures Value(buffer[..]) == 2 * old(Value(buffer[..])) + bit
  {
    ghost var was := buffer[..];
    var carry: u64 := bit;
    AddStart(was, was, was, carry);
    for i := 0 to 5
      invariant carry <= 1 && buffer[i..] == was[i..]
      invariant Value(buffer[..][..i]) + carry * Weight(i) == Value(was[..i]) + Value(was[..i]) + bit
    {
      ghost var before := buffer[..];
      var limb, next := ShiftWord(buffer[i], carry);
      ShiftInColumn(was, before, i, carry, limb, next, bit);
      buffer[i] := limb;
      assert buffer[..] == before[i := limb];
      assert buffer[i + 1..] == before[i + 1..] == was[i..][1..];
      carry := next;
    }
    assert buffer[..][..5] == buffer[..] && was[..5] == was;
    ZeroFactor(Value(buffer[..]), carry, Weight(5), Weight(5));
  }

  lemma {:induction false} AddStart(a: seq<u64>, b: seq<u64>, out: seq<u64>, carry: nat)
    requires |a| == |b| == |out|
    ensures Value(out[..0]) + carry * Weight(0) == Value(a[..0]) + Value(b[..0]) + carry
  {
    WeightStep(0);
  }

  method ShiftWord(x: u64, carry: u64) returns (limb: u64, next: u64)
    requires carry <= 1
    ensures x as int + x + carry == limb + next * U64_LIMIT && next <= 1
  {
    ShiftedWord(x, carry);
    next := Shr64(x, 63);
    limb := BitOr(Shl64(x, 1), carry);
  }

  lemma {:induction false} ShiftedWord(x: u64, carry: nat)
    requires carry <= 1
    ensures BitOr(Shl64(x, 1), carry) == Shl64(x, 1) + carry < U64_LIMIT
    ensures x + x + carry == Shl64(x, 1) + carry + Shr64(x, 63) * U64_LIMIT
    ensures Shr64(x, 63) <= 1
  {
    assert Pow2(1) == 2 * Pow2(0) == 2;
    SpillOver(x, 1);
    var high, low := Shr64(x, 63), Shl64(x, 1);
    assert x * 2 == low + high * U64_LIMIT && low <= U64_LIMIT - 2 && high < 2;
    BitOrDisjoint(low, carry, 1);
  }

  lemma {:induction false} ShiftInColumn(was: seq<u64>, before: seq<u64>, i: nat, carry: nat, limb: u64, next: nat, bit: nat)
    requires i < |was| == |before| && was[i] as int + was[i] + carry == limb + next * U64_LIMIT
    requires Value(before[..i]) + carry * Weight(i) == Value(was[..i]) + Value(was[..i]) + bit
    ensures Value(before[i := limb][..i + 1]) + next * Weight(i + 1)
         == Value(was[..i + 1]) + Value(was[..i + 1]) + bit
  {
    var out := before[i := limb];
    assert out[..i] == before[..i];
    ValuePrefix(out, i);
    ValuePrefix(was, i);
    WeightStep(i);
    ShiftArithmetic(Value(before[..i]), Value(was[..i]), was[i], carry, limb, next, Weight(i), bit);
  }

  lemma {:induction false} ShiftArithmetic(low: nat, lowA: nat, x: nat, carry: nat, sum: nat, carry': nat, w: nat, bit: nat)
    requires x + x + carry == sum + carry' * U64_LIMIT
    requires low + carry * w == lowA + lowA + bit
    ensures (low + sum * w) + carry' * (U64_LIMIT * w) == (lowA + x * w) + (lowA + x * w) + bit
  {
    Distribute(x, x, w);
    Distribute(x + x, carry, w);
    Distribute(sum, carry' * U64_LIMIT, w);
    MulAssoc(carry', U64_LIMIT, w);
  }

  /** In-place subtraction; the caller has compared first, so no borrow is left at the end. */
  method Subtract(lhs: array<u64>, rhs: seq<u64>)
    requires lhs.Length == |rhs| == 5 && Value(rhs) <= Value(lhs[..])
    modifies lhs
    ensures Value(lhs[..]) == old(Value(lhs[..])) - Value(rhs)
  {
    ghost var was := lhs[..];
    var borrow := false;
    AddStart(was, rhs, was, 0);
    for i := 0 to 5
      invariant lhs[i..] == was[i..]
      invariant Value(was[..i]) + (if borrow then 1 else 0) * Weight(i) == Value(lhs[..][..i]) + Value(rhs[..i])
    {
      ghost var before := lhs[..];
      var difference, borrow' := SubWithBorrow(lhs[i], rhs[i], borrow);
      lhs[i] := difference;
      assert lhs[..] == before[i := difference] && lhs[..][..i] == before[..i] && was[i := was[i]] == was;
      AddColumn(lhs[..], rhs, was, i, if borrow then 1 else 0, was[i], if borrow' then 1 else 0);
      borrow := borrow';
    }
    assert lhs[..][..5] == lhs[..] && was[..5] == was && rhs[..5] == rhs;
    ValueBound(lhs[..]);
    if borrow {
      assert false;
    }
  }

  /** Two `overflowing_sub` calls in a row. */
  method SubWithBorrow(x: u64, y: u64, borrowIn: bool) returns (difference: u64, borrowOut: bool)
    ensures difference as int + y + (if borrowIn then 1 else 0) == x + (if borrowOut then U64_LIMIT else 0)
  {
    var exact: int := x as int - y;
    var first: u64 := exact % U64_LIMIT;
    var firstBorrow := exact < 0;
    var again: int := first as int - if borrowIn then 1 else 0;
    difference := again % U64_LIMIT;
    borrowOut := firstBorrow || again < 0;
  }

  lemma {:induction false} NextBit(n: nat, bit: nat)
    ensures n / Pow2(bit) == 2 * (n / Pow2(bit + 1)) + (n / Pow2(bit)) % 2
  {
    DivDiv(n, Pow2(bit), 2);
  }

  /** Long division of `v` by `d` with the low `bit` bits of `v` still to come in: partial quotient
      `high`, held in the quotient limbs as `q`, and remainder `r`. */
  ghost predicate Divided(v: nat, d: nat, bit: nat, high: nat, r: nat, q: nat) {
    r < d && v / Pow2(bit) == high * d + r && q == high * Pow2(bit)
  }

  lemma {:induction false} DivisionStep(v: nat, d: nat, bit: nat, high: nat, r: nat, q: nat) returns (r': nat)
    requires Divided(v, d, bit + 1, high, r, q)
    ensures r' == 2 * r + (v / Pow2(bit)) % 2 && r' < 2 * d
    ensures r' < d ==> Divided(v, d, bit, 2 * high, r', q)
    ensures r' >= d ==> Divided(v, d, bit, 2 * high + 1, r' - d, q + Pow2(bit))
    ensures (q / Pow2(bit)) % 2 == 0
  {
    r' := 2 * r + (v / Pow2(bit)) % 2;
    NextBit(v, bit);
    MulAssoc(2, high, d);
    MulAssoc(2, high, Pow2(bit));
    Distribute(2 * high, 1, d);
    Distribute(2 * high, 1, Pow2(bit));
    DivUnique(q, Pow2(bit), 2 * high, 0);
  }

  /** One step of the division: bring bit `bit` down, subtract the divisor if it fits. */
  method DivideBit(numerator: Limbs, divisor: seq<u64>, remainder: array<u64>, quotient: Limbs, bit: nat, ghost high: nat)
    returns (quotient': Limbs, ghost high': nat)
    requires bit < 256 && remainder.Length == |divisor| == 5 && 2 * Value(divisor) < Weight(5)
    requires Divided(Value(numerator), Value(divisor), bit + 1, high, Value(remainder[..]), Value(quotient))
    modifies remainder
    ensures Divided(Value(numerator), Value(divisor), bit, high', Value(remainder[..]), Value(quotient'))
  {
    ghost var r := DivisionStep(Value(numerator), Value(divisor), bit, high, Value(remainder[..]), Value(quotient));
    BitValue(numerator, bit);
    ShiftIn(remainder, if Bit(numerator, bit) then 1 else 0);
    assert Value(remainder[..]) == r;
    var order := CompareLimbs(remainder[..], divisor);
    if order != Less {
      Subtract(remainder, divisor);
      quotient' := SetBit(quotient, bit);
      high' := 2 * high + 1;
    } else {
      quotient' := quotient;
      high' := 2 * high;
    }
  }

  /** The 256-step shift-and-subtract division with a five-limb remainder. */
  method Div(numerator: Limbs, denominator: Limbs) returns (r: Option<Limbs>)
    ensures r.Some? <==> Value(denominator) != 0
    ensures r.Some? ==> Value(r.value) == Value(numerator) / Value(denominator)
  {
    var zero := IsZero(denominator);
    if zero {
      return None;
    }
    var remainder := new u64[5](_ => 0);
    var divisor: seq<u64> := denominator + [0];
    var quotient: Limbs := UINT_ZERO;
    ghost var high: nat := 0;
    FiveLimbs(denominator);
    DivisionStart(numerator, denominator, remainder[..]);
    for bit := 256 downto 0
      invariant Divided(Value(numerator), Value(denominator), bit, high, Value(remainder[..]), Value(quotient))
    {
      quotient, high := DivideBit(numerator, divisor, remainder, quotient, bit, high);
    }
    DivisionEnd(Value(numerator), Value(denominator), high, Value(remainder[..]), Value(quotient));
    return Some(quotient);
  }

  lemma {:induction false} DivisionEnd(v: nat, d: nat, high: nat, r: nat, q: nat)
    requires Divided(v, d, 0, high, r, q)
    ensures d > 0 && q == v / d
  {
    DivUnique(v, d, high, r);
  }

  lemma {:induction false} FiveLimbs(a: Limbs)
    ensures Value(a + [0]) == Value(a)
    ensures 2 * Value(a) < Weight(5)
  {
    assert (a + [0])[..4] == a;
    FourBound(a);
    WeightOfFour();
    WeightStep(4);
  }

  lemma {:induction false} DivisionStart(numerator: Limbs, denominator: Limbs, remainder: seq<u64>)
    requires |remainder| == 5 && forall k :: 0 <= k < 5 ==> remainder[k] == 0
    requires Value(denominator) > 0
    ensures Divided(Value(numerator), Value(denominator), 256, 0, Value(remainder), Value(UINT_ZERO))
  {
    ZeroLimbs(remainder, 0);
    ZeroLimbs(UINT_ZERO, 0);
    FourBound(numerator);
    WeightOfFour();
    DivUnique(Value(numerator), Pow2(256), 0, Value(numerator));
  }
}
