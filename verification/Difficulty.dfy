/**
 * Compact difficulty bits and exact block proof (crates/usdd-bitcoin-bmm/src/lib.rs): the limb
 * algorithms against what the bits mean as numbers.
 */
module Difficulty {
  import opened Machine
  import opened Uint256

  datatype CompactTargetError = Negative | Zero | Overflow | AbovePowLimit

  const SIGN: nat := 0x80_0000
  const EXPONENT: nat := 0x100_0000

  function Up(v: nat, k: nat): (r: nat)
    ensures r >= v
  {
    MulLe(1, Pow2(k), v);
    v * Pow2(k)
  }

  function Down(v: nat, k: nat): (r: nat)
    ensures r <= v
  {
    Quo(v, Pow2(k))
  }

  // ----- what compact bits denote -----

  /** The number written as base-256 floating point: mantissa times 256^(size - 3), rounded down. */
  function Magnitude(bits: u32): nat {
    var size := bits / EXPONENT;
    if size <= 3 then Down(bits % SIGN, 8 * (3 - size)) else Up(bits % SIGN, 8 * (size - 3))
  }

  predicate SignBit(bits: u32) {
    bits / SIGN % 2 == 1
  }

  /** Validation by meaning alone: no exponent table, only the denoted number. */
  function Decode(bits: u32, powLimit: nat): Result<nat, CompactTargetError> {
    var target := Magnitude(bits);
    if target == 0 then Err(Zero)
    else if SignBit(bits) then Err(Negative)
    else if target >= LIMIT then Err(Overflow)
    else if target > powLimit then Err(AbovePowLimit)
    else Ok(target)
  }

  /** The size byte: the fewest base-256 digits that leave the sign bit of the mantissa clear. */
  function Size(v: nat): nat {
    if v == 0 then 0 else BitLength(v) / 8 + 1
  }

  /** Everything below this unit is lost by compact encoding. */
  function Unit(v: nat): (u: nat)
    ensures u > 0
  {
    if Size(v) <= 3 then 1 else Pow2(8 * (Size(v) - 3))
  }

  function Mantissa(v: nat): nat {
    if Size(v) <= 3 then Up(v, 8 * (3 - Size(v))) else Down(v, 8 * (Size(v) - 3))
  }

  function Compact(v: nat): nat {
    Mantissa(v) + Size(v) * EXPONENT
  }

  function Rounded(v: nat): nat {
    v / Unit(v) * Unit(v)
  }

  // ----- bit lengths under shifts -----

  lemma {:induction false} BitLengthUp(v: nat, k: nat)
    requires v > 0
    ensures BitLength(Up(v, k)) == BitLength(v) + k
  {
    var n := BitLength(v);
    BitLengthBounds(v);
    MulLe(Pow2(n - 1), v, Pow2(k));
    Dominates(v, Pow2(n), Pow2(k));
    Pow2Add(n - 1, k);
    Pow2Add(n, k);
    BitLengthUnique(Up(v, k), n + k);
  }

  lemma {:induction false} HalveFirst(v: nat, k: nat)
    requires k > 0
    ensures Down(v, k) == Down(v / 2, k - 1)
  {
    DivDiv(v, 2, Pow2(k - 1));
  }

  lemma {:induction false} BitLengthDown(v: nat, k: nat)
    ensures BitLength(Down(v, k)) == if BitLength(v) <= k then 0 else BitLength(v) - k
    decreases k
  {
    if k == 0 {
      assert Down(v, 0) == v;
    } else {
      HalveFirst(v, k);
      BitLengthDown(v / 2, k - 1);
    }
  }

  lemma {:induction false} BitLengthMono(a: nat, b: nat)
    requires a <= b
    ensures BitLength(a) <= BitLength(b)
  {
    if a > 0 {
      BitLengthMono(a / 2, b / 2);
    }
  }

  lemma {:induction false} BitLengthBelow(v: nat, n: nat)
    requires v < Pow2(n)
    ensures BitLength(v) <= n
  {
    BitLengthBounds(v);
    if BitLength(v) > n {
      Pow2Mono(n, BitLength(v) - 1);
    }
  }

  // ----- encoding -----

  lemma {:induction false} MantissaLength(v: nat)
    requires v > 0
    ensures 16 <= BitLength(Mantissa(v)) <= 23
  {
    if Size(v) <= 3 {
      BitLengthUp(v, 8 * (3 - Size(v)));
    } else {
      BitLengthDown(v, 8 * (Size(v) - 3));
    }
  }

  /** A nonzero mantissa has 16 to 23 bits. */
  lemma {:induction false} MantissaRange(v: nat)
    requires v > 0
    ensures 0x8000 <= Mantissa(v) < SIGN
  {
    var m := Mantissa(v);
    MantissaLength(v);
    BitLengthBounds(m);
    Pow2Mono(15, BitLength(m) - 1);
    Pow2Mono(BitLength(m), 23);
    PowersNeeded();
  }

  lemma {:induction false} PowersNeeded()
    ensures Pow2(15) == 0x8000 && Pow2(23) == SIGN && Pow2(24) == EXPONENT
  {
    Pow2Words();
    Pow2Add(15, 1);
    Pow2Add(16, 7);
    Pow2Add(16, 8);
    assert Pow2(1) == 2 * Pow2(0);
    Pow2Add(7, 1);
  }

  lemma {:induction false} SizeBound(v: nat)
    requires v < LIMIT
    ensures BitLength(v) <= 256 && Size(v) <= 33
  {
    WeightOfFour();
    BitLengthBelow(v, 256);
  }

  lemma {:induction false} CompactFits(v: nat)
    requires 0 < v < LIMIT
    ensures Compact(v) <= U32_MAX
    ensures Compact(v) / EXPONENT == Size(v) && Compact(v) % SIGN == Mantissa(v) && !SignBit(Compact(v))
  {
    SizeBound(v);
    MantissaRange(v);
    SplitBits(Mantissa(v), Size(v));
  }

  lemma {:induction false} SplitBits(m: nat, size: nat)
    requires m < SIGN && size <= 33
    ensures var bits := m + size * EXPONENT;
      bits <= U32_MAX && bits / EXPONENT == size && bits % SIGN == m && bits / SIGN % 2 == 0
  {
    var bits := m + size * EXPONENT;
    DivUnique(bits, EXPONENT, size, m);
    DivUnique(bits, SIGN, 2 * size, m);
  }

  lemma {:induction false} LowLimb(a: Limbs)
    requires Value(a) < U64_LIMIT
    ensures a[0] == Value(a)
  {
    ExpandFour(a);
    assert a[1] + U64_LIMIT * (a[2] + U64_LIMIT * a[3]) == 0;
  }

  /** The top three bytes of a number, left-aligned in 24 bits. */
  function Raw(v: nat, size: nat): nat {
    if size <= 3 then Up(v, 8 * (3 - size)) else Down(v, 8 * (size - 3))
  }

  lemma {:induction false} RawLength(v: nat, size: nat)
    requires size == (BitLength(v) + 7) / 8
    ensures v > 0 ==> BitLength(Raw(v, size)) == BitLength(v) + 24 - 8 * size
    ensures Raw(v, size) < EXPONENT
    ensures Raw(v, size) >= SIGN <==> v > 0 && BitLength(v) == 8 * size
  {
    var raw := Raw(v, size);
    PowersNeeded();
    if v > 0 {
      if size <= 3 {
        BitLengthUp(v, 8 * (3 - size));
      } else {
        BitLengthDown(v, 8 * (size - 3));
      }
      BitLengthBounds(raw);
      Pow2Mono(BitLength(raw), 24);
      if BitLength(raw) < 24 {
        Pow2Mono(BitLength(raw), 23);
      }
    }
  }

  /** Testing the sign bit of the raw mantissa, and moving one byte over when it is set. */
  lemma {:induction false} Normalised(v: nat, size: nat)
    requires size == (BitLength(v) + 7) / 8
    ensures Raw(v, size) < EXPONENT
    ensures Raw(v, size) / SIGN % 2 != 0 ==> Raw(v, size) / 0x100 == Mantissa(v) && Size(v) == size + 1
    ensures Raw(v, size) / SIGN % 2 == 0 ==> Raw(v, size) == Mantissa(v) && Size(v) == size
  {
    RawLength(v, size);
    var raw := Raw(v, size);
    if raw >= SIGN {
      DivUnique(raw, SIGN, 1, raw - SIGN);
      NextByte(v, size);
    } else {
      DivUnique(raw, SIGN, 0, raw);
    }
  }

  lemma {:induction false} NextByte(v: nat, size: nat)
    requires v > 0 && BitLength(v) == 8 * size
    ensures Raw(v, size) / 0x100 == Raw(v, size + 1)
  {
    if size <= 2 {
      UpByte(v, 8 * (2 - size));
    } else if size == 3 {
      DownByte(v, 0);
      assert Up(v, 0) == v == Down(v, 0);
    } else {
      DownByte(v, 8 * (size - 3));
    }
  }

  lemma {:induction false} UpByte(v: nat, k: nat)
    ensures Up(v, k + 8) / 0x100 == Up(v, k)
  {
    var p := Pow2(k);
    Pow2Words();
    Pow2Add(k, 8);
    MulAssoc(v, p, 0x100);
    DivUnique(v * (p * 0x100), 0x100, v * p, 0);
  }

  lemma {:induction false} DownByte(v: nat, k: nat)
    ensures Down(v, k) / 0x100 == Down(v, k + 8)
  {
    Pow2Words();
    Pow2Add(k, 8);
    DivDiv(v, Pow2(k), 0x100);
  }

  lemma {:induction false} ShiftedFits(v: nat, size: nat)
    requires size == (BitLength(v) + 7) / 8 && size <= 3
    ensures v < EXPONENT && Up(v, 8 * (3 - size)) < EXPONENT
  {
    RawLength(v, size);
    MulLe(1, Pow2(8 * (3 - size)), v);
  }

  /** `to_compact`, with its raw 24-bit mantissa and the sign-bit correction. */
  method ToCompact(a: Limbs) returns (bits: u32)
    ensures bits == Compact(Value(a))
  {
    var length := BitLen(a);
    var size := (length + 7) / 8;
    ghost var v := Value(a);
    Normalised(v, size);
    var compact := TopBytes(a, size);
    if compact / SIGN % 2 != 0 {
      compact := compact / 0x100;
      size := size + 1;
    }
    FourBound(a);
    bits := Assemble(v, compact, size);
  }

  /** The low word of the shifted number, truncated to 32 bits without loss. */
  method TopBytes(a: Limbs, size: nat) returns (compact: nat)
    requires size == (BitLength(Value(a)) + 7) / 8
    ensures compact == Raw(Value(a), size)
  {
    if size <= 3 {
      SmallTop(a, size);
      compact := Shl64(a[0], 8 * (3 - size)) % 0x1_0000_0000;
    } else {
      var top := Shr(a, 8 * (size - 3));
      LargeTop(Value(a), top, size);
      compact := top[0] % 0x1_0000_0000;
    }
  }

  lemma {:induction false} SmallTop(a: Limbs, size: nat)
    requires size == (BitLength(Value(a)) + 7) / 8 && size <= 3
    ensures Shl64(a[0], 8 * (3 - size)) % 0x1_0000_0000 == Up(Value(a), 8 * (3 - size))
  {
    ShiftedFits(Value(a), size);
    LowLimb(a);
    NoTruncation(a[0], 8 * (3 - size));
  }

  lemma {:induction false} LargeTop(v: nat, top: Limbs, size: nat)
    requires size == (BitLength(v) + 7) / 8 && size > 3
    requires Value(top) == v / Pow2(8 * (size - 3))
    ensures top[0] % 0x1_0000_0000 == Raw(v, size)
  {
    RawLength(v, size);
    LowLimb(top);
  }

  lemma {:induction false} NoTruncation(x: u64, k: nat)
    requires Up(x, k) < EXPONENT
    ensures Shl64(x, k) % 0x1_0000_0000 == Up(x, k)
  {
  }

  method Assemble(ghost v: nat, compact: nat, size: nat) returns (bits: u32)
    requires v < LIMIT && compact == Mantissa(v) && size == Size(v)
    ensures bits == Compact(v)
  {
    CompactParts(v);
    var high := (size * EXPONENT) % 0x1_0000_0000;
    DivUnique(high, EXPONENT, size, 0);
    PowersNeeded();
    BitOrDisjoint(high, compact, 24);
    bits := BitOr(compact, high);
  }

  lemma {:induction false} CompactParts(v: nat)
    requires v < LIMIT
    ensures Mantissa(v) < SIGN && Size(v) <= 33 && Compact(v) <= U32_MAX
  {
    SizeBound(v);
    if v > 0 {
      MantissaRange(v);
    }
  }

  // ----- decoding -----

  lemma {:induction false} ByteLength(x: nat, bytes: nat)
    ensures x >= Pow2(8 * bytes) <==> BitLength(x) > 8 * bytes
  {
    BitLengthBounds(x);
    if BitLength(x) > 8 * bytes {
      Pow2Mono(8 * bytes, BitLength(x) - 1);
    } else {
      Pow2Mono(BitLength(x), 8 * bytes);
    }
  }

  /** The exponent table tests exactly whether the denoted number fits 256 bits. */
  lemma {:induction false} OverflowTest(word: nat, size: nat)
    requires word < SIGN && size > 3
    ensures Up(word, 8 * (size - 3)) >= LIMIT
       <==> word != 0 && (size > 34 || (word > 0xff && size > 33) || (word > 0xffff && size > 32))
  {
    if word != 0 {
      BitLengthUp(word, 8 * (size - 3));
      ByteLength(Up(word, 8 * (size - 3)), 32);
      WeightOfFour();
      Pow2Words();
      ByteLength(word, 1);
      ByteLength(word, 2);
      PowersNeeded();
      BitLengthBelow(word, 23);
      assert BitLength(word) > 0;
    }
  }

  lemma {:induction false} OneLimb(x: u64)
    ensures Value([x, 0, 0, 0]) == x
  {
    ExpandFour([x, 0, 0, 0]);
  }

  method Expand(word: nat, size: nat) returns (r: Option<Limbs>)
    requires word < SIGN
    ensures r.Some? <==> size <= 3 || Up(word, 8 * (size - 3)) < LIMIT
    ensures r.Some? ==> Value(r.value) == if size <= 3 then word else Up(word, 8 * (size - 3))
  {
    OneLimb(word);
    if size <= 3 {
      return Some([word, 0, 0, 0]);
    }
    r := CheckedShl([word, 0, 0, 0], 8 * (size - 3));
  }

  /** The sign and exponent tests, and the shift, which they leave nothing to refuse. */
  method ExpandBits(bits: u32) returns (r: Result<Limbs, CompactTargetError>)
    ensures r.Err? <==> Magnitude(bits) > 0 && (SignBit(bits) || Magnitude(bits) >= LIMIT)
    ensures r.Err? ==> r.error == if SignBit(bits) then Negative else Overflow
    ensures r.Ok? ==> Value(r.value) == Magnitude(bits)
  {
    var size := bits / EXPONENT;
    var word: nat := bits % SIGN;
    if size <= 3 {
      word := Down(word, 8 * (3 - size));
    } else {
      OverflowTest(word, size);
    }
    var negative := word != 0 && bits / SIGN % 2 != 0;
    var overflow := word != 0 && (size > 34 || (word > 0xff && size > 33) || (word > 0xffff && size > 32));
    ZeroUp(word, size);
    if negative {
      return Err(Negative);
    }
    if overflow {
      return Err(Overflow);
    }
    var expanded := Expand(word, size);
    assert expanded.Some?;
    return Ok(expanded.value);
  }

  lemma {:induction false} ZeroUp(word: nat, size: nat)
    ensures size > 3 ==> (Up(word, 8 * (size - 3)) > 0 <==> word > 0)
  {
    if size > 3 && word > 0 {
      MulLe(1, Pow2(8 * (size - 3)), word);
    }
  }

  method DecodeAndValidateTarget(bits: u32, powLimit: Limbs) returns (r: Result<Limbs, CompactTargetError>)
    ensures r.Ok? <==> Decode(bits, Value(powLimit)).Ok?
    ensures r.Ok? ==> Value(r.value) == Decode(bits, Value(powLimit)).value
    ensures r.Err? ==> r.error == Decode(bits, Value(powLimit)).error
  {
    var target :- ExpandBits(bits);
    FourBound(target);
    var zero := IsZero(target);
    if zero {
      return Err(Zero);
    }
    var order := CompareLimbs(target, powLimit);
    return if order == Greater then Err(AbovePowLimit) else Ok(target);
  }

  // ----- the codec -----

  /** Encoding rounds down to a multiple of the unit. */
  lemma {:induction false} CompactDenotesRounded(v: nat)
    requires 0 < v < LIMIT
    ensures Compact(v) <= U32_MAX && !SignBit(Compact(v))
    ensures Magnitude(Compact(v)) == Rounded(v) > 0
    ensures Rounded(v) <= v
  {
    CompactFits(v);
    MantissaRange(v);
    var size, u := Size(v), Unit(v);
    RoundedBelow(v, u);
    if size <= 3 {
      UpDown(v, 8 * (3 - size));
      assert u == 1 && Rounded(v) == v;
    } else {
      assert Magnitude(Compact(v)) == Up(Mantissa(v), 8 * (size - 3));
      MulLe(1, Mantissa(v), u);
    }
  }

  lemma {:induction false} UpDown(v: nat, k: nat)
    ensures Down(Up(v, k), k) == v
  {
    DivUnique(Up(v, k), Pow2(k), v, 0);
  }

  lemma {:induction false} RoundedBelow(v: nat, u: nat)
    requires u > 0
    ensures v / u * u <= v < v / u * u + u
  {
    assert v == u * (v / u) + v % u;
  }

  /** Less than one part in 2^15 is lost. */
  lemma {:induction false} RoundingError(v: nat)
    requires 0 < v
    ensures Rounded(v) <= v
    ensures (v - Rounded(v)) * 0x8000 < v
  {
    var u := Unit(v);
    RoundedBelow(v, u);
    if Size(v) > 3 {
      MantissaRange(v);
      MulLe(0x8000, Mantissa(v), u);
      assert 0x8000 * u <= v;
    }
  }

  /** The rounded number has the same top bits, so the same encoding. */
  lemma {:induction false} RoundedEncodesAlike(v: nat)
    requires 0 < v
    ensures Rounded(v) > 0 && Size(Rounded(v)) == Size(v) && Unit(Rounded(v)) == Unit(v)
    ensures BitLength(Rounded(v)) == BitLength(v)
    ensures Compact(Rounded(v)) == Compact(v)
  {
    if Size(v) <= 3 {
      assert Rounded(v) == v;
    } else {
      var k := 8 * (Size(v) - 3);
      MantissaRange(v);
      UpDown(Mantissa(v), k);
      BitLengthDown(v, k);
      BitLengthDown(Rounded(v), k);
      assert Rounded(v) == Up(Mantissa(v), k);
    }
  }

  /** Numbers that some accepted bits denote are exactly those that encoding does not change. */
  lemma {:induction false} DenotedIsExact(bits: u32)
    requires Magnitude(bits) > 0
    ensures Rounded(Magnitude(bits)) == Magnitude(bits)
  {
    var size, word, t := bits / EXPONENT, bits % SIGN, Magnitude(bits);
    assert BitLength(word) <= 23 by {
      PowersNeeded();
      BitLengthBelow(word, 23);
    }
    if size <= 3 {
      BitLengthMono(t, word);
      SmallIsExact(t);
    } else {
      LargeIsExact(word, 8 * (size - 3));
    }
  }

  lemma {:induction false} SmallIsExact(t: nat)
    requires BitLength(t) <= 23
    ensures Rounded(t) == t
  {
  }

  lemma {:induction false} LargeIsExact(word: nat, k: nat)
    requires BitLength(word) <= 23 && Up(word, k) > 0 && k % 8 == 0
    ensures Rounded(Up(word, k)) == Up(word, k)
  {
    var t := Up(word, k);
    BitLengthUp(word, k);
    if Size(t) > 3 {
      MultipleOfUnit(word, k, 8 * (Size(t) - 3));
    } else {
      SmallIsExact(t);
    }
  }

  lemma {:induction false} MultipleOfUnit(word: nat, k: nat, j: nat)
    requires j <= k
    ensures Up(word, k) / Pow2(j) * Pow2(j) == Up(word, k)
  {
    Pow2Add(k - j, j);
    MulAssoc(word, Pow2(k - j), Pow2(j));
    DivUnique(Up(word, k), Pow2(j), Up(word, k - j), 0);
  }

  /** Every nonzero number survives the compact codec up to a relative error of 2^-15, and encoding
      again changes nothing more. */
  lemma {:induction false} EncodeThenDecode(v: nat)
    requires 0 < v < LIMIT
    ensures Compact(v) <= U32_MAX
    ensures Decode(Compact(v), LIMIT - 1) == Ok(Rounded(v))
    ensures Rounded(v) <= v && (v - Rounded(v)) * 0x8000 < v
    ensures Compact(Rounded(v)) == Compact(v)
  {
    CompactDenotesRounded(v);
    RoundingError(v);
    RoundedEncodesAlike(v);
  }

  /** Accepted bits may be non-minimal, but re-encoding their target decodes to the same target. */
  lemma {:induction false} DecodeThenEncode(bits: u32, powLimit: nat)
    requires Decode(bits, powLimit).Ok?
    ensures var t := Decode(bits, powLimit).value;
      0 < t < LIMIT && Compact(t) <= U32_MAX && Decode(Compact(t), powLimit) == Ok(t)
  {
    var t := Decode(bits, powLimit).value;
    CompactDenotesRounded(t);
    DenotedIsExact(bits);
  }

  lemma {:induction false} SameUnit(t: nat, v: nat, u: nat)
    requires u > 0 && t <= v && t / u * u == t
    ensures t <= v / u * u
  {
    QuotientMono(t, v, u);
    MulLe(t / u, v / u, u);
  }

  lemma {:induction false} SmallerSize(t: nat, v: nat)
    requires 0 < t <= v && Size(t) != Size(v)
    ensures t <= Rounded(v)
  {
    BitLengthMono(t, v);
    RoundedEncodesAlike(v);
    BitLengthBounds(t);
    BitLengthBounds(Rounded(v));
    Pow2Mono(BitLength(t), BitLength(v) - 1);
  }

  /** Encoding picks the largest representable number not above its argument. */
  lemma {:induction false} CompactIsGreatestLowerBound(v: nat, bits: u32)
    requires 0 < v < LIMIT && Decode(bits, LIMIT - 1).Ok?
    ensures Decode(bits, LIMIT - 1).value <= v ==> Decode(bits, LIMIT - 1).value <= Rounded(v)
  {
    var t := Decode(bits, LIMIT - 1).value;
    if t <= v {
      if Size(t) == Size(v) {
        DenotedIsExact(bits);
        SameUnit(t, v, Unit(v));
      } else {
        SmallerSize(t, v);
      }
    }
  }

  lemma {:induction false} QuotientMono(a: nat, b: nat, u: nat)
    requires a <= b && u > 0
    ensures a / u <= b / u
  {
    RoundedBelow(a, u);
    RoundedBelow(b, u);
    var qa, qb := a / u, b / u;
    if qa > qb {
      MulLe(qb + 1, qa, u);
      assert false;
    }
  }

  lemma {:induction false} CompactMonotone(v: nat, w: nat)
    requires 0 < v <= w < LIMIT
    ensures Rounded(v) <= Rounded(w)
  {
    CompactDenotesRounded(v);
    CompactIsGreatestLowerBound(w, Compact(v));
  }

  // ----- block proof -----

  /** Expected number of hashes: the share of 256-bit numbers that meet the target, inverted. */
  function Work(target: nat): nat {
    Quo(LIMIT, target + 1)
  }

  /** `(~target / (target + 1)) + 1` is exact except where 2^256 / (target + 1) does not fit. */
  method BlockWork(target: Limbs) returns (r: Option<Limbs>)
    ensures r.Some? <==> 1 <= Value(target) <= LIMIT - 2
    ensures r.Some? ==> Value(r.value) == Work(Value(target))
  {
    FourBound(target);
    OneLimb(1);
    var denominator := CheckedAdd(target, [1, 0, 0, 0]);
    if denominator.None? {
      return None;
    }
    WrappingNotValue(target);
    var quotient := Div(WrappingNot(target), denominator.value);
    WorkQuotient(Value(target));
    r := CheckedAdd(quotient.value, [1, 0, 0, 0]);
  }

  lemma {:induction false} WorkQuotient(t: nat)
    requires t + 1 < LIMIT
    ensures (LIMIT - 1 - t) / (t + 1) + 1 == Work(t)
    ensures Work(t) >= 1
    ensures Work(t) >= LIMIT <==> t == 0
  {
    var q, r := (LIMIT - 1 - t) / (t + 1), (LIMIT - 1 - t) % (t + 1);
    Distribute(q, 1, t + 1);
    DivUnique(LIMIT, t + 1, q + 1, r);
    if t > 0 {
      MulLe(2, t + 1, q + 1);
    }
  }

  /** A harder target never counts for less work. */
  lemma {:induction false} WorkAntitone(t: nat, t': nat)
    requires t <= t' < LIMIT
    ensures 1 <= Work(t') <= Work(t)
  {
    var q, q' := Work(t), Work(t');
    RoundedBelow(LIMIT, t + 1);
    RoundedBelow(LIMIT, t' + 1);
    MulLe(t + 1, t' + 1, q');
    if q' > q {
      MulLe(q + 1, q', t + 1);
      Distribute(q, 1, t + 1);
      assert false;
    }
  }
}
