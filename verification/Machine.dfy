/** Machine integers, failure types and powers of two shared by every component. */
module Machine {

  const U16_MAX: nat := 0xffff
  const U32_MAX: nat := 0xffff_ffff
  const U64_MAX: nat := 0xffff_ffff_ffff_ffff
  const U64_LIMIT: nat := 0x1_0000_0000_0000_0000

  /** USDD base units per micro-USDT. */
  const UNITS_PER_MICRO: nat := 100

  type byte = x: nat | x < 0x100
  type u16 = x: nat | x < 0x1_0000
  type u32 = x: nat | x < 0x1_0000_0000
  type u64 = x: nat | x < 0x1_0000_0000_0000_0000
  type u256 = x: nat | x < 0x1_0000_0000_0000_0000_0000_0000_0000_0000_0000_0000_0000_0000_0000_0000_0000_0000

  type Bytes = seq<byte>

  /** A 32-byte hash value in wire order. */
  type Hash = s: Bytes | |s| == 32 witness seq(32, _ => 0)

  type HashFunction = Bytes -> Hash

  const ZERO_HASH: Hash :=
    [0, 0, 0, 0, 0, 0, 0, 0, 0, 0, 0, 0, 0, 0, 0, 0,
     0, 0, 0, 0, 0, 0, 0, 0, 0, 0, 0, 0, 0, 0, 0, 0]

  datatype Option<+T> = None | Some(value: T) {
    predicate IsFailure() {
      None?
    }

    function PropagateFailure<U>(): Option<U>
      requires None?
    {
      None
    }

    function Extract(): T
      requires Some?
    {
      value
    }
  }

  datatype Result<+T, +E> = Ok(value: T) | Err(error: E) {
    predicate IsFailure() {
      Err?
    }

    function PropagateFailure<U>(): Result<U, E>
      requires Err?
    {
      Err(error)
    }

    function Extract(): T
      requires Ok?
    {
      value
    }
  }

  function Pow2(n: nat): (r: nat)
    ensures r > 0
  {
    if n == 0 then 1 else 2 * Pow2(n - 1)
  }

  lemma {:induction false} Pow2Add(a: nat, b: nat)
    ensures Pow2(a + b) == Pow2(a) * Pow2(b)
  {
    if b != 0 {
      Pow2Add(a, b - 1);
      MulAssoc(Pow2(a), 2, Pow2(b - 1));
    }
  }

  lemma {:induction false} Pow2Mono(a: nat, b: nat)
    requires a <= b
    ensures Pow2(a) <= Pow2(b)
  {
    if a < b {
      Pow2Mono(a, b - 1);
    }
  }

  lemma {:induction false} Pow2Words()
    ensures Pow2(8) == 0x100 && Pow2(16) == 0x1_0000
    ensures Pow2(32) == 0x1_0000_0000 && Pow2(64) == U64_LIMIT
  {
    Pow2Double(1, 2);
    Pow2Double(2, 4);
    Pow2Double(4, 16);
    Pow2Double(8, 0x100);
    Pow2Double(16, 0x1_0000);
    Pow2Double(32, 0x1_0000_0000);
  }

  lemma {:induction false} Pow2Double(n: nat, value: nat)
    requires Pow2(n) == value
    ensures Pow2(2 * n) == value * value
  {
    Pow2Add(n, n);
  }

  lemma {:induction false} MulAssoc(a: int, b: int, c: int)
    ensures a * (b * c) == (a * b) * c == b * (a * c)
  {
  }

  lemma {:induction false} MulLe(a: nat, b: nat, c: nat)
    requires a <= b
    ensures a * c <= b * c && c * a <= c * b
  {
  }

  /** The quotient and remainder are the only pair with q*d + r == n and r < d. */
  lemma {:induction false} DivUnique(n: int, d: int, q: int, r: int)
    requires 0 <= r < d && n == q * d + r
    ensures q == n / d && r == n % d
  {
    var q', r' := n / d, n % d;
    assert n == d * q' + r';
    assert (q' - q) * d == q' * d - q * d == r - r';
    if q < q' {
      MulLe(1, q' - q, d);
    } else if q > q' {
      NegatedProduct(q - q', q' - q, d);
    }
  }

  lemma {:induction false} NegatedProduct(a: int, b: int, d: nat)
    requires a > 0 && b == 0 - a
    ensures b * d <= 0 - d
  {
    MulLe(1, a, d);
  }

  lemma {:induction false} DivDiv(n: nat, a: nat, b: nat)
    requires a > 0 && b > 0
    ensures a * b > 0
    ensures n / a / b == n / (a * b)
  {
    var q, r := n / a, n % a;
    var q', r' := q / b, q % b;
    assert a * b > 0;
    assert n == a * q + r;
    assert q == b * q' + r';
    calc {
      n;
      a * (b * q' + r') + r;
      a * (b * q') + a * r' + r;
      { MulAssoc(a, b, q'); }
      q' * (a * b) + (a * r' + r);
    }
    MulLe(r', b - 1, a);
    DivUnique(n, a * b, q', a * r' + r);
  }

  /** Number of significant bits: 64 minus `leading_zeros` for a machine word. */
  function BitLength(x: nat): nat {
    if x == 0 then 0 else 1 + BitLength(x / 2)
  }

  lemma {:induction false} BitLengthBounds(x: nat)
    ensures x < Pow2(BitLength(x))
    ensures x > 0 ==> Pow2(BitLength(x) - 1) <= x
  {
    if x > 0 {
      BitLengthBounds(x / 2);
      if x / 2 > 0 {
        assert Pow2(BitLength(x) - 1) == 2 * Pow2(BitLength(x / 2) - 1);
      }
    }
  }

  lemma {:induction false} BitLengthUnique(x: nat, n: nat)
    requires n > 0 && Pow2(n - 1) <= x < Pow2(n)
    ensures BitLength(x) == n
  {
    BitLengthBounds(x);
    if BitLength(x) < n {
      Pow2Mono(BitLength(x), n - 1);
    } else if BitLength(x) > n {
      Pow2Mono(n, BitLength(x) - 1);
    }
  }

  /** Bitwise or, bit by bit. */
  function BitOr(a: nat, b: nat): nat
    decreases a + b
  {
    if a == 0 && b == 0 then 0
    else (if a % 2 == 1 || b % 2 == 1 then 1 else 0) + 2 * BitOr(a / 2, b / 2)
  }

  lemma {:induction false} BitOrZero(a: nat)
    ensures BitOr(a, 0) == a && BitOr(0, a) == a
  {
    if a != 0 {
      BitOrZero(a / 2);
    }
  }

  lemma {:induction false} HalfMultiple(n: nat, half: nat) returns (t: nat)
    requires half > 0 && n % (2 * half) == 0
    ensures n == 2 * t && t == n / 2 && t % half == 0
  {
    var q := n / (2 * half);
    assert n == (2 * half) * q;
    MulAssoc(2, half, q);
    t := half * q;
    DivUnique(t, half, q, 0);
  }

  /** Numbers without a common bit are or-ed by adding them. */
  lemma {:induction false} BitOrDisjoint(high: nat, low: nat, k: nat)
    requires high % Pow2(k) == 0 && low < Pow2(k)
    ensures BitOr(high, low) == high + low
    ensures BitOr(low, high) == high + low
  {
    if k == 0 || low == 0 {
      BitOrZero(high);
    } else {
      var t := HalfMultiple(high, Pow2(k - 1));
      BitOrDisjoint(t, low / 2, k - 1);
    }
  }

  function Shl64(x: u64, k: nat): u64 {
    (x * Pow2(k)) % U64_LIMIT
  }

  function Shr64(x: u64, k: nat): (r: u64)
    ensures r <= x
  {
    Quo(x, Pow2(k))
  }

  function Quo(x: nat, d: nat): (q: nat)
    requires d > 0
    ensures q <= x
  {
    DivLe(x, d);
    x / d
  }

  lemma {:induction false} DivLe(x: nat, d: nat)
    requires d > 0
    ensures 0 <= x / d <= x
  {
    var q := x / d;
    assert x == d * q + x % d;
    MulLe(1, d, q);
  }

  lemma {:induction false} Distribute(a: int, b: int, c: int)
    ensures (a + b) * c == a * c + b * c
    ensures c * (a + b) == c * a + c * b
  {
  }

  // The next three lemmas are about any word size u = p * c.

  /** A word with further words above it, shifted right by less than a word. */
  lemma {:induction false} ShiftWords(x: nat, high: nat, p: nat, c: nat, u: nat)
    requires p > 0 && p * c == u
    ensures (x + u * high) / p == x / p + c * high
    ensures (x + u * high) % p == x % p
  {
    MulAssoc(p, c, high);
    SumQuotient(x, p, u * high, c * high);
  }

  lemma {:induction false} SumQuotient(x: nat, p: nat, y: nat, k: nat)
    requires p > 0 && y == p * k
    ensures (x + y) / p == x / p + k
    ensures (x + y) % p == x % p
  {
    var q, r := x / p, x % p;
    assert x == p * q + r;
    Distribute(q, k, p);
    DivUnique(x + y, p, q + k, r);
  }

  lemma {:induction false} SplitProduct(high: nat, p: nat, c: nat, u: nat)
    requires p > 0 && c > 0 && p * c == u
    ensures c * high == (high % p) * c + u * (high / p)
  {
    var q, r := high / p, high % p;
    assert high == p * q + r;
    Distribute(p * q, r, c);
    MulAssoc(c, p, q);
  }

  /** Shifting left and truncating keeps exactly the low bits. */
  lemma {:induction false} TruncatedShift(above: nat, p: nat, c: nat, u: nat) returns (kept: nat)
    requires p > 0 && c > 0 && p * c == u
    ensures u > 0
    ensures (above * c) % u == (above % p) * c == kept <= u - c
    ensures kept % c == 0
  {
    var r := above % p;
    kept := r * c;
    SplitProduct(above, p, c, u);
    MulLe(r + 1, p, c);
    Distribute(r, 1, c);
    DivUnique(kept, c, r, 0);
    DivUnique(above * c, u, above / p, kept);
  }

  lemma {:induction false} Quotient(x: nat, p: nat, c: nat)
    requires p > 0 && x < p * c
    ensures x / p < c
  {
    var q := x / p;
    assert x == p * q + x % p;
    if q >= c {
      MulLe(c, q, p);
      assert false;
    }
  }

  lemma {:induction false} PrefixNext<T>(s: seq<T>, i: nat)
    requires i < |s|
    ensures s[..i + 1] == s[..i] + [s[i]]
  {
  }

  function Min(a: int, b: int): int {
    if a <= b then a else b
  }

  /** Fixed-width little-endian bytes of a number that fits them. */
  function LittleEndian(value: nat, width: nat): (bytes: seq<byte>)
    ensures |bytes| == width
  {
    if width == 0 then [] else [value % 0x100] + LittleEndian(value / 0x100, width - 1)
  }

  function FromLittleEndian(bytes: seq<byte>): nat {
    if bytes == [] then 0 else bytes[0] + 0x100 * FromLittleEndian(bytes[1..])
  }

  lemma {:induction false} FromLittleEndianBound(bytes: seq<byte>)
    ensures FromLittleEndian(bytes) < Pow2(8 * |bytes|)
  {
    if bytes != [] {
      FromLittleEndianBound(bytes[1..]);
      Pow2Add(8, 8 * (|bytes| - 1));
      Pow2Words();
    }
  }

  /** Encoding and decoding a fixed-width field are inverse, both ways round. */
  lemma {:induction false} LittleEndianInverse(bytes: seq<byte>)
    ensures LittleEndian(FromLittleEndian(bytes), |bytes|) == bytes
  {
    if bytes != [] {
      var rest := FromLittleEndian(bytes[1..]);
      LittleEndianInverse(bytes[1..]);
      DivUnique(FromLittleEndian(bytes), 0x100, rest, bytes[0]);
    }
  }

  lemma {:induction false} FromLittleEndianInverse(value: nat, width: nat)
    requires value < Pow2(8 * width)
    ensures FromLittleEndian(LittleEndian(value, width)) == value
  {
    if width > 0 {
      Pow2Add(8, 8 * (width - 1));
      Pow2Words();
      FromLittleEndianInverse(value / 0x100, width - 1);
      assert LittleEndian(value, width)[1..] == LittleEndian(value / 0x100, width - 1);
    }
  }

  /** A field of two, four or eight bytes holds a number of that width. */
  lemma {:induction false} FieldBound(field: Bytes)
    requires |field| == 2 || |field| == 4 || |field| == 8
    ensures FromLittleEndian(field) < U64_LIMIT
    ensures |field| == 2 ==> FromLittleEndian(field) <= U16_MAX
    ensures |field| == 4 ==> FromLittleEndian(field) <= U32_MAX
  {
    FromLittleEndianBound(field);
    Pow2Words();
  }
}
