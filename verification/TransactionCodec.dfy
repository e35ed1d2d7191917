/**
 * Bitcoin transaction serialization (crates/usdd-bitcoin-bmm/src/block.rs): a functional parser and a
 * canonical serializer, proved inverse to each other on exactly the transactions the source accepts.
 */
module TransactionCodec {
  import opened Machine
  import opened Blocks

  /** A parsed value and the bytes after it. */
  datatype Parsed<+T> = Parsed(value: T, rest: Bytes)

  type Parser<!T> = Bytes -> Option<Parsed<T>>

  /** `p` accepts exactly the strings that start with the serialization of a valid value, and returns
      that value and what follows it. */
  ghost predicate IsCodec<T(!new)>(p: Parser<T>, ser: T -> Bytes, valid: T -> bool) {
    && (forall s :: p(s).Some? ==> valid(p(s).value.value) && s == ser(p(s).value.value) + p(s).value.rest)
    && (forall v, rest :: valid(v) ==> p(ser(v) + rest) == Some(Parsed(v, rest)))
  }

  // ----- fixed and variable length integers -----

  function Taken(n: nat, s: Bytes): Option<Parsed<Bytes>> {
    if n <= |s| then Some(Parsed(s[..n], s[n..])) else None
  }

  function EncodeCompactSize(value: nat): Bytes {
    if value < 0xfd then [value]
    else if value <= U16_MAX then [0xfd] + LittleEndian(value, 2)
    else if value <= U32_MAX then [0xfe] + LittleEndian(value, 4)
    else [0xff] + LittleEndian(value, 8)
  }

  /** Width of the integer after a prefix byte, and the smallest value it may carry. */
  function Wide(prefix: byte): (nat, nat)
    requires prefix >= 0xfd
  {
    if prefix == 0xfd then (2, 0xfd) else if prefix == 0xfe then (4, U16_MAX + 1) else (8, U32_MAX + 1)
  }

  function CompactSize(s: Bytes): (r: Option<Parsed<nat>>)
    ensures r.Some? ==> r.value.value < U64_LIMIT
  {
    if s == [] then None
    else if s[0] < 0xfd then Some(Parsed(s[0], s[1..]))
    else
      var (width, least) := Wide(s[0]);
      var field :- Taken(width, s[1..]);
      FieldBound(field.value);
      var value := FromLittleEndian(field.value);
      if value < least then None else Some(Parsed(value, field.rest))
  }

  lemma {:induction false} CompactSizeSound(s: Bytes)
    requires CompactSize(s).Some?
    ensures s == EncodeCompactSize(CompactSize(s).value.value) + CompactSize(s).value.rest
  {
    if s[0] >= 0xfd {
      var field := Taken(Wide(s[0]).0, s[1..]).value;
      FieldBound(field.value);
      LittleEndianInverse(field.value);
      assert s == [s[0]] + field.value + field.rest;
    } else {
      assert s == [s[0]] + s[1..];
    }
  }

  /** A field of the right width after a wide prefix reads back. */
  lemma {:induction false} WideComplete(prefix: byte, value: nat, rest: Bytes)
    requires prefix >= 0xfd && Wide(prefix).1 <= value < Pow2(8 * Wide(prefix).0) && value < U64_LIMIT
    ensures CompactSize([prefix] + (LittleEndian(value, Wide(prefix).0) + rest)) == Some(Parsed(value, rest))
  {
    var width := Wide(prefix).0;
    var field := LittleEndian(value, width);
    FromLittleEndianInverse(value, width);
    TakeComplete(field, rest);
    assert ([prefix] + (field + rest))[1..] == field + rest;
  }

  lemma {:induction false} CompactSizeComplete(value: u64, rest: Bytes)
    ensures CompactSize(EncodeCompactSize(value) + rest) == Some(Parsed(value, rest))
  {
    if value < 0xfd {
      assert ([value] + rest)[1..] == rest;
    } else {
      var prefix: byte := if value <= U16_MAX then 0xfd else if value <= U32_MAX then 0xfe else 0xff;
      var field := LittleEndian(value, Wide(prefix).0);
      assert value < Pow2(8 * Wide(prefix).0) by {
        Pow2Words();
      }
      WideComplete(prefix, value, rest);
      Associate([prefix], field, rest);
    }
  }

  lemma {:induction false} Associate(a: Bytes, b: Bytes, c: Bytes)
    ensures (a + b) + c == a + (b + c)
  {
  }

  /** CompactSize decoding and encoding are inverse; non-minimal forms are refused. */
  lemma {:induction false} CompactSizeIsCodec()
    ensures IsCodec(CompactSize, EncodeCompactSize, (v: nat) => v < U64_LIMIT)
  {
    forall s | CompactSize(s).Some?
      ensures s == EncodeCompactSize(CompactSize(s).value.value) + CompactSize(s).value.rest
    {
      CompactSizeSound(s);
    }
    forall v: nat, rest | v < U64_LIMIT
      ensures CompactSize(EncodeCompactSize(v) + rest) == Some(Parsed(v, rest))
    {
      CompactSizeComplete(v, rest);
    }
  }

  // ----- lists -----

  function Many<T>(p: Parser<T>, n: nat, s: Bytes): (r: Option<Parsed<seq<T>>>)
    ensures r.Some? ==> |r.value.value| == n
    decreases n, s, p
  {
    if n == 0 then Some(Parsed([], s))
    else
      var first :- p(s);
      var others :- Many(p, n - 1, first.rest);
      Some(Parsed([first.value] + others.value, others.rest))
  }

  function Concat<T>(ser: T -> Bytes, xs: seq<T>): Bytes {
    if xs == [] then [] else ser(xs[0]) + Concat(ser, xs[1..])
  }

  ghost predicate AllValid<T>(valid: T -> bool, xs: seq<T>) {
    forall k :: 0 <= k < |xs| ==> valid(xs[k])
  }

  lemma {:induction false} ManySound<T(!new)>(p: Parser<T>, ser: T -> Bytes, valid: T -> bool, n: nat, s: Bytes)
    requires IsCodec(p, ser, valid) && Many(p, n, s).Some?
    ensures AllValid(valid, Many(p, n, s).value.value)
    ensures s == Concat(ser, Many(p, n, s).value.value) + Many(p, n, s).value.rest
    decreases n
  {
    if n > 0 {
      var first := p(s).value;
      ManySound(p, ser, valid, n - 1, first.rest);
      var others := Many(p, n - 1, first.rest).value;
      assert ([first.value] + others.value)[1..] == others.value;
    }
  }

  lemma {:induction false} ManyComplete<T(!new)>(p: Parser<T>, ser: T -> Bytes, valid: T -> bool, xs: seq<T>, rest: Bytes)
    requires IsCodec(p, ser, valid) && AllValid(valid, xs)
    ensures Many(p, |xs|, Concat(ser, xs) + rest) == Some(Parsed(xs, rest))
    decreases |xs|
  {
    if xs != [] {
      var tail := Concat(ser, xs[1..]) + rest;
      assert Concat(ser, xs) + rest == ser(xs[0]) + tail;
      ManyComplete(p, ser, valid, xs[1..], rest);
      assert [xs[0]] + xs[1..] == xs;
    } else {
      assert Concat(ser, xs) + rest == rest;
    }
  }

  /** Every element takes at least `least` bytes. */
  lemma {:induction false} ConcatLength<T>(ser: T -> Bytes, xs: seq<T>, least: nat)
    requires forall k :: 0 <= k < |xs| ==> |ser(xs[k])| >= least
    ensures |Concat(ser, xs)| >= least * |xs|
    decreases |xs|
  {
    if xs != [] {
      ConcatLength(ser, xs[1..], least);
      Distribute(1, |xs| - 1, least);
    }
  }

  /** The result of a list parser of which `done` has been read already. */
  function Prefixed<T>(done: seq<T>, o: Option<Parsed<seq<T>>>): Option<Parsed<seq<T>>> {
    if o.None? then None else Some(Parsed(done + o.value.value, o.value.rest))
  }

  lemma {:induction false} NothingDone<T>(o: Option<Parsed<seq<T>>>)
    ensures Prefixed([], o) == o
  {
    if o.Some? {
      assert [] + o.value.value == o.value.value;
    }
  }

  lemma {:induction false} AllDone<T>(p: Parser<T>, done: seq<T>, s: Bytes)
    ensures Prefixed(done, Many(p, 0, s)) == Some(Parsed(done, s))
  {
    assert done + [] == done;
  }

  lemma {:induction false} ManyNext<T>(p: Parser<T>, n: nat, done: seq<T>, s: Bytes)
    requires n > 0
    ensures p(s).None? ==> Prefixed(done, Many(p, n, s)) == None
    ensures p(s).Some? ==>
      Prefixed(done, Many(p, n, s)) == Prefixed(done + [p(s).value.value], Many(p, n - 1, p(s).value.rest))
  {
    if p(s).Some? {
      var others := Many(p, n - 1, p(s).value.rest);
      if others.Some? {
        assert done + ([p(s).value.value] + others.value.value) == (done + [p(s).value.value]) + others.value.value;
      }
    }
  }

  // ----- transactions -----

  datatype TxIn = TxIn(outpoint: Outpoint, script: Bytes, sequence: Bytes4)

  /** Every field of a transaction; `stacks` has one stack per input in the witness encoding. */
  datatype Transaction = Transaction(version: Bytes4, segwit: bool, inputs: seq<TxIn>, outputs: seq<TxOut>,
                                     stacks: seq<seq<Bytes>>, lockTime: Bytes4)

  const NULL_OUTPOINT: Outpoint := ZERO_HASH + [0xff, 0xff, 0xff, 0xff]

  function Total(outputs: seq<TxOut>): nat {
    if outputs == [] then 0 else Total(outputs[..|outputs| - 1]) + Amount(outputs[|outputs| - 1])
  }

  // Serialization.

  function VarBytes(b: Bytes): Bytes {
    EncodeCompactSize(|b|) + b
  }

  function SerInput(i: TxIn): Bytes {
    i.outpoint + (VarBytes(i.script) + i.sequence)
  }

  function SerOutput(o: TxOut): Bytes {
    o.value + VarBytes(o.script)
  }

  function SerList<T>(ser: T -> Bytes, xs: seq<T>): Bytes {
    EncodeCompactSize(|xs|) + Concat(ser, xs)
  }

  function SerStack(stack: seq<Bytes>): Bytes {
    SerList(VarBytes, stack)
  }

  function SerInputs(inputs: seq<TxIn>): Bytes {
    SerList(SerInput, inputs)
  }

  function SerOutputs(outputs: seq<TxOut>): Bytes {
    SerList(SerOutput, outputs)
  }

  /** The txid preimage: the transaction without marker, flag and witness. */
  function Stripped(t: Transaction): Bytes {
    t.version + (SerInputs(t.inputs) + (SerOutputs(t.outputs) + t.lockTime))
  }

  function SerWitness(t: Transaction): Bytes {
    if t.segwit then Concat(SerStack, t.stacks) else []
  }

  function Serialize(t: Transaction): Bytes {
    t.version + (Marker(t.segwit)
    + (SerInputs(t.inputs) + (SerOutputs(t.outputs) + (SerWitness(t) + t.lockTime))))
  }

  // What the source accepts.

  predicate IsCoinbase(inputs: seq<TxIn>) {
    |inputs| == 1 && inputs[0].outpoint == NULL_OUTPOINT
  }

  ghost predicate DistinctOutpoints(inputs: seq<TxIn>) {
    forall i, j :: 0 <= i < j < |inputs| ==> inputs[i].outpoint != inputs[j].outpoint
  }

  ghost predicate InputsAllowed(inputs: seq<TxIn>) {
    if IsCoinbase(inputs) then 2 <= |inputs[0].script| <= 100
    else (forall i :: 0 <= i < |inputs| ==> inputs[i].outpoint != NULL_OUTPOINT) && DistinctOutpoints(inputs)
  }

  ghost predicate ValidInput(i: TxIn) {
    |i.script| <= MAX_BASE_BYTES
  }

  ghost predicate ValidOutput(o: TxOut) {
    Amount(o) <= MAX_MONEY && |o.script| <= MAX_BASE_BYTES
  }

  ghost predicate ValidItem(b: Bytes) {
    |b| <= MAX_BLOCK_WEIGHT
  }

  ghost predicate ValidStack(stack: seq<Bytes>) {
    |stack| < U64_LIMIT && AllValid(ValidItem, stack)
  }

  ghost predicate ValidTransaction(t: Transaction) {
    && 0 < |t.inputs| <= MAX_INPUTS && AllValid(ValidInput, t.inputs) && InputsAllowed(t.inputs)
    && 0 < |t.outputs| <= MAX_OUTPUTS && AllValid(ValidOutput, t.outputs) && Total(t.outputs) <= MAX_MONEY
    && if t.segwit
       then |t.stacks| == |t.inputs| && AllValid(ValidStack, t.stacks)
         && exists k :: 0 <= k < |t.stacks| && t.stacks[k] != []
       else t.stacks == []
  }

  // ----- the functional parser -----

  function ParseVar(limit: nat, s: Bytes): Option<Parsed<Bytes>> {
    var n :- CompactSize(s);
    if n.value > limit then None else Taken(n.value, n.rest)
  }

  function ParseInput(s: Bytes): Option<Parsed<TxIn>> {
    var outpoint :- Taken(36, s);
    var script :- ParseVar(MAX_BASE_BYTES, outpoint.rest);
    var sequence :- Taken(4, script.rest);
    Some(Parsed(TxIn(outpoint.value, script.value, sequence.value), sequence.rest))
  }

  function ParseOutput(s: Bytes): Option<Parsed<TxOut>> {
    var value :- Taken(8, s);
    if FromLittleEndian(value.value) > MAX_MONEY then None else
    var script :- ParseVar(MAX_BASE_BYTES, value.rest);
    Some(Parsed(TxOut(value.value, script.value), script.rest))
  }

  function ParseItem(s: Bytes): Option<Parsed<Bytes>> {
    ParseVar(MAX_BLOCK_WEIGHT, s)
  }

  /** A counted list of elements of at least `unit` bytes each. */
  function ParseList<T>(p: Parser<T>, least: nat, most: nat, unit: nat, s: Bytes): Option<Parsed<seq<T>>>
    requires unit > 0
  {
    var n :- CompactSize(s);
    if n.value < least || n.value > most || n.value > |n.rest| / unit then None else Many(p, n.value, n.rest)
  }

  function ParseStack(s: Bytes): Option<Parsed<seq<Bytes>>> {
    ParseList(ParseItem, 0, U64_MAX, 1, s)
  }

  function ParseInputs(s: Bytes): Option<Parsed<seq<TxIn>>> {
    ParseList(ParseInput, 1, MAX_INPUTS, 41, s)
  }

  function ParseOutputs(s: Bytes): Option<Parsed<seq<TxOut>>> {
    ParseList(ParseOutput, 1, MAX_OUTPUTS, 9, s)
  }

  /** The optional marker and flag of the witness encoding. */
  function ParseMarker(s: Bytes): Option<Parsed<bool>> {
    if s == [] then None
    else if s[0] != 0 then Some(Parsed(false, s))
    else if |s| >= 2 && s[1] == 1 then Some(Parsed(true, s[2..]))
    else None
  }

  function ParseStacks(segwit: bool, n: nat, s: Bytes): Option<Parsed<seq<seq<Bytes>>>> {
    if segwit then Many(ParseStack, n, s) else Some(Parsed([], s))
  }

  ghost function ParseTransaction(s: Bytes): Option<Parsed<Transaction>> {
    var version :- Taken(4, s);
    var segwit :- ParseMarker(version.rest);
    ParseBody(version.value, segwit.value, segwit.rest)
  }

  ghost function ParseBody(version: Bytes4, segwit: bool, s: Bytes): Option<Parsed<Transaction>> {
    var inputs :- ParseInputs(s);
    if !InputsAllowed(inputs.value) then None else ParseTail(version, segwit, inputs.value, inputs.rest)
  }

  ghost function ParseTail(version: Bytes4, segwit: bool, inputs: seq<TxIn>, s: Bytes): Option<Parsed<Transaction>> {
    var outputs :- OutputsInRange(ParseOutputs(s));
    ParseEnd(version, segwit, inputs, outputs.value, outputs.rest)
  }

  ghost function ParseEnd(version: Bytes4, segwit: bool, inputs: seq<TxIn>, outputs: seq<TxOut>, s: Bytes)
    : Option<Parsed<Transaction>>
  {
    var stacks :- ParseStacks(segwit, |inputs|, s);
    if segwit && !SomeWitness(stacks.value) then None else
    var lockTime :- Taken(4, stacks.rest);
    Some(Parsed(Transaction(version, segwit, inputs, outputs, stacks.value, lockTime.value), lockTime.rest))
  }

  /** The list of outputs, when there is one and its total is in range. */
  function OutputsInRange(o: Option<Parsed<seq<TxOut>>>): Option<Parsed<seq<TxOut>>> {
    if o.Some? && Total(o.value.value) <= MAX_MONEY then o else None
  }

  ghost predicate SomeWitness(stacks: seq<seq<Bytes>>) {
    exists k :: 0 <= k < |stacks| && stacks[k] != []
  }

  // ----- parser and serializer are inverse -----

  lemma {:induction false} TakeComplete(b: Bytes, rest: Bytes)
    ensures Taken(|b|, b + rest) == Some(Parsed(b, rest))
  {
    assert (b + rest)[..|b|] == b && (b + rest)[|b|..] == rest;
  }

  lemma {:induction false} VarSound(limit: nat, s: Bytes)
    requires ParseVar(limit, s).Some?
    ensures |ParseVar(limit, s).value.value| <= limit
    ensures s == VarBytes(ParseVar(limit, s).value.value) + ParseVar(limit, s).value.rest
  {
    CompactSizeSound(s);
  }

  lemma {:induction false} VarComplete(limit: nat, b: Bytes, rest: Bytes)
    requires |b| <= limit < U64_LIMIT
    ensures ParseVar(limit, VarBytes(b) + rest) == Some(Parsed(b, rest))
  {
    assert VarBytes(b) + rest == EncodeCompactSize(|b|) + (b + rest);
    CompactSizeComplete(|b|, b + rest);
    TakeComplete(b, rest);
  }

  lemma {:induction false} InputSound(s: Bytes)
    requires ParseInput(s).Some?
    ensures ValidInput(ParseInput(s).value.value)
    ensures s == SerInput(ParseInput(s).value.value) + ParseInput(s).value.rest
  {
    var outpoint := Taken(36, s).value;
    var script := ParseVar(MAX_BASE_BYTES, outpoint.rest).value;
    var sequence := Taken(4, script.rest).value;
    VarSound(MAX_BASE_BYTES, outpoint.rest);
    TakeSound(36, s);
    TakeSound(4, script.rest);
    Regroup(outpoint.value, VarBytes(script.value), sequence.value, sequence.rest);
  }

  lemma {:induction false} Regroup(a: Bytes, b: Bytes, c: Bytes, rest: Bytes)
    ensures a + (b + (c + rest)) == (a + (b + c)) + rest
  {
  }

  lemma {:induction false} InputComplete(v: TxIn, rest: Bytes)
    requires ValidInput(v)
    ensures ParseInput(SerInput(v) + rest) == Some(Parsed(v, rest))
  {
    var last := v.sequence + rest;
    var body := VarBytes(v.script) + last;
    assert SerInput(v) + rest == v.outpoint + body;
    TakeComplete(v.outpoint, body);
    VarComplete(MAX_BASE_BYTES, v.script, last);
    TakeComplete(v.sequence, rest);
  }

  lemma {:induction false} InputIsCodec()
    ensures IsCodec(ParseInput, SerInput, ValidInput)
  {
    forall s | ParseInput(s).Some?
      ensures ValidInput(ParseInput(s).value.value)
      ensures s == SerInput(ParseInput(s).value.value) + ParseInput(s).value.rest
    {
      InputSound(s);
    }
    forall v, rest | ValidInput(v)
      ensures ParseInput(SerInput(v) + rest) == Some(Parsed(v, rest))
    {
      InputComplete(v, rest);
    }
  }

  lemma {:induction false} OutputIsCodec()
    ensures IsCodec(ParseOutput, SerOutput, ValidOutput)
  {
    forall s | ParseOutput(s).Some?
      ensures ValidOutput(ParseOutput(s).value.value)
      ensures s == SerOutput(ParseOutput(s).value.value) + ParseOutput(s).value.rest
    {
      VarSound(MAX_BASE_BYTES, Taken(8, s).value.rest);
    }
    forall v, rest | ValidOutput(v)
      ensures ParseOutput(SerOutput(v) + rest) == Some(Parsed(v, rest))
    {
      assert SerOutput(v) + rest == v.value + (VarBytes(v.script) + rest);
      TakeComplete(v.value, VarBytes(v.script) + rest);
      VarComplete(MAX_BASE_BYTES, v.script, rest);
    }
  }

  lemma {:induction false} ItemIsCodec()
    ensures IsCodec(ParseItem, VarBytes, ValidItem)
  {
    forall s | ParseItem(s).Some?
      ensures ValidItem(ParseItem(s).value.value)
      ensures s == VarBytes(ParseItem(s).value.value) + ParseItem(s).value.rest
    {
      VarSound(MAX_BLOCK_WEIGHT, s);
    }
    forall v, rest | ValidItem(v)
      ensures ParseItem(VarBytes(v) + rest) == Some(Parsed(v, rest))
    {
      VarComplete(MAX_BLOCK_WEIGHT, v, rest);
    }
  }

  lemma {:induction false} ListSound<T(!new)>(p: Parser<T>, ser: T -> Bytes, valid: T -> bool,
                                              least: nat, most: nat, unit: nat, s: Bytes)
    requires IsCodec(p, ser, valid) && unit > 0 && ParseList(p, least, most, unit, s).Some?
    ensures AllValid(valid, ParseList(p, least, most, unit, s).value.value)
    ensures least <= |ParseList(p, least, most, unit, s).value.value| <= most
    ensures |ParseList(p, least, most, unit, s).value.value| < U64_LIMIT
    ensures s == SerList(ser, ParseList(p, least, most, unit, s).value.value) + ParseList(p, least, most, unit, s).value.rest
  {
    var n := CompactSize(s).value;
    CompactSizeSound(s);
    ManySound(p, ser, valid, n.value, n.rest);
  }

  /** The remaining-bytes guard never refuses a complete list. */
  lemma {:induction false} ListComplete<T(!new)>(p: Parser<T>, ser: T -> Bytes, valid: T -> bool,
                                                 least: nat, most: nat, unit: nat, xs: seq<T>, rest: Bytes)
    requires IsCodec(p, ser, valid) && unit > 0 && AllValid(valid, xs)
    requires forall k :: 0 <= k < |xs| ==> |ser(xs[k])| >= unit
    requires least <= |xs| <= most && |xs| < U64_LIMIT
    ensures ParseList(p, least, most, unit, SerList(ser, xs) + rest) == Some(Parsed(xs, rest))
  {
    var body := Concat(ser, xs) + rest;
    assert SerList(ser, xs) + rest == EncodeCompactSize(|xs|) + body;
    CompactSizeComplete(|xs|, body);
    ConcatLength(ser, xs, unit);
    CountFits(|xs|, unit, |body|);
    ManyComplete(p, ser, valid, xs, rest);
  }

  lemma {:induction false} CountFits(n: nat, unit: nat, size: nat)
    requires unit > 0 && unit * n <= size
    ensures n <= size / unit
  {
    var q := size / unit;
    assert size == unit * q + size % unit;
    if q < n {
      MulLe(q + 1, n, unit);
      Distribute(q, 1, unit);
      assert false;
    }
  }

  lemma {:induction false} StackIsCodec()
    ensures IsCodec(ParseStack, SerStack, ValidStack)
  {
    ItemIsCodec();
    forall s | ParseStack(s).Some?
      ensures ValidStack(ParseStack(s).value.value)
      ensures s == SerStack(ParseStack(s).value.value) + ParseStack(s).value.rest
    {
      ListSound(ParseItem, VarBytes, ValidItem, 0, U64_MAX, 1, s);
    }
    forall v, rest | ValidStack(v)
      ensures ParseStack(SerStack(v) + rest) == Some(Parsed(v, rest))
    {
      ListComplete(ParseItem, VarBytes, ValidItem, 0, U64_MAX, 1, v, rest);
    }
  }

  lemma {:induction false} InputsSound(s: Bytes)
    requires ParseInputs(s).Some?
    ensures AllValid(ValidInput, ParseInputs(s).value.value) && 1 <= |ParseInputs(s).value.value| <= MAX_INPUTS
    ensures s == SerInputs(ParseInputs(s).value.value) + ParseInputs(s).value.rest
  {
    InputIsCodec();
    ListSound(ParseInput, SerInput, ValidInput, 1, MAX_INPUTS, 41, s);
  }

  lemma {:induction false} InputsComplete(xs: seq<TxIn>, rest: Bytes)
    requires 0 < |xs| <= MAX_INPUTS && AllValid(ValidInput, xs)
    ensures ParseInputs(SerInputs(xs) + rest) == Some(Parsed(xs, rest))
  {
    InputIsCodec();
    forall k | 0 <= k < |xs|
      ensures |SerInput(xs[k])| >= 41
    {
      InputWidth(xs[k]);
    }
    ListComplete(ParseInput, SerInput, ValidInput, 1, MAX_INPUTS, 41, xs, rest);
  }

  lemma {:induction false} InputWidth(i: TxIn)
    ensures |SerInput(i)| >= 41
  {
  }

  lemma {:induction false} OutputWidth(o: TxOut)
    ensures |SerOutput(o)| >= 9 + |o.script|
  {
  }

  lemma {:induction false} OutputsSound(s: Bytes)
    requires ParseOutputs(s).Some?
    ensures AllValid(ValidOutput, ParseOutputs(s).value.value) && 1 <= |ParseOutputs(s).value.value| <= MAX_OUTPUTS
    ensures s == SerOutputs(ParseOutputs(s).value.value) + ParseOutputs(s).value.rest
  {
    OutputIsCodec();
    ListSound(ParseOutput, SerOutput, ValidOutput, 1, MAX_OUTPUTS, 9, s);
  }

  lemma {:induction false} OutputsComplete(xs: seq<TxOut>, rest: Bytes)
    requires 0 < |xs| <= MAX_OUTPUTS && AllValid(ValidOutput, xs)
    ensures ParseOutputs(SerOutputs(xs) + rest) == Some(Parsed(xs, rest))
  {
    OutputIsCodec();
    forall k | 0 <= k < |xs|
      ensures |SerOutput(xs[k])| >= 9
    {
      OutputWidth(xs[k]);
    }
    ListComplete(ParseOutput, SerOutput, ValidOutput, 1, MAX_OUTPUTS, 9, xs, rest);
  }

  lemma {:induction false} StacksSound(segwit: bool, n: nat, s: Bytes)
    requires ParseStacks(segwit, n, s).Some?
    ensures AllValid(ValidStack, ParseStacks(segwit, n, s).value.value)
    ensures |ParseStacks(segwit, n, s).value.value| == if segwit then n else 0
    ensures s == (if segwit then Concat(SerStack, ParseStacks(segwit, n, s).value.value) else [])
      + ParseStacks(segwit, n, s).value.rest
  {
    if segwit {
      StackIsCodec();
      ManySound(ParseStack, SerStack, ValidStack, n, s);
    }
  }

  lemma {:induction false} StacksComplete(segwit: bool, stacks: seq<seq<Bytes>>, rest: Bytes)
    requires AllValid(ValidStack, stacks) && (!segwit ==> stacks == [])
    ensures ParseStacks(segwit, |stacks|, (if segwit then Concat(SerStack, stacks) else []) + rest) == Some(Parsed(stacks, rest))
  {
    if segwit {
      StackIsCodec();
      ManyComplete(ParseStack, SerStack, ValidStack, stacks, rest);
    } else {
      assert [] + rest == rest;
    }
  }

  function Marker(segwit: bool): Bytes {
    if segwit then [0, 1] else []
  }

  lemma {:induction false} MarkerSound(s: Bytes)
    requires ParseMarker(s).Some?
    ensures s == Marker(ParseMarker(s).value.value) + ParseMarker(s).value.rest
  {
  }

  /** Without a marker the next byte starts a nonzero input count, so it is not zero. */
  lemma {:induction false} MarkerComplete(segwit: bool, inputs: seq<TxIn>, rest: Bytes)
    requires inputs != []
    ensures ParseMarker(Marker(segwit) + (SerInputs(inputs) + rest)) == Some(Parsed(segwit, SerInputs(inputs) + rest))
  {
    var body := SerInputs(inputs) + rest;
    var s := Marker(segwit) + body;
    if segwit {
      assert s[2..] == body;
    } else {
      assert s == body && EncodeCompactSize(|inputs|)[0] != 0;
    }
  }

  lemma {:induction false} TakeSound(n: nat, s: Bytes)
    requires n <= |s|
    ensures s == Taken(n, s).value.value + Taken(n, s).value.rest
  {
  }

  lemma {:induction false} AcceptedIsValid(s: Bytes, t: Transaction, rest: Bytes)
    requires ParseTransaction(s) == Some(Parsed(t, rest))
    ensures ValidTransaction(t)
  {
    var version := Taken(4, s).value;
    var segwit := ParseMarker(version.rest).value;
    var inputs := ParseInputs(segwit.rest).value;
    InputsSound(segwit.rest);
    var outputs := ParseOutputs(inputs.rest).value;
    OutputsSound(inputs.rest);
    StacksSound(segwit.value, |inputs.value|, outputs.rest);
  }

  lemma {:induction false} AcceptedText(s: Bytes, t: Transaction, rest: Bytes)
    requires ParseTransaction(s) == Some(Parsed(t, rest))
    ensures s == Grouped(t, rest)
  {
    var version := Taken(4, s).value;
    var segwit := ParseMarker(version.rest).value;
    var inputs := ParseInputs(segwit.rest).value;
    var outputs := ParseOutputs(inputs.rest).value;
    var stacks := ParseStacks(segwit.value, |inputs.value|, outputs.rest).value;
    TakeSound(4, s);
    MarkerSound(version.rest);
    InputsSound(segwit.rest);
    OutputsSound(inputs.rest);
    StacksSound(segwit.value, |inputs.value|, outputs.rest);
    TakeSound(4, stacks.rest);
    assert stacks.rest == t.lockTime + rest;
    assert outputs.rest == SerWitness(t) + stacks.rest;
    assert inputs.rest == SerOutputs(t.outputs) + outputs.rest;
  }

  lemma {:induction false} TransactionSound(s: Bytes, t: Transaction, rest: Bytes)
    requires ParseTransaction(s) == Some(Parsed(t, rest))
    ensures ValidTransaction(t) && s == Serialize(t) + rest
  {
    AcceptedIsValid(s, t, rest);
    AcceptedText(s, t, rest);
    Reassociate(t, rest);
  }

  /** A serialization and what follows it, grouped to the right. */
  function Grouped(t: Transaction, rest: Bytes): Bytes {
    t.version + (Marker(t.segwit) + (SerInputs(t.inputs) + (SerOutputs(t.outputs) + (SerWitness(t) + (t.lockTime + rest)))))
  }

  lemma {:induction false} Reassociate(t: Transaction, rest: Bytes)
    ensures Serialize(t) + rest == Grouped(t, rest)
  {
    var w := SerWitness(t) + t.lockTime;
    assert w + rest == SerWitness(t) + (t.lockTime + rest);
    var o := SerOutputs(t.outputs) + w;
    assert o + rest == SerOutputs(t.outputs) + (w + rest);
    var i := SerInputs(t.inputs) + o;
    assert i + rest == SerInputs(t.inputs) + (o + rest);
    var m := Marker(t.segwit) + i;
    assert m + rest == Marker(t.segwit) + (i + rest);
    assert (t.version + m) + rest == t.version + (m + rest);
  }

  lemma {:induction false} TransactionComplete(t: Transaction, rest: Bytes)
    requires ValidTransaction(t)
    ensures ParseTransaction(Serialize(t) + rest) == Some(Parsed(t, rest))
  {
    Reassociate(t, rest);
    var lock := t.lockTime + rest;
    var stacks := SerWitness(t) + lock;
    var outputs := SerOutputs(t.outputs) + stacks;
    var inputs := SerInputs(t.inputs) + outputs;
    TakeComplete(t.version, Marker(t.segwit) + inputs);
    MarkerComplete(t.segwit, t.inputs, outputs);
    InputsComplete(t.inputs, outputs);
    OutputsComplete(t.outputs, stacks);
    StacksComplete(t.segwit, t.stacks, lock);
    TakeComplete(t.lockTime, rest);
  }

  /** Parsing is exact: it accepts precisely the canonical serializations of valid transactions, and
      recovers every field. */
  lemma {:induction false} TransactionIsCodec()
    ensures forall s :: ParseTransaction(s).Some? ==>
      ValidTransaction(ParseTransaction(s).value.value)
      && s == Serialize(ParseTransaction(s).value.value) + ParseTransaction(s).value.rest
    ensures forall t, rest :: ValidTransaction(t) ==> ParseTransaction(Serialize(t) + rest) == Some(Parsed(t, rest))
  {
    forall s | ParseTransaction(s).Some?
      ensures ValidTransaction(ParseTransaction(s).value.value)
      ensures s == Serialize(ParseTransaction(s).value.value) + ParseTransaction(s).value.rest
    {
      TransactionSound(s, ParseTransaction(s).value.value, ParseTransaction(s).value.rest);
    }
    forall t, rest | ValidTransaction(t)
      ensures ParseTransaction(Serialize(t) + rest) == Some(Parsed(t, rest))
    {
      TransactionComplete(t, rest);
    }
  }

  /** Consumed length is the stripped size plus marker, flag and witness bytes. */
  lemma {:induction false} SizesAddUp(t: Transaction)
    ensures |Serialize(t)| == |Stripped(t)| + if t.segwit then 2 + |SerWitness(t)| else 0
    ensures !t.segwit ==> Serialize(t) == Stripped(t)
    ensures |Stripped(t)| == 8 + |SerInputs(t.inputs)| + |SerOutputs(t.outputs)|
  {
    if !t.segwit {
      assert SerWitness(t) + t.lockTime == t.lockTime;
      var rest := SerInputs(t.inputs) + (SerOutputs(t.outputs) + t.lockTime);
      assert [] + rest == rest;
    }
  }
}
