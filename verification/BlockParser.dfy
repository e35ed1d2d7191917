/**
 * The cursor parser of transactions and blocks (crates/usdd-bitcoin-bmm/src/block.rs): it computes the
 * functional parser of `TransactionCodec`. Double SHA-256 is a parameter.
 */
module BlockParser {
  import opened Machine
  import opened Blocks
  import opened TransactionCodec
  import OrderedMerkle

  // ----- the cursor -----

  datatype BlockStructureError =
    | BlockTooShort | SerializedBlockTooLarge | UnexpectedEnd | NonCanonicalCompactSize | LengthOverflow
    | TrailingBytes | EmptyBlock | TooManyTransactions | EmptyInputs | TooManyInputs | EmptyOutputs
    | TooManyOutputs | InvalidWitnessFlags | SuperfluousWitness | FirstTransactionNotCoinbase
    | MultipleCoinbaseTransactions | InvalidCoinbaseScriptSize | NullPreviousOutput | DuplicateInput
    | OutputValueOutOfRange | OutputTotalOutOfRange | BlockWeightExceeded | MerkleRootMismatch
    | MutatedMerkleTree | MissingWitnessCommitment | InvalidCoinbaseWitness | WitnessCommitmentMismatch

  type Read<+T> = Result<T, BlockStructureError>

  /** A cursor method computed `spec`: same acceptance, same value, cursor left at the same place. */
  predicate Matches<T(==)>(r: Read<T>, spec: Option<Parsed<T>>, rest: Bytes) {
    && (r.Ok? <==> spec.Some?)
    && (r.Ok? ==> r.value == spec.value.value && rest == spec.value.rest)
  }

  /** The bytes end inside a CompactSize. */
  predicate CutShort(s: Bytes) {
    s == [] || (s[0] >= 0xfd && |s| < 1 + Wide(s[0]).0)
  }

  class Cursor {
    const bytes: Bytes
    var position: nat

    ghost predicate Valid()
      reads this
    {
      position <= |bytes|
    }

    ghost function Rest(): Bytes
      reads this
      requires Valid()
    {
      bytes[position..]
    }

    constructor (bytes: Bytes, position: nat)
      requires position <= |bytes|
      ensures Valid() && this.bytes == bytes && this.position == position
    {
      this.bytes := bytes;
      this.position := position;
    }

    function Remaining(): (r: nat)
      reads this
      requires Valid()
      ensures r == |Rest()|
    {
      |bytes| - position
    }

    method Take(length: nat) returns (r: Read<Bytes>)
      requires Valid()
      modifies this
      ensures Valid() && Matches(r, Taken(length, old(Rest())), Rest())
      ensures r.Err? ==> r.error == UnexpectedEnd && position == old(position)
    {
      if position + length > |bytes| {
        return Err(UnexpectedEnd);
      }
      var end := position + length;
      assert bytes[position..][..length] == bytes[position..end];
      assert bytes[position..][length..] == bytes[end..];
      r := Ok(bytes[position..end]);
      position := end;
    }

    method Byte() returns (r: Read<byte>)
      requires Valid()
      modifies this
      ensures Valid()
      ensures r.Ok? <==> old(Rest()) != []
      ensures r.Ok? ==> r.value == old(Rest())[0] && Rest() == old(Rest())[1..]
      ensures r.Err? ==> r.error == UnexpectedEnd
    {
      var one :- Take(1);
      return Ok(one[0]);
    }

    method Peek() returns (r: Read<byte>)
      requires Valid()
      ensures r.Ok? <==> Rest() != []
      ensures r.Ok? ==> r.value == Rest()[0]
    {
      return if position < |bytes| then Ok(bytes[position]) else Err(UnexpectedEnd);
    }

    method ReadCompactSize() returns (r: Read<nat>)
      requires Valid()
      modifies this
      ensures Valid() && Matches(r, CompactSize(old(Rest())), Rest())
      ensures r.Err? ==> r.error == if CutShort(old(Rest())) then UnexpectedEnd else NonCanonicalCompactSize
    {
      var prefix :- Byte();
      if prefix <= 0xfc {
        return Ok(prefix);
      }
      var least: nat;
      var field: Bytes;
      if prefix == 0xfd {
        field :- Take(2);
        least := 0xfd;
      } else if prefix == 0xfe {
        field :- Take(4);
        least := U16_MAX + 1;
      } else {
        field :- Take(8);
        least := U32_MAX + 1;
      }
      FieldBound(field);
      var value := FromLittleEndian(field);
      return if value < least then Err(NonCanonicalCompactSize) else Ok(value);
    }
  }

  // ----- parsing with the cursor -----

  method ReadVar(cursor: Cursor, limit: nat) returns (r: Read<Bytes>)
    requires cursor.Valid()
    modifies cursor
    ensures cursor.Valid() && Matches(r, ParseVar(limit, old(cursor.Rest())), cursor.Rest())
  {
    var size :- cursor.ReadCompactSize();
    if size > limit {
      return Err(LengthOverflow);
    }
    r := cursor.Take(size);
  }

  method ReadMarker(cursor: Cursor) returns (r: Read<bool>)
    requires cursor.Valid()
    modifies cursor
    ensures cursor.Valid() && Matches(r, ParseMarker(old(cursor.Rest())), cursor.Rest())
  {
    var next :- cursor.Peek();
    if next != 0 {
      return Ok(false);
    }
    ghost var s := cursor.Rest();
    var _ := cursor.Byte();
    var flags :- cursor.Byte();
    if flags != 1 {
      return Err(InvalidWitnessFlags);
    }
    assert s[1..][1..] == s[2..];
    return Ok(true);
  }

  /** What the input loop keeps of the inputs it walks over. */
  datatype InputScan = InputScan(outpoints: seq<Outpoint>, nulls: nat, firstScript: nat)

  function Outpoints(inputs: seq<TxIn>): (r: seq<Outpoint>)
    ensures |r| == |inputs|
    ensures forall k :: 0 <= k < |r| ==> r[k] == inputs[k].outpoint
  {
    seq(|inputs|, k requires 0 <= k < |inputs| => inputs[k].outpoint)
  }

  function Nulls(inputs: seq<TxIn>): nat {
    if inputs == [] then 0
    else Nulls(inputs[..|inputs| - 1]) + if inputs[|inputs| - 1].outpoint == NULL_OUTPOINT then 1 else 0
  }

  function Scan(inputs: seq<TxIn>): InputScan {
    InputScan(Outpoints(inputs), Nulls(inputs), if inputs == [] then 0 else |inputs[0].script|)
  }

  lemma {:induction false} ScanNext(done: seq<TxIn>, next: TxIn)
    ensures Scan(done + [next]) == InputScan(Scan(done).outpoints + [next.outpoint],
                                             Scan(done).nulls + (if next.outpoint == NULL_OUTPOINT then 1 else 0),
                                             if done == [] then |next.script| else Scan(done).firstScript)
  {
    assert (done + [next])[..|done|] == done;
    assert Outpoints(done + [next]) == Outpoints(done) + [next.outpoint];
  }

  /** One input: the outpoint is kept, the script is skipped, its length is noted. */
  method ReadInput(cursor: Cursor) returns (r: Read<(Outpoint, nat)>, ghost input: Option<Parsed<TxIn>>)
    requires cursor.Valid()
    modifies cursor
    ensures cursor.Valid() && input == ParseInput(old(cursor.Rest()))
    ensures r.Ok? <==> input.Some?
    ensures r.Ok? ==> r.value == (input.value.value.outpoint, |input.value.value.script|) && cursor.Rest() == input.value.rest
  {
    input := ParseInput(cursor.Rest());
    var outpoint :- cursor.Take(36);
    var script :- ReadVar(cursor, MAX_BASE_BYTES);
    var sequence :- cursor.Take(4);
    return Ok((outpoint, |script|)), input;
  }

  method ReadInputs(cursor: Cursor) returns (r: Read<InputScan>)
    requires cursor.Valid()
    modifies cursor
    ensures cursor.Valid()
    ensures r.Ok? <==> ParseInputs(old(cursor.Rest())).Some?
    ensures r.Ok? ==> r.value == Scan(ParseInputs(old(cursor.Rest())).value.value)
    ensures r.Ok? ==> cursor.Rest() == ParseInputs(old(cursor.Rest())).value.rest
  {
    var count :- cursor.ReadCompactSize();
    if count == 0 {
      return Err(EmptyInputs);
    }
    if count > MAX_INPUTS || count > cursor.Remaining() / 41 {
      return Err(TooManyInputs);
    }
    r := ReadInputLoop(cursor, count);
  }

  lemma {:induction false} NextInput(whole: Option<Parsed<seq<TxIn>>>, n: nat, done: seq<TxIn>, s: Bytes,
                                     input: Option<Parsed<TxIn>>)
    requires n > 0 && input == ParseInput(s)
    requires whole == Prefixed(done, Many(ParseInput, n, s))
    ensures input.None? ==> whole == None
    ensures input.Some? ==> whole == Prefixed(done + [input.value.value], Many(ParseInput, n - 1, input.value.rest))
  {
    ManyNext(ParseInput, n, done, s);
  }

  method ReadInputLoop(cursor: Cursor, count: nat) returns (r: Read<InputScan>)
    requires cursor.Valid()
    modifies cursor
    ensures cursor.Valid()
    ensures r.Ok? <==> Many(ParseInput, count, old(cursor.Rest())).Some?
    ensures r.Ok? ==> r.value == Scan(Many(ParseInput, count, old(cursor.Rest())).value.value)
    ensures r.Ok? ==> cursor.Rest() == Many(ParseInput, count, old(cursor.Rest())).value.rest
  {
    ghost var whole := Many(ParseInput, count, cursor.Rest());
    ghost var done: seq<TxIn> := [];
    NothingDone(whole);
    var scan := InputScan([], 0, 0);
    ghost var left := count;
    for index := 0 to count
      invariant cursor.Valid() && |done| == index && scan == Scan(done)
      invariant left == count - index && whole == Prefixed(done, Many(ParseInput, left, cursor.Rest()))
    {
      ghost var s := cursor.Rest();
      var next, input := ReadInput(cursor);
      NextInput(whole, left, done, s, input);
      if next.Err? {
        return Err(next.error);
      }
      ScanNext(done, input.value.value);
      scan := InputScan(scan.outpoints + [next.value.0],
                        scan.nulls + (if next.value.0 == NULL_OUTPOINT then 1 else 0),
                        if index == 0 then next.value.1 else scan.firstScript);
      done, left := done + [input.value.value], left - 1;
    }
    AllDone(ParseInput, done, cursor.Rest());
    return Ok(scan);
  }

  // ----- duplicate inputs: sort, then compare neighbours -----

  predicate LexLe(a: Bytes, b: Bytes) {
    a == [] || (b != [] && if a[0] == b[0] then LexLe(a[1..], b[1..]) else a[0] < b[0])
  }

  lemma {:induction false} LexTotal(a: Bytes, b: Bytes)
    ensures LexLe(a, b) || LexLe(b, a)
  {
    if a != [] && b != [] && a[0] == b[0] {
      LexTotal(a[1..], b[1..]);
    }
  }

  lemma {:induction false} LexAntisymmetric(a: Bytes, b: Bytes)
    requires LexLe(a, b) && LexLe(b, a)
    ensures a == b
  {
    if a != [] {
      LexAntisymmetric(a[1..], b[1..]);
      assert a == [a[0]] + a[1..] && b == [b[0]] + b[1..];
    }
  }

  lemma {:induction false} LexTransitive(a: Bytes, b: Bytes, c: Bytes)
    requires LexLe(a, b) && LexLe(b, c)
    ensures LexLe(a, c)
  {
    if a != [] && a[0] == b[0] && b[0] == c[0] {
      LexTransitive(a[1..], b[1..], c[1..]);
    }
  }

  function Insert(x: Outpoint, sorted: seq<Outpoint>): seq<Outpoint> {
    if sorted == [] || LexLe(x, sorted[0]) then [x] + sorted else [sorted[0]] + Insert(x, sorted[1..])
  }

  /** The order of `sort_unstable`, as an insertion sort. */
  function Sort(xs: seq<Outpoint>): seq<Outpoint> {
    if xs == [] then [] else Insert(xs[0], Sort(xs[1..]))
  }

  lemma {:induction false} InsertKeeps(x: Outpoint, sorted: seq<Outpoint>)
    ensures multiset(Insert(x, sorted)) == multiset(sorted) + multiset{x}
  {
    if sorted != [] && !LexLe(x, sorted[0]) {
      InsertKeeps(x, sorted[1..]);
      assert sorted == [sorted[0]] + sorted[1..];
    }
  }

  lemma {:induction false} SortPermutes(xs: seq<Outpoint>)
    ensures multiset(Sort(xs)) == multiset(xs)
  {
    if xs != [] {
      SortPermutes(xs[1..]);
      InsertKeeps(xs[0], Sort(xs[1..]));
      assert xs == [xs[0]] + xs[1..];
    }
  }

  ghost predicate Ordered(xs: seq<Outpoint>) {
    forall i, j :: 0 <= i < j < |xs| ==> LexLe(xs[i], xs[j])
  }

  lemma {:induction false} InsertOrdered(x: Outpoint, sorted: seq<Outpoint>)
    requires Ordered(sorted)
    ensures Ordered(Insert(x, sorted))
  {
    if sorted != [] {
      if LexLe(x, sorted[0]) {
        forall j | 0 < j < |sorted|
          ensures LexLe(x, sorted[j])
        {
          LexTransitive(x, sorted[0], sorted[j]);
        }
      } else {
        var r := Insert(x, sorted[1..]);
        InsertOrdered(x, sorted[1..]);
        LexTotal(x, sorted[0]);
        InsertKeeps(x, sorted[1..]);
        forall j | 0 <= j < |r|
          ensures LexLe(sorted[0], r[j])
        {
          assert r[j] in multiset(sorted[1..]) + multiset{x};
        }
      }
    }
  }

  lemma {:induction false} SortOrdered(xs: seq<Outpoint>)
    ensures Ordered(Sort(xs))
  {
    if xs != [] {
      SortOrdered(xs[1..]);
      InsertOrdered(xs[0], Sort(xs[1..]));
    }
  }

  lemma {:induction false} DistinctIsMultiplicityOne(xs: seq<Outpoint>)
    ensures Distinct(xs) <==> forall x :: multiset(xs)[x] <= 1
  {
    if xs != [] {
      var rest := xs[1..];
      assert xs == [xs[0]] + rest;
      DistinctIsMultiplicityOne(rest);
      if xs[0] in rest {
        var k :| 0 <= k < |rest| && rest[k] == xs[0];
        assert xs[0] == xs[k + 1] && multiset(xs)[xs[0]] >= 2;
      } else {
        assert multiset(rest)[xs[0]] == 0;
        forall x
          ensures multiset(xs)[x] == multiset(rest)[x] + if x == xs[0] then 1 else 0
        {
        }
        if Distinct(rest) {
          forall i, j | 0 <= i < j < |xs|
            ensures xs[i] != xs[j]
          {
            assert xs[j] == rest[j - 1];
          }
        } else {
          var i, j :| 0 <= i < j < |rest| && rest[i] == rest[j];
          assert xs[i + 1] == xs[j + 1];
        }
      }
    }
  }

  predicate EqualNeighbours(xs: seq<Outpoint>) {
    exists k :: 0 <= k < |xs| - 1 && xs[k] == xs[k + 1]
  }

  /** Sorting and comparing neighbours finds a duplicate exactly when there is one. */
  lemma {:induction false} SortFindsDuplicates(xs: seq<Outpoint>)
    ensures EqualNeighbours(Sort(xs)) <==> !Distinct(xs)
  {
    var sorted := Sort(xs);
    SortOrdered(xs);
    SortPermutes(xs);
    DistinctIsMultiplicityOne(xs);
    DistinctIsMultiplicityOne(sorted);
    OrderedDuplicates(sorted);
  }

  lemma {:induction false} OrderedDuplicates(sorted: seq<Outpoint>)
    requires Ordered(sorted)
    ensures EqualNeighbours(sorted) <==> !Distinct(sorted)
  {
    if !Distinct(sorted) {
      var i, j :| 0 <= i < j < |sorted| && sorted[i] == sorted[j];
      if i + 1 < j {
        LexAntisymmetric(sorted[i], sorted[i + 1]);
      }
      assert sorted[i] == sorted[i + 1];
    }
  }

  // ----- the transaction parser -----

  lemma {:induction false} NullsCount(inputs: seq<TxIn>)
    ensures Nulls(inputs) == 0 <==> forall k :: 0 <= k < |inputs| ==> inputs[k].outpoint != NULL_OUTPOINT
    ensures Nulls(inputs) <= |inputs|
  {
    if inputs != [] {
      var n := |inputs| - 1;
      NullsCount(inputs[..n]);
      if Nulls(inputs) == 0 {
        assert forall k :: 0 <= k < n ==> inputs[..n][k].outpoint != NULL_OUTPOINT;
      }
    }
  }

  lemma {:induction false} ScanIsCoinbase(inputs: seq<TxIn>)
    requires inputs != []
    ensures |Scan(inputs).outpoints| == 1 && Scan(inputs).nulls == 1 <==> IsCoinbase(inputs)
  {
    NullsCount(inputs);
    if |inputs| == 1 {
      assert Nulls(inputs[..0]) == 0;
    }
  }

  /** The outpoints the parser hands on: sorted, except for the coinbase's null outpoint. */
  function InputList(inputs: seq<TxIn>): seq<Outpoint> {
    if IsCoinbase(inputs) then Outpoints(inputs) else Sort(Outpoints(inputs))
  }

  /** Why inputs that are not allowed are refused. */
  ghost function InputsError(inputs: seq<TxIn>): BlockStructureError {
    if IsCoinbase(inputs) then InvalidCoinbaseScriptSize
    else if exists i :: 0 <= i < |inputs| && inputs[i].outpoint == NULL_OUTPOINT then NullPreviousOutput
    else DuplicateInput
  }

  method CheckInputs(scan: InputScan, ghost inputs: seq<TxIn>) returns (r: Read<seq<Outpoint>>)
    requires inputs != [] && scan == Scan(inputs)
    ensures r.Ok? <==> InputsAllowed(inputs)
    ensures r.Ok? ==> r.value == InputList(inputs)
    ensures r.Err? ==> r.error == InputsError(inputs)
  {
    var isCoinbase := |scan.outpoints| == 1 && scan.nulls == 1;
    ScanIsCoinbase(inputs);
    NullsCount(inputs);
    if !isCoinbase && scan.nulls != 0 {
      return Err(NullPreviousOutput);
    }
    if isCoinbase && !(2 <= scan.firstScript <= 100) {
      return Err(InvalidCoinbaseScriptSize);
    }
    if isCoinbase {
      return Ok(scan.outpoints);
    }
    var sorted := Sort(scan.outpoints);
    SortFindsDuplicates(scan.outpoints);
    assert Distinct(scan.outpoints) <==> DistinctOutpoints(inputs);
    return if EqualNeighbours(sorted) then Err(DuplicateInput) else Ok(sorted);
  }

  lemma {:induction false} TotalNext(done: seq<TxOut>, next: TxOut)
    ensures Total(done + [next]) == Total(done) + Amount(next)
  {
    assert (done + [next])[..|done|] == done;
  }

  lemma {:induction false} TotalPrefix(done: seq<TxOut>, more: seq<TxOut>)
    ensures Total(done) <= Total(done + more)
    decreases |more|
  {
    if more == [] {
      assert done + more == done;
    } else {
      var n := |more| - 1;
      TotalPrefix(done, more[..n]);
      TotalNext(done + more[..n], more[n]);
      assert done + more == (done + more[..n]) + [more[n]];
    }
  }

  /** One output, with the money range of the running total checked before the script is read. */
  method ReadOutput(cursor: Cursor, total: nat, ghost done: seq<TxOut>)
    returns (r: Read<(TxOut, nat)>, ghost output: Option<Parsed<TxOut>>)
    requires cursor.Valid() && total == Total(done)
    modifies cursor
    ensures cursor.Valid() && output == ParseOutput(old(cursor.Rest()))
    ensures r.Ok? <==> output.Some? && Total(done + [output.value.value]) <= MAX_MONEY
    ensures r.Ok? ==> r.value == (output.value.value, Total(done + [output.value.value])) && cursor.Rest() == output.value.rest
    ensures r.Err? && output.Some? ==> r.error == OutputTotalOutOfRange
  {
    output := ParseOutput(cursor.Rest());
    if output.Some? {
      TotalNext(done, output.value.value);
    }
    var value :- cursor.Take(8);
    var amount := FromLittleEndian(value);
    if amount >= 0x8000_0000_0000_0000 || amount > MAX_MONEY {
      return Err(OutputValueOutOfRange), output;
    }
    var sum := total + amount;
    if sum > MAX_MONEY {
      return Err(OutputTotalOutOfRange), output;
    }
    var script :- ReadVar(cursor, MAX_BASE_BYTES);
    return Ok((TxOut(value, script), sum)), output;
  }

  lemma {:induction false} NextOutput(whole: Option<Parsed<seq<TxOut>>>, n: nat, done: seq<TxOut>, s: Bytes,
                                      output: Option<Parsed<TxOut>>)
    requires n > 0 && output == ParseOutput(s)
    requires whole == Prefixed(done, Many(ParseOutput, n, s))
    ensures output.None? ==> whole == None
    ensures output.Some? ==> whole == Prefixed(done + [output.value.value], Many(ParseOutput, n - 1, output.value.rest))
    ensures output.Some? && Total(done + [output.value.value]) > MAX_MONEY ==> OutputsInRange(whole) == None
  {
    ManyNext(ParseOutput, n, done, s);
    if output.Some? && whole.Some? {
      TotalPrefix(done + [output.value.value], Many(ParseOutput, n - 1, output.value.rest).value.value);
    }
  }

  /** One round of the output loop: an error means that the whole list is refused. */
  method ReadNextOutput(cursor: Cursor, outputs: seq<TxOut>, total: nat, ghost left: nat, ghost whole: Option<Parsed<seq<TxOut>>>)
    returns (r: Read<(TxOut, nat)>)
    requires cursor.Valid() && left > 0 && total == Total(outputs)
    requires whole == Prefixed(outputs, Many(ParseOutput, left, cursor.Rest()))
    modifies cursor
    ensures cursor.Valid()
    ensures r.Err? ==> OutputsInRange(whole) == None && (whole.Some? ==> r.error == OutputTotalOutOfRange)
    ensures r.Ok? ==> whole == Prefixed(outputs + [r.value.0], Many(ParseOutput, left - 1, cursor.Rest()))
    ensures r.Ok? ==> r.value.1 == Total(outputs + [r.value.0]) <= MAX_MONEY
  {
    ghost var s := cursor.Rest();
    var next, output := ReadOutput(cursor, total, outputs);
    NextOutput(whole, left, outputs, s, output);
    r := next;
  }

  method ReadOutputLoop(cursor: Cursor, count: nat) returns (r: Read<seq<TxOut>>)
    requires cursor.Valid()
    modifies cursor
    ensures cursor.Valid()
    ensures Matches(r, OutputsInRange(Many(ParseOutput, count, old(cursor.Rest()))), cursor.Rest())
    ensures r.Err? && Many(ParseOutput, count, old(cursor.Rest())).Some? ==> r.error == OutputTotalOutOfRange
  {
    ghost var whole := Many(ParseOutput, count, cursor.Rest());
    var outputs: seq<TxOut> := [];
    NothingDone(whole);
    var total := 0;
    ghost var left := count;
    for index := 0 to count
      invariant cursor.Valid() && |outputs| == index && total == Total(outputs) <= MAX_MONEY
      invariant left == count - index && whole == Prefixed(outputs, Many(ParseOutput, left, cursor.Rest()))
    {
      var next :- ReadNextOutput(cursor, outputs, total, left, whole);
      outputs, total, left := outputs + [next.0], next.1, left - 1;
    }
    AllDone(ParseOutput, outputs, cursor.Rest());
    return Ok(outputs);
  }

  /** The outputs, and where they start: the coinbase keeps everything up to there as one slice. */
  method ReadOutputs(cursor: Cursor) returns (r: Read<seq<TxOut>>, start: nat)
    requires cursor.Valid()
    modifies cursor
    ensures cursor.Valid()
    ensures Matches(r, OutputsInRange(ParseOutputs(old(cursor.Rest()))), cursor.Rest())
    ensures r.Ok? ==> CompactSize(old(cursor.Rest())).Some?
    ensures r.Ok? ==> start <= |cursor.bytes| && cursor.bytes[start..] == CompactSize(old(cursor.Rest())).value.rest
  {
    start := 0;
    var count :- cursor.ReadCompactSize();
    start := cursor.position;
    if count == 0 {
      return Err(EmptyOutputs), start;
    }
    if count > MAX_OUTPUTS || count > cursor.Remaining() / 9 {
      return Err(TooManyOutputs), start;
    }
    r := ReadOutputLoop(cursor, count);
  }

  // Witness stacks.

  lemma {:induction false} NextItem(whole: Option<Parsed<seq<Bytes>>>, n: nat, done: seq<Bytes>, s: Bytes)
    requires n > 0 && whole == Prefixed(done, Many(ParseItem, n, s))
    ensures ParseItem(s).None? ==> whole == None
    ensures ParseItem(s).Some? ==>
      whole == Prefixed(done + [ParseItem(s).value.value], Many(ParseItem, n - 1, ParseItem(s).value.rest))
  {
    ManyNext(ParseItem, n, done, s);
  }

  method ReadStack(cursor: Cursor) returns (r: Read<seq<Bytes>>)
    requires cursor.Valid()
    modifies cursor
    ensures cursor.Valid() && Matches(r, ParseStack(old(cursor.Rest())), cursor.Rest())
  {
    var count :- cursor.ReadCompactSize();
    if count > cursor.Remaining() {
      return Err(LengthOverflow);
    }
    ghost var whole := Many(ParseItem, count, cursor.Rest());
    var items: seq<Bytes> := [];
    NothingDone(whole);
    ghost var left := count;
    for index := 0 to count
      invariant cursor.Valid() && |items| == index
      invariant left == count - index && whole == Prefixed(items, Many(ParseItem, left, cursor.Rest()))
    {
      NextItem(whole, left, items, cursor.Rest());
      var item :- ReadVar(cursor, MAX_BLOCK_WEIGHT);
      items, left := items + [item], left - 1;
    }
    AllDone(ParseItem, items, cursor.Rest());
    return Ok(items);
  }

  lemma {:induction false} NextStack(whole: Option<Parsed<seq<seq<Bytes>>>>, n: nat, done: seq<seq<Bytes>>, s: Bytes)
    requires n > 0 && whole == Prefixed(done, Many(ParseStack, n, s))
    ensures ParseStack(s).None? ==> whole == None
    ensures ParseStack(s).Some? ==>
      whole == Prefixed(done + [ParseStack(s).value.value], Many(ParseStack, n - 1, ParseStack(s).value.rest))
  {
    ManyNext(ParseStack, n, done, s);
  }

  ghost predicate WithWitness(o: Option<Parsed<seq<seq<Bytes>>>>) {
    o.Some? && SomeWitness(o.value.value)
  }

  /** Keeps only the first input's stack, as the coinbase needs it, and whether any stack is nonempty. */
  method ReadStacks(cursor: Cursor, count: nat) returns (r: Read<(seq<Bytes>, bool)>)
    requires cursor.Valid() && count > 0
    modifies cursor
    ensures cursor.Valid()
    ensures r.Ok? <==> WithWitness(Many(ParseStack, count, old(cursor.Rest())))
    ensures r.Ok? ==> r.value.0 == Many(ParseStack, count, old(cursor.Rest())).value.value[0]
    ensures r.Ok? ==> cursor.Rest() == Many(ParseStack, count, old(cursor.Rest())).value.rest
    ensures r.Err? && Many(ParseStack, count, old(cursor.Rest())).Some? ==> r.error == SuperfluousWitness
  {
    ghost var whole := Many(ParseStack, count, cursor.Rest());
    ghost var stacks: seq<seq<Bytes>> := [];
    NothingDone(whole);
    var first: seq<Bytes> := [];
    var hasWitness := false;
    ghost var left := count;
    for index := 0 to count
      invariant cursor.Valid() && |stacks| == index
      invariant index > 0 ==> first == stacks[0]
      invariant hasWitness <==> SomeWitness(stacks)
      invariant left == count - index && whole == Prefixed(stacks, Many(ParseStack, left, cursor.Rest()))
    {
      NextStack(whole, left, stacks, cursor.Rest());
      var stack :- ReadStack(cursor);
      SomeWitnessNext(stacks, stack);
      hasWitness := hasWitness || stack != [];
      if index == 0 {
        first := stack;
      }
      stacks, left := stacks + [stack], left - 1;
    }
    AllDone(ParseStack, stacks, cursor.Rest());
    return if hasWitness then Ok((first, true)) else Err(SuperfluousWitness);
  }

  lemma {:induction false} SomeWitnessNext(stacks: seq<seq<Bytes>>, next: seq<Bytes>)
    ensures SomeWitness(stacks + [next]) <==> SomeWitness(stacks) || next != []
  {
    var more := stacks + [next];
    assert more[|stacks|] == next;
    if SomeWitness(stacks) {
      var k :| 0 <= k < |stacks| && stacks[k] != [];
      assert more[k] != [];
    }
  }

  /** What the parser reports of a transaction, in terms of its canonical serializations. */
  function View(t: Transaction, sha: HashFunction): ParsedTransaction {
    ParsedTransaction(
      sha(Stripped(t)),
      sha(Serialize(t)),
      |Stripped(t)|,
      t.segwit,
      if IsCoinbase(t.inputs)
      then Some(ParsedCoinbase(t.version, SerInputs(t.inputs) + EncodeCompactSize(|t.outputs|), t.outputs,
                               FirstStack(t), t.lockTime))
      else None,
      InputList(t.inputs),
      t.outputs)
  }

  lemma {:induction false} Between(bytes: Bytes, a: nat, b: nat, x: Bytes)
    requires a <= |bytes| && b <= |bytes| && bytes[a..] == x + bytes[b..]
    ensures a <= b && bytes[a..b] == x
  {
    assert bytes[a..][..|x|] == x;
  }

  /** Where the fields of a transaction start in the bytes it was read from. */
  datatype Places = Places(start: nat, inputsAt: nat, outputsAt: nat, stacksAt: nat, lockAt: nat, end: nat)

  ghost predicate Placed(bytes: Bytes, p: Places, t: Transaction) {
    && p.start + 4 <= |bytes| && p.inputsAt <= |bytes| && p.outputsAt <= |bytes| && p.stacksAt <= |bytes|
    && p.lockAt <= |bytes| && p.end <= |bytes|
    && bytes[p.start..p.start + 4] == t.version
    && bytes[p.start..] == Serialize(t) + bytes[p.end..]
    && bytes[p.inputsAt..] == SerInputs(t.inputs) + (EncodeCompactSize(|t.outputs|) + bytes[p.outputsAt..])
    && bytes[p.outputsAt..] == Concat(SerOutput, t.outputs) + bytes[p.stacksAt..]
    && bytes[p.lockAt..] == t.lockTime + bytes[p.end..]
  }

  lemma {:induction false} BetweenTwo(bytes: Bytes, a: nat, b: nat, x: Bytes, n: Bytes)
    requires a <= |bytes| && b <= |bytes| && bytes[a..] == x + (n + bytes[b..])
    ensures a <= b && bytes[a..b] == x + n
  {
    var rest := bytes[b..];
    assert x + (n + rest) == (x + n) + rest;
    Between(bytes, a, b, x + n);
  }

  lemma {:induction false} BetweenThree(bytes: Bytes, a: nat, b: nat, c: nat, x: Bytes, n: Bytes, y: Bytes)
    requires a <= |bytes| && b <= |bytes| && c <= |bytes|
    requires bytes[a..] == x + (n + bytes[b..]) && bytes[b..] == y + bytes[c..]
    ensures a <= c && bytes[a..c] == x + (n + y)
  {
    var rest := bytes[c..];
    assert n + (y + rest) == (n + y) + rest;
    BetweenTwo(bytes, a, c, x, n + y);
  }

  lemma {:induction false} SliceMiddle(bytes: Bytes, p: Places, t: Transaction)
    requires Placed(bytes, p, t)
    ensures p.inputsAt <= p.outputsAt <= p.stacksAt
    ensures bytes[p.inputsAt..p.outputsAt] == SerInputs(t.inputs) + EncodeCompactSize(|t.outputs|)
    ensures bytes[p.inputsAt..p.stacksAt] == SerInputs(t.inputs) + SerOutputs(t.outputs)
  {
    var i, n, o := SerInputs(t.inputs), EncodeCompactSize(|t.outputs|), Concat(SerOutput, t.outputs);
    BetweenTwo(bytes, p.inputsAt, p.outputsAt, i, n);
    Between(bytes, p.outputsAt, p.stacksAt, o);
    BetweenThree(bytes, p.inputsAt, p.outputsAt, p.stacksAt, i, n, o);
  }

  /** The stretches the parser slices out are the canonical serializations. */
  lemma {:induction false} Slices(bytes: Bytes, p: Places, t: Transaction)
    requires Placed(bytes, p, t)
    ensures p.start <= p.end && bytes[p.start..p.end] == Serialize(t)
    ensures p.inputsAt <= p.outputsAt <= p.stacksAt && p.lockAt <= p.end
    ensures bytes[p.inputsAt..p.outputsAt] == SerInputs(t.inputs) + EncodeCompactSize(|t.outputs|)
    ensures bytes[p.start..p.start + 4] + (bytes[p.inputsAt..p.stacksAt] + bytes[p.lockAt..p.end]) == Stripped(t)
    ensures |Stripped(t)| == 4 + (p.stacksAt - p.inputsAt) + 4
  {
    SliceMiddle(bytes, p, t);
    Between(bytes, p.start, p.end, Serialize(t));
    Between(bytes, p.lockAt, p.end, t.lockTime);
    var i, o := SerInputs(t.inputs), SerOutputs(t.outputs);
    Associate(i, o, t.lockTime);
  }

  ghost function Viewed(o: Option<Parsed<Transaction>>, sha: HashFunction): Option<Parsed<ParsedTransaction>> {
    if o.None? then None else Some(Parsed(View(o.value.value, sha), o.value.rest))
  }

  lemma {:induction false} OutputsSplit(s: Bytes)
    requires ParseOutputs(s).Some?
    ensures CompactSize(s).Some? && |ParseOutputs(s).value.value| == CompactSize(s).value.value
    ensures s == EncodeCompactSize(|ParseOutputs(s).value.value|) + CompactSize(s).value.rest
    ensures CompactSize(s).value.rest == Concat(SerOutput, ParseOutputs(s).value.value) + ParseOutputs(s).value.rest
  {
    var n := CompactSize(s).value;
    CompactSizeSound(s);
    OutputIsCodec();
    ManySound(ParseOutput, SerOutput, ValidOutput, n.value, n.rest);
  }

  ghost predicate InBounds(bytes: Bytes, p: Places) {
    && p.start + 4 <= |bytes| && p.inputsAt <= |bytes| && p.outputsAt <= |bytes| && p.stacksAt <= |bytes|
    && p.lockAt + 4 == p.end <= |bytes|
  }

  lemma {:induction false} PlacedByParser(bytes: Bytes, p: Places, t: Transaction, afterInputs: Bytes)
    requires InBounds(bytes, p)
    requires bytes[p.start..] == Serialize(t) + bytes[p.end..]
    requires bytes[p.start..p.start + 4] == t.version && bytes[p.lockAt..p.end] == t.lockTime
    requires ParseInputs(bytes[p.inputsAt..]) == Some(Parsed(t.inputs, afterInputs))
    requires ParseOutputs(afterInputs) == Some(Parsed(t.outputs, bytes[p.stacksAt..]))
    requires CompactSize(afterInputs).Some? && CompactSize(afterInputs).value.rest == bytes[p.outputsAt..]
    ensures Placed(bytes, p, t)
  {
    assert bytes[p.inputsAt..] == SerInputs(t.inputs) + afterInputs by {
      InputsSound(bytes[p.inputsAt..]);
    }
    OutputsSplit(afterInputs);
    LastSlice(bytes, p.lockAt, p.end);
  }

  lemma {:induction false} LastSlice(bytes: Bytes, a: nat, b: nat)
    requires a <= b <= |bytes|
    ensures bytes[a..] == bytes[a..b] + bytes[b..]
  {
  }

  /** Witness stacks and lock time. */
  method ReadEnd(cursor: Cursor, segwit: bool, inputCount: nat, ghost version: Bytes4, ghost inputs: seq<TxIn>,
                 ghost outputs: seq<TxOut>)
    returns (r: Read<(seq<Bytes>, Bytes4)>, lockAt: nat, ghost spec: Option<Parsed<Transaction>>)
    requires cursor.Valid() && inputCount == |inputs| > 0
    modifies cursor
    ensures cursor.Valid() && spec == ParseEnd(version, segwit, inputs, outputs, old(cursor.Rest()))
    ensures r.Ok? <==> spec.Some?
    ensures r.Ok? ==> r.value == (FirstStack(spec.value.value), spec.value.value.lockTime)
    ensures r.Ok? ==> cursor.Rest() == spec.value.rest && lockAt + 4 == cursor.position
    ensures r.Ok? ==> cursor.bytes[lockAt..cursor.position] == spec.value.value.lockTime
  {
    spec := ParseEnd(version, segwit, inputs, outputs, cursor.Rest());
    var firstStack: seq<Bytes> := [];
    lockAt := 0;
    if segwit {
      var scanned :- ReadStacks(cursor, inputCount);
      firstStack := scanned.0;
    }
    lockAt := cursor.position;
    var lockTime :- cursor.Take(4);
    Between(cursor.bytes, lockAt, cursor.position, lockTime);
    return Ok((firstStack, lockTime)), lockAt, spec;
  }

  function FirstStack(t: Transaction): seq<Bytes> {
    if t.stacks == [] then [] else t.stacks[0]
  }

  function Report(bytes: Bytes, p: Places, segwit: bool, version: Bytes4, inputs: seq<Outpoint>, isCoinbase: bool,
                  outputs: seq<TxOut>, firstStack: seq<Bytes>, lockTime: Bytes4, sha: HashFunction): ParsedTransaction
    requires p.start + 4 <= |bytes| && p.inputsAt <= p.outputsAt <= p.stacksAt <= |bytes| && p.lockAt <= p.end <= |bytes|
    requires p.start <= p.end
  {
    var whole := bytes[p.start..p.end];
    var txid := if segwit
                then sha(bytes[p.start..p.start + 4] + (bytes[p.inputsAt..p.stacksAt] + bytes[p.lockAt..p.end]))
                else sha(whole);
    ParsedTransaction(
      txid,
      if segwit then sha(whole) else txid,
      4 + (p.stacksAt - p.inputsAt) + 4,
      segwit,
      if isCoinbase then Some(ParsedCoinbase(version, bytes[p.inputsAt..p.outputsAt], outputs, firstStack, lockTime)) else None,
      inputs,
      outputs)
  }

  lemma {:induction false} ReportIsView(bytes: Bytes, p: Places, t: Transaction, sha: HashFunction)
    requires Placed(bytes, p, t)
    ensures p.start <= p.end && p.inputsAt <= p.outputsAt <= p.stacksAt && p.lockAt <= p.end
    ensures View(t, sha) == Report(bytes, p, t.segwit, t.version, InputList(t.inputs), IsCoinbase(t.inputs), t.outputs,
                                   FirstStack(t), t.lockTime, sha)
  {
    Slices(bytes, p, t);
    SizesAddUp(t);
  }

  /** `parse_transaction`: the cursor form of the functional parser, and its view of the result. */
  method ReadTransaction(cursor: Cursor, sha: HashFunction) returns (r: Read<ParsedTransaction>)
    requires cursor.Valid()
    modifies cursor
    ensures cursor.Valid()
    ensures Matches(r, Viewed(ParseTransaction(old(cursor.Rest())), sha), cursor.Rest())
  {
    var start := cursor.position;
    ghost var spec := ParseTransaction(cursor.Rest());
    var version :- cursor.Take(4);
    Between(cursor.bytes, start, cursor.position, version);
    var segwit :- ReadMarker(cursor);
    assert spec == ParseBody(version, segwit, cursor.Rest());
    r := ReadBody(cursor, start, version, segwit, sha);
  }

  method ReadBody(cursor: Cursor, start: nat, version: Bytes4, segwit: bool, sha: HashFunction)
    returns (r: Read<ParsedTransaction>)
    requires cursor.Valid() && start + 4 <= |cursor.bytes| && cursor.bytes[start..start + 4] == version
    requires ParseTransaction(cursor.bytes[start..]) == ParseBody(version, segwit, cursor.Rest())
    modifies cursor
    ensures cursor.Valid()
    ensures Matches(r, Viewed(ParseBody(version, segwit, old(cursor.Rest())), sha), cursor.Rest())
  {
    var inputsAt := cursor.position;
    ghost var inputs := ParseInputs(cursor.Rest());
    var scan :- ReadInputs(cursor);
    assert inputs.value.value != [];
    var inputList :- CheckInputs(scan, inputs.value.value);
    ScanIsCoinbase(inputs.value.value);
    r := ReadTail(cursor, start, inputsAt, version, segwit, inputs.value.value, inputList, |scan.outpoints|,
                  |scan.outpoints| == 1 && scan.nulls == 1, sha);
  }

  method ReadTail(cursor: Cursor, start: nat, inputsAt: nat, version: Bytes4, segwit: bool, ghost inputs: seq<TxIn>,
                  inputList: seq<Outpoint>, inputCount: nat, isCoinbase: bool, sha: HashFunction)
    returns (r: Read<ParsedTransaction>)
    requires cursor.Valid() && start + 4 <= |cursor.bytes| && cursor.bytes[start..start + 4] == version
    requires inputsAt <= |cursor.bytes| && ParseInputs(cursor.bytes[inputsAt..]) == Some(Parsed(inputs, cursor.Rest()))
    requires ParseTransaction(cursor.bytes[start..]) == ParseTail(version, segwit, inputs, cursor.Rest())
    requires inputs != [] && inputList == InputList(inputs) && inputCount == |inputs| && isCoinbase == IsCoinbase(inputs)
    modifies cursor
    ensures cursor.Valid()
    ensures Matches(r, Viewed(ParseTail(version, segwit, inputs, old(cursor.Rest())), sha), cursor.Rest())
  {
    ghost var afterInputs := cursor.Rest();
    var read, t := ReadFields(cursor, start, inputsAt, version, segwit, inputs, inputCount);
    if read.Err? {
      return Err(read.error);
    }
    var f := read.value;
    var view := ReportFields(cursor.bytes, f, version, segwit, inputList, isCoinbase, t.value.value, afterInputs, sha);
    return Ok(view);
  }

  method ReportFields(bytes: Bytes, f: Fields, version: Bytes4, segwit: bool, inputList: seq<Outpoint>, isCoinbase: bool,
                      ghost t: Transaction, ghost afterInputs: Bytes, sha: HashFunction)
    returns (view: ParsedTransaction)
    requires FieldsOf(bytes, f, t, afterInputs) && bytes[f.places.start..f.places.start + 4] == version
    requires ParseTransaction(bytes[f.places.start..]) == Some(Parsed(t, bytes[f.places.end..]))
    requires ParseInputs(bytes[f.places.inputsAt..]) == Some(Parsed(t.inputs, afterInputs))
    requires t.version == version && t.segwit == segwit
    requires inputList == InputList(t.inputs) && isCoinbase == IsCoinbase(t.inputs)
    ensures view == View(t, sha)
  {
    BodyIsView(bytes, f.places, version, segwit, t, afterInputs, sha);
    view := Report(bytes, f.places, segwit, version, inputList, isCoinbase, f.outputs, f.firstStack, f.lockTime, sha);
  }

  /** What is read after the inputs, and where. */
  datatype Fields = Fields(places: Places, outputs: seq<TxOut>, firstStack: seq<Bytes>, lockTime: Bytes4)

  method ReadFields(cursor: Cursor, start: nat, inputsAt: nat, version: Bytes4, segwit: bool, ghost inputs: seq<TxIn>,
                    inputCount: nat)
    returns (r: Read<Fields>, ghost spec: Option<Parsed<Transaction>>)
    requires cursor.Valid() && start + 4 <= |cursor.bytes| && inputsAt <= |cursor.bytes| && inputs != [] && inputCount == |inputs|
    modifies cursor
    ensures cursor.Valid() && spec == ParseTail(version, segwit, inputs, old(cursor.Rest()))
    ensures r.Ok? <==> spec.Some?
    ensures r.Ok? ==> spec.value.rest == cursor.Rest() && r.value.places.start == start && r.value.places.inputsAt == inputsAt
    ensures r.Ok? ==> r.value.places.end == cursor.position && FieldsOf(cursor.bytes, r.value, spec.value.value, old(cursor.Rest()))
    ensures r.Ok? ==> spec.value.value.version == version && spec.value.value.segwit == segwit && spec.value.value.inputs == inputs
  {
    spec := ParseTail(version, segwit, inputs, cursor.Rest());
    var read, outputsAt := ReadOutputs(cursor);
    if read.Err? {
      return Err(read.error), spec;
    }
    var stacksAt := cursor.position;
    var ended, lockAt, end := ReadEnd(cursor, segwit, inputCount, version, inputs, read.value);
    assert spec == end;
    if ended.Err? {
      return Err(ended.error), spec;
    }
    var p := Places(start, inputsAt, outputsAt, stacksAt, lockAt, cursor.position);
    return Ok(Fields(p, read.value, ended.value.0, ended.value.1)), spec;
  }

  ghost predicate FieldsOf(bytes: Bytes, f: Fields, t: Transaction, afterInputs: Bytes) {
    && InBounds(bytes, f.places)
    && f.outputs == t.outputs && f.firstStack == FirstStack(t) && f.lockTime == t.lockTime
    && bytes[f.places.lockAt..f.places.end] == t.lockTime
    && ParseOutputs(afterInputs) == Some(Parsed(t.outputs, bytes[f.places.stacksAt..]))
    && CompactSize(afterInputs).Some? && CompactSize(afterInputs).value.rest == bytes[f.places.outputsAt..]
  }

  lemma {:induction false} BodyIsView(bytes: Bytes, p: Places, version: Bytes4, segwit: bool, t: Transaction, afterInputs: Bytes,
                                      sha: HashFunction)
    requires InBounds(bytes, p) && bytes[p.start..p.start + 4] == version && bytes[p.lockAt..p.end] == t.lockTime
    requires ParseTransaction(bytes[p.start..]) == Some(Parsed(t, bytes[p.end..])) && t.version == version && t.segwit == segwit
    requires ParseInputs(bytes[p.inputsAt..]) == Some(Parsed(t.inputs, afterInputs))
    requires ParseOutputs(afterInputs) == Some(Parsed(t.outputs, bytes[p.stacksAt..]))
    requires CompactSize(afterInputs).Some? && CompactSize(afterInputs).value.rest == bytes[p.outputsAt..]
    ensures p.start <= p.end && p.inputsAt <= p.outputsAt <= p.stacksAt && p.lockAt <= p.end
    ensures View(t, sha) == Report(bytes, p, segwit, version, InputList(t.inputs), IsCoinbase(t.inputs), t.outputs,
                                   FirstStack(t), t.lockTime, sha)
  {
    TransactionSound(bytes[p.start..], t, bytes[p.end..]);
    PlacedByParser(bytes, p, t, afterInputs);
    ReportIsView(bytes, p, t, sha);
  }

  // ----- re-serializing the coinbase -----

  lemma {:induction false} ConcatSnoc<T>(ser: T -> Bytes, xs: seq<T>, x: T)
    ensures Concat(ser, xs + [x]) == Concat(ser, xs) + ser(x)
    decreases |xs|
  {
    if xs == [] {
      assert [x][1..] == [];
      assert Concat(ser, [x]) == ser(x) + [] == ser(x);
      assert xs + [x] == [x];
    } else {
      ConcatSnoc(ser, xs[1..], x);
      assert (xs + [x])[1..] == xs[1..] + [x];
    }
  }

  /** The coinbase without witness, one output script replaced. */
  function Reserialized(c: ParsedCoinbase, index: nat, script: Bytes): Bytes
    requires index < |c.outputs|
  {
    c.version + (c.inputsAndOutputCount
    + (Concat(SerOutput, Replaced(c.outputs, index, script)) + c.lockTime))
  }

  lemma {:induction false} AppendOutput(head: Bytes, sofar: Bytes, outputs: seq<TxOut>, i: nat)
    requires i < |outputs| && sofar == head + Concat(SerOutput, outputs[..i])
    ensures sofar + outputs[i].value + EncodeCompactSize(|outputs[i].script|) + outputs[i].script
         == head + Concat(SerOutput, outputs[..i + 1])
  {
    var o := outputs[i];
    var n := EncodeCompactSize(|o.script|);
    ConcatSnoc(SerOutput, outputs[..i], o);
    assert outputs[..i + 1] == outputs[..i] + [o];
    assert ((sofar + o.value) + n) + o.script == sofar + (o.value + (n + o.script));
    var before := Concat(SerOutput, outputs[..i]);
    assert (head + before) + SerOutput(o) == head + (before + SerOutput(o));
  }

  function Replaced(outputs: seq<TxOut>, index: nat, script: Bytes): (r: seq<TxOut>)
    requires index < |outputs|
    ensures |r| == |outputs|
    ensures forall i :: 0 <= i < |r| ==> r[i].value == outputs[i].value
    ensures forall i :: 0 <= i < |r| ==> r[i].script == if i == index then script else outputs[i].script
  {
    outputs[index := TxOut(outputs[index].value, script)]
  }

  method SerializedWithReplacedScript(c: ParsedCoinbase, index: nat, script: Bytes) returns (r: Read<Bytes>)
    ensures r.Ok? <==> index < |c.outputs|
    ensures r.Ok? ==> r.value == Reserialized(c, index, script)
  {
    if index >= |c.outputs| {
      return Err(LengthOverflow);
    }
    ghost var replaced := Replaced(c.outputs, index, script);
    var serialized: Bytes := c.version;
    serialized := serialized + c.inputsAndOutputCount;
    ghost var head := serialized;
    for i := 0 to |c.outputs|
      invariant serialized == head + Concat(SerOutput, replaced[..i])
    {
      var text := if i == index then script else c.outputs[i].script;
      AppendOutput(head, serialized, replaced, i);
      serialized := serialized + c.outputs[i].value;
      serialized := serialized + EncodeCompactSize(|text|);
      serialized := serialized + text;
    }
    assert replaced[..|c.outputs|] == replaced;
    Grouping(c.version, c.inputsAndOutputCount, Concat(SerOutput, replaced), c.lockTime);
    return Ok(serialized + c.lockTime);
  }

  lemma {:induction false} Grouping(a: Bytes, b: Bytes, c: Bytes, d: Bytes)
    ensures a + b + c + d == a + (b + (c + d))
  {
  }

  /** Putting a coinbase output's own script back yields exactly the txid preimage. */
  lemma {:induction false} OwnScriptIsTxidPreimage(t: Transaction, index: nat, sha: HashFunction)
    requires IsCoinbase(t.inputs) && index < |t.outputs|
    ensures Reserialized(View(t, sha).coinbase.value, index, t.outputs[index].script) == Stripped(t)
    ensures sha(Reserialized(View(t, sha).coinbase.value, index, t.outputs[index].script)) == View(t, sha).txid
  {
    assert Replaced(t.outputs, index, t.outputs[index].script) == t.outputs;
    var i, n, o := SerInputs(t.inputs), EncodeCompactSize(|t.outputs|), Concat(SerOutput, t.outputs);
    assert (i + n) + (o + t.lockTime) == i + ((n + o) + t.lockTime);
  }

  // ----- blocks -----

  /** The first transaction is a coinbase and no other is. */
  ghost predicate CoinbaseFirst(txs: seq<Transaction>) {
    forall k :: 0 <= k < |txs| ==> (IsCoinbase(txs[k].inputs) <==> k == 0)
  }

  function StrippedTotal(txs: seq<Transaction>): nat {
    if txs == [] then 0 else StrippedTotal(txs[..|txs| - 1]) + |Stripped(txs[|txs| - 1])|
  }

  /** The transactions of a block: a counted list that ends where the block ends. */
  ghost function BlockTransactions(bytes: Bytes): Option<seq<Transaction>> {
    if !(HEADER_LEN + 1 <= |bytes| <= MAX_BLOCK_WEIGHT) then None else
    var txs :- ListedTransactions(bytes[HEADER_LEN..]);
    if txs.rest == [] && CoinbaseFirst(txs.value) then Some(txs.value) else None
  }

  lemma {:induction false} TransactionWidth(t: Transaction)
    requires ValidTransaction(t)
    ensures |Stripped(t)| >= 60 && |Serialize(t)| >= |Stripped(t)|
  {
    SizesAddUp(t);
    InputWidth(t.inputs[0]);
    OutputWidth(t.outputs[0]);
    assert |Concat(SerInput, t.inputs)| >= 41 && |Concat(SerOutput, t.outputs)| >= 9;
  }

  /** The right-hand side of the equivalence below. */
  ghost predicate CanonicalBlock(bytes: Bytes, txs: seq<Transaction>) {
    && HEADER_LEN + 1 <= |bytes| <= MAX_BLOCK_WEIGHT
    && 1 <= |txs| <= MAX_TRANSACTIONS
    && AllValid(ValidTransaction, txs)
    && CoinbaseFirst(txs)
    && bytes == bytes[..HEADER_LEN] + SerList(Serialize, txs)
  }

  lemma {:induction false} ListedSound(s: Bytes, txs: seq<Transaction>, rest: Bytes)
    requires ListedTransactions(s) == Some(Parsed(txs, rest))
    ensures 1 <= |txs| <= MAX_TRANSACTIONS && AllValid(ValidTransaction, txs)
    ensures s == SerList(Serialize, txs) + rest
  {
    TransactionIsCodec();
    ListSound(ParseTransaction, Serialize, ValidTransaction, 1, MAX_TRANSACTIONS, 60, s);
  }

  lemma {:induction false} BlockSound(bytes: Bytes, txs: seq<Transaction>)
    requires BlockTransactions(bytes) == Some(txs)
    ensures CanonicalBlock(bytes, txs)
  {
    var body := bytes[HEADER_LEN..];
    ListedSound(body, txs, []);
    assert body == SerList(Serialize, txs);
    LastSlice(bytes, 0, HEADER_LEN);
  }

  lemma {:induction false} BlockComplete(bytes: Bytes, txs: seq<Transaction>)
    requires CanonicalBlock(bytes, txs)
    ensures BlockTransactions(bytes) == Some(txs)
  {
    TransactionIsCodec();
    forall k | 0 <= k < |txs|
      ensures |Serialize(txs[k])| >= 60
    {
      TransactionWidth(txs[k]);
    }
    var text := SerList(Serialize, txs);
    assert bytes[HEADER_LEN..] == text == text + [];
    ListComplete(ParseTransaction, Serialize, ValidTransaction, 1, MAX_TRANSACTIONS, 60, txs, []);
  }

  /** A block is accepted as a list of transactions exactly when it is an 80-byte header followed by
      the canonical serialization of valid transactions, the coinbase first and only first. */
  lemma {:induction false} BlockTransactionsExact(bytes: Bytes, txs: seq<Transaction>)
    ensures BlockTransactions(bytes) == Some(txs) <==> CanonicalBlock(bytes, txs)
  {
    if BlockTransactions(bytes) == Some(txs) {
      BlockSound(bytes, txs);
    }
    if CanonicalBlock(bytes, txs) {
      BlockComplete(bytes, txs);
    }
  }

  function MerkleRoot(hashes: seq<Hash>, sha: HashFunction): Hash
    requires hashes != []
  {
    OrderedMerkle.Root(OrderedMerkle.Concatenated(sha), hashes)
  }

  predicate MerkleMutated(hashes: seq<Hash>, sha: HashFunction) {
    OrderedMerkle.Mutated(OrderedMerkle.Concatenated(sha), hashes)
  }

  function Mapped<T, U>(f: T -> U, xs: seq<T>): (r: seq<U>)
    ensures |r| == |xs|
  {
    if xs == [] then [] else [f(xs[0])] + Mapped(f, xs[1..])
  }

  lemma {:induction false} MappedAt<T, U>(f: T -> U, xs: seq<T>, k: nat)
    requires k < |xs|
    ensures Mapped(f, xs)[k] == f(xs[k])
  {
    if k > 0 {
      MappedAt(f, xs[1..], k - 1);
    }
  }

  function Viewer(sha: HashFunction): Transaction -> ParsedTransaction {
    (t: Transaction) => View(t, sha)
  }

  function Views(txs: seq<Transaction>, sha: HashFunction): (r: seq<ParsedTransaction>)
    ensures |r| == |txs|
  {
    Mapped(Viewer(sha), txs)
  }

  lemma {:induction false} ViewAt(txs: seq<Transaction>, k: nat, sha: HashFunction)
    requires k < |txs|
    ensures Views(txs, sha)[k] == View(txs[k], sha)
  {
    MappedAt(Viewer(sha), txs, k);
  }

  function Txids(views: seq<ParsedTransaction>): (r: seq<Hash>)
    ensures |r| == |views|
    ensures forall k :: 0 <= k < |r| ==> r[k] == views[k].txid
  {
    seq(|views|, k requires 0 <= k < |views| => views[k].txid)
  }

  function Wtxids(views: seq<ParsedTransaction>): (r: seq<Hash>)
    ensures |r| == |views|
  {
    seq(|views|, k requires 0 <= k < |views| => views[k].wtxid)
  }

  predicate AnyWitness(views: seq<ParsedTransaction>) {
    exists k :: 0 <= k < |views| && views[k].hasWitness
  }

  predicate IsCommitment(script: Bytes) {
    |script| >= 38 && script[..6] == [0x6a, 0x24, 0xaa, 0x21, 0xa9, 0xed]
  }

  /** The last output that carries a witness commitment. */
  function CommitmentIndex(outputs: seq<TxOut>): (r: Option<nat>)
    ensures r.Some? ==> r.value < |outputs| && IsCommitment(outputs[r.value].script)
    ensures r.Some? ==> forall k :: r.value < k < |outputs| ==> !IsCommitment(outputs[k].script)
    ensures r.None? ==> forall k :: 0 <= k < |outputs| ==> !IsCommitment(outputs[k].script)
  {
    if outputs == [] then None
    else
      var n := |outputs| - 1;
      if IsCommitment(outputs[n].script) then Some(n) else CommitmentIndex(outputs[..n])
  }

  /** `verify_witness_commitment`; the coinbase's own leaf is zero. */
  function CheckWitness(coinbase: ParsedCoinbase, wtxids: seq<Hash>, blockHasWitness: bool, sha: HashFunction): Read<()>
    requires wtxids != []
  {
    var index := CommitmentIndex(coinbase.outputs);
    if !blockHasWitness && index.None? then Ok(())
    else if index.None? then Err(MissingWitnessCommitment)
    else if |coinbase.witnessItems| != 1 || |coinbase.witnessItems[0]| != 32 then Err(InvalidCoinbaseWitness)
    else if coinbase.outputs[index.value].script[6..38] != sha(MerkleRoot(wtxids[0 := ZERO_HASH], sha) + coinbase.witnessItems[0])
    then Err(WitnessCommitmentMismatch)
    else Ok(())
  }

  function BlockWeight(stripped: nat, total: nat): nat {
    3 * stripped + total
  }

  function StrippedSize(txs: seq<Transaction>): nat {
    HEADER_LEN + |EncodeCompactSize(|txs|)| + StrippedTotal(txs)
  }

  /** What the checks on the whole list say of a block whose transactions parse. */
  ghost function Verdict(bytes: Bytes, txs: seq<Transaction>, sha: HashFunction): Read<ParsedBlock>
    requires BlockTransactions(bytes) == Some(txs)
  {
    BlockSound(bytes, txs);
    ViewAt(txs, 0, sha);
    Bound(DecodeHeader(bytes[..HEADER_LEN]).value, bytes, |txs|, StrippedSize(txs), Views(txs, sha), sha)
  }

  ghost function ParseBlock(bytes: Bytes, sha: HashFunction): Option<ParsedBlock> {
    var txs :- BlockTransactions(bytes);
    match Verdict(bytes, txs, sha)
    case Ok(block) => Some(block)
    case Err(_) => None
  }

  /** The checks on the whole list: weight, Merkle root, mutation, witness commitment. */
  function Bound(header: Header, bytes: Bytes, count: nat, stripped: nat, views: seq<ParsedTransaction>,
                 sha: HashFunction): Read<ParsedBlock>
    requires |bytes| >= HEADER_LEN && |views| > 0 && views[0].coinbase.Some?
  {
    var txids := Txids(views);
    var weight := BlockWeight(stripped, |bytes|);
    if weight > MAX_BLOCK_WEIGHT then Err(BlockWeightExceeded)
    else if MerkleMutated(txids, sha) then Err(MutatedMerkleTree)
    else if MerkleRoot(txids, sha) != header.merkleRoot then Err(MerkleRootMismatch)
    else
      var _ :- CheckWitness(views[0].coinbase.value, Wtxids(views), AnyWitness(views), sha);
      Ok(ParsedBlock(header, sha(bytes[..HEADER_LEN]), txids[0], count, stripped, |bytes|, weight,
                     views[0].coinbase.value, txids, views))
  }

  // ----- reading a block -----

  /** The coinbase rule and the running size, on what the parser reports. */
  predicate PlacedCoinbase(views: seq<ParsedTransaction>) {
    views == [] || (PlacedCoinbase(views[..|views| - 1]) && (views[|views| - 1].coinbase.Some? <==> |views| == 1))
  }

  function StrippedSum(views: seq<ParsedTransaction>): nat {
    if views == [] then 0 else StrippedSum(views[..|views| - 1]) + views[|views| - 1].strippedSize
  }

  lemma {:induction false} PlacedReports(views: seq<ParsedTransaction>, txs: seq<Transaction>)
    requires |views| == |txs| && forall k :: 0 <= k < |txs| ==> (views[k].coinbase.Some? <==> IsCoinbase(txs[k].inputs))
    ensures PlacedCoinbase(views) <==> CoinbaseFirst(txs)
  {
    if txs != [] {
      var n := |txs| - 1;
      PlacedReports(views[..n], txs[..n]);
      CoinbaseFirstSnoc(txs[..n], txs[n]);
      assert txs == txs[..n] + [txs[n]];
    }
  }

  lemma {:induction false} CoinbaseFirstSnoc(init: seq<Transaction>, last: Transaction)
    ensures CoinbaseFirst(init + [last]) <==> CoinbaseFirst(init) && (IsCoinbase(last.inputs) <==> |init| == 0)
  {
    var txs := init + [last];
    assert txs[|init|] == last;
    assert forall k :: 0 <= k < |init| ==> txs[k] == init[k];
  }

  lemma {:induction false} LastStripped(txs: seq<Transaction>)
    requires txs != []
    ensures StrippedTotal(txs) == StrippedTotal(txs[..|txs| - 1]) + |Stripped(txs[|txs| - 1])|
  {
  }

  ghost predicate ReportsSize(view: ParsedTransaction, t: Transaction) {
    view.strippedSize == |Stripped(t)|
  }

  lemma {:induction false} SummedReports(views: seq<ParsedTransaction>, txs: seq<Transaction>)
    requires |views| == |txs|
    requires forall k {:trigger ReportsSize(views[k], txs[k])} :: 0 <= k < |txs| ==> ReportsSize(views[k], txs[k])
    ensures StrippedSum(views) == StrippedTotal(txs)
  {
    if txs != [] {
      var n := |txs| - 1;
      var viewsBefore, txsBefore := views[..n], txs[..n];
      forall k | 0 <= k < n
        ensures ReportsSize(viewsBefore[k], txsBefore[k])
      {
        assert ReportsSize(views[k], txs[k]);
      }
      SummedReports(viewsBefore, txsBefore);
      assert ReportsSize(views[n], txs[n]);
      LastStripped(txs);
    }
  }

  lemma {:induction false} OnViews(txs: seq<Transaction>, sha: HashFunction)
    ensures PlacedCoinbase(Views(txs, sha)) <==> CoinbaseFirst(txs)
    ensures StrippedSum(Views(txs, sha)) == StrippedTotal(txs)
  {
    forall k | 0 <= k < |txs|
      ensures Views(txs, sha)[k] == View(txs[k], sha)
    {
      ViewAt(txs, k, sha);
    }
    PlacedReports(Views(txs, sha), txs);
    assert forall k :: 0 <= k < |txs| ==> ReportsSize(View(txs[k], sha), txs[k]);
    SummedReports(Views(txs, sha), txs);
  }

  function MapParsed<T, U>(f: T -> U, o: Option<Parsed<T>>): Option<Parsed<U>> {
    if o.None? then None else Some(Parsed(f(o.value.value), o.value.rest))
  }

  /** Parsing a list of images is mapping a parsed list. */
  lemma {:induction false} ManyMapped<T(!new), U(!new)>(p: Parser<T>, q: Parser<U>, f: T -> U, n: nat, s: Bytes)
    requires forall s :: q(s) == MapParsed(f, p(s))
    ensures Many(q, n, s).Some? <==> Many(p, n, s).Some?
    ensures Many(p, n, s).Some? ==> Many(q, n, s).value.rest == Many(p, n, s).value.rest
    ensures Many(p, n, s).Some? ==> Many(q, n, s).value.value == Mapped(f, Many(p, n, s).value.value)
    decreases n
  {
    if n > 0 && p(s).Some? {
      ManyMapped(p, q, f, n - 1, p(s).value.rest);
      var others := Many(p, n - 1, p(s).value.rest);
      if others.Some? {
        assert ([p(s).value.value] + others.value.value)[1..] == others.value.value;
      }
    }
  }

  ghost function ViewParser(sha: HashFunction): Parser<ParsedTransaction> {
    (s: Bytes) => Viewed(ParseTransaction(s), sha)
  }

  lemma {:induction false} ViewParserMaps(sha: HashFunction)
    ensures forall s :: ViewParser(sha)(s) == MapParsed(Viewer(sha), ParseTransaction(s))
  {
  }

  ghost function ViewList(o: Option<Parsed<seq<Transaction>>>, sha: HashFunction): Option<Parsed<seq<ParsedTransaction>>> {
    if o.None? then None else Some(Parsed(Views(o.value.value, sha), o.value.rest))
  }

  lemma {:induction false} ListOfViews(n: nat, s: Bytes, sha: HashFunction)
    ensures Many(ViewParser(sha), n, s) == ViewList(Many(ParseTransaction, n, s), sha)
  {
    ViewParserMaps(sha);
    ManyMapped(ParseTransaction, ViewParser(sha), Viewer(sha), n, s);
  }

  /** What the block loop reads is the view of the list that the functional parser reads. */
  lemma {:induction false} PlacedAlike(o: Option<Parsed<seq<Transaction>>>, sha: HashFunction)
    ensures PlacedViews(ViewList(o, sha)) <==> WellPlaced(o)
    ensures o.Some? ==> StrippedSum(ViewList(o, sha).value.value) == StrippedTotal(o.value.value)
  {
    if o.Some? {
      OnViews(o.value.value, sha);
    }
  }

  /** `p` is the view parser, under a name that keeps the block loop from looking inside it. */
  ghost predicate AgreesAt(p: Parser<ParsedTransaction>, sha: HashFunction, s: Bytes) {
    p(s) == Viewed(ParseTransaction(s), sha)
  }

  ghost predicate ParsesViews(p: Parser<ParsedTransaction>, sha: HashFunction) {
    forall s {:trigger AgreesAt(p, sha, s)} :: AgreesAt(p, sha, s)
  }

  method ReadView(cursor: Cursor, sha: HashFunction, ghost p: Parser<ParsedTransaction>) returns (r: Read<ParsedTransaction>)
    requires cursor.Valid() && ParsesViews(p, sha)
    modifies cursor
    ensures cursor.Valid() && Matches(r, p(old(cursor.Rest())), cursor.Rest())
  {
    assert AgreesAt(p, sha, cursor.Rest());
    r := ReadTransaction(cursor, sha);
  }

  lemma {:induction false} PlacedPrefix(done: seq<ParsedTransaction>, more: seq<ParsedTransaction>)
    requires PlacedCoinbase(done + more)
    ensures PlacedCoinbase(done)
    decreases |more|
  {
    if more == [] {
      assert done + more == done;
    } else {
      assert (done + more)[..|done + more| - 1] == done + more[..|more| - 1];
      PlacedPrefix(done, more[..|more| - 1]);
    }
  }

  lemma {:induction false} NextPlaced(done: seq<ParsedTransaction>, view: ParsedTransaction)
    ensures PlacedCoinbase(done + [view]) <==> PlacedCoinbase(done) && (view.coinbase.Some? <==> |done| == 0)
    ensures StrippedSum(done + [view]) == StrippedSum(done) + view.strippedSize
  {
    assert (done + [view])[..|done|] == done;
  }

  lemma {:induction false} NextView(p: Parser<ParsedTransaction>, whole: Option<Parsed<seq<ParsedTransaction>>>, n: nat,
                                    done: seq<ParsedTransaction>, s: Bytes)
    requires n > 0 && whole == Prefixed(done, Many(p, n, s))
    ensures p(s).None? ==> whole == None
    ensures p(s).Some? ==> whole == Prefixed(done + [p(s).value.value], Many(p, n - 1, p(s).value.rest))
    ensures p(s).Some? && PlacedViews(whole) ==> PlacedCoinbase(done + [p(s).value.value])
  {
    ManyNext(p, n, done, s);
    if p(s).Some? && whole.Some? && PlacedCoinbase(whole.value.value) {
      PlacedPrefix(done + [p(s).value.value], Many(p, n - 1, p(s).value.rest).value.value);
    }
  }

  ghost predicate PlacedViews(o: Option<Parsed<seq<ParsedTransaction>>>) {
    o.Some? && PlacedCoinbase(o.value.value)
  }

  /** Why a list with a misplaced coinbase is refused. */
  function MisplacedError(views: seq<ParsedTransaction>): BlockStructureError {
    if views != [] && views[0].coinbase.None? then FirstTransactionNotCoinbase else MultipleCoinbaseTransactions
  }

  lemma {:induction false} FirstPlaced(views: seq<ParsedTransaction>)
    requires PlacedCoinbase(views) && views != []
    ensures views[0].coinbase.Some?
  {
    if |views| > 1 {
      FirstPlaced(views[..|views| - 1]);
    }
  }

  lemma {:induction false} SecondCoinbase(whole: Option<Parsed<seq<ParsedTransaction>>>, views: seq<ParsedTransaction>,
                                          others: Option<Parsed<seq<ParsedTransaction>>>)
    requires views != [] && PlacedCoinbase(views) && whole == Prefixed(views, others) && whole.Some?
    ensures MisplacedError(whole.value.value) == MultipleCoinbaseTransactions
  {
    FirstPlaced(views);
  }

  method ReadViews(cursor: Cursor, count: nat, sha: HashFunction, ghost p: Parser<ParsedTransaction>)
    returns (r: Read<(seq<ParsedTransaction>, nat)>)
    requires cursor.Valid() && ParsesViews(p, sha)
    modifies cursor
    ensures cursor.Valid()
    ensures r.Ok? <==> PlacedViews(Many(p, count, old(cursor.Rest())))
    ensures r.Ok? ==> r.value.0 == Many(p, count, old(cursor.Rest())).value.value && r.value.1 == StrippedSum(r.value.0)
    ensures r.Ok? ==> cursor.Rest() == Many(p, count, old(cursor.Rest())).value.rest
    ensures r.Err? && Many(p, count, old(cursor.Rest())).Some? ==>
      r.error == MisplacedError(Many(p, count, old(cursor.Rest())).value.value)
  {
    ghost var whole := Many(p, count, cursor.Rest());
    var views: seq<ParsedTransaction> := [];
    NothingDone(whole);
    var stripped: nat := 0;
    ghost var left := count;
    for index := 0 to count
      invariant cursor.Valid() && |views| == index && left == count - index
      invariant whole == Prefixed(views, Many(p, left, cursor.Rest()))
      invariant PlacedCoinbase(views) && stripped == StrippedSum(views)
    {
      ghost var others := Many(p, left, cursor.Rest());
      NextView(p, whole, left, views, cursor.Rest());
      var transaction :- ReadView(cursor, sha, p);
      NextPlaced(views, transaction);
      if index == 0 {
        if transaction.coinbase.None? {
          return Err(FirstTransactionNotCoinbase);
        }
      } else if transaction.coinbase.Some? {
        if whole.Some? {
          SecondCoinbase(whole, views, others);
        }
        return Err(MultipleCoinbaseTransactions);
      }
      stripped := stripped + transaction.strippedSize;
      views, left := views + [transaction], left - 1;
    }
    AllDone(p, views, cursor.Rest());
    return Ok((views, stripped));
  }

  method ReadCounted(cursor: Cursor, count: nat, sha: HashFunction) returns (r: Read<(seq<ParsedTransaction>, nat)>)
    requires cursor.Valid()
    modifies cursor
    ensures cursor.Valid()
    ensures r.Ok? <==> WellPlaced(Many(ParseTransaction, count, old(cursor.Rest())))
    ensures r.Ok? ==> ListRead(r.value, Many(ParseTransaction, count, old(cursor.Rest())), cursor.Rest(), sha)
  {
    ghost var list := Many(ParseTransaction, count, cursor.Rest());
    ListOfViews(count, cursor.Rest(), sha);
    PlacedAlike(list, sha);
    ViewParserMaps(sha);
    r := ReadViews(cursor, count, sha, ViewParser(sha));
  }

  ghost predicate ListRead(read: (seq<ParsedTransaction>, nat), list: Option<Parsed<seq<Transaction>>>, rest: Bytes,
                           sha: HashFunction)
  {
    list.Some? && read == (Views(list.value.value, sha), StrippedTotal(list.value.value)) && rest == list.value.rest
  }

  ghost predicate WellPlaced(o: Option<Parsed<seq<Transaction>>>) {
    o.Some? && CoinbaseFirst(o.value.value)
  }

  /** `parse_and_verify_block`. */
  method ReadBlock(bytes: Bytes, sha: HashFunction) returns (r: Read<ParsedBlock>)
    ensures r.Ok? <==> ParseBlock(bytes, sha).Some?
    ensures r.Ok? ==> r.value == ParseBlock(bytes, sha).value
    ensures BlockTransactions(bytes).Some? ==> r == Verdict(bytes, BlockTransactions(bytes).value, sha)
    ensures |bytes| < HEADER_LEN + 1 ==> r == Err(BlockTooShort)
    ensures |bytes| > MAX_BLOCK_WEIGHT ==> r == Err(SerializedBlockTooLarge)
  {
    if |bytes| < HEADER_LEN + 1 {
      return Err(BlockTooShort);
    }
    if |bytes| > MAX_BLOCK_WEIGHT {
      return Err(SerializedBlockTooLarge);
    }
    var count, stripped, views, txs := ReadWholeList(bytes, sha);
    if views.Err? {
      return Err(views.error);
    }
    BlockFields(bytes, txs.value, sha);
    r := CheckBlock(DecodeHeader(bytes[..HEADER_LEN]).value, bytes, count, stripped, views.value, sha);
  }

  /** The transactions after the header, which must end where the block ends. */
  method ReadWholeList(bytes: Bytes, sha: HashFunction)
    returns (count: nat, stripped: nat, r: Read<seq<ParsedTransaction>>, ghost txs: Option<seq<Transaction>>)
    requires HEADER_LEN + 1 <= |bytes| <= MAX_BLOCK_WEIGHT
    ensures txs == BlockTransactions(bytes) && (r.Ok? <==> txs.Some?)
    ensures r.Ok? ==> count == |txs.value| && stripped == StrippedSize(txs.value) && r.value == Views(txs.value, sha)
  {
    txs := BlockTransactions(bytes);
    stripped := 0;
    var cursor := new Cursor(bytes, HEADER_LEN);
    var size, read;
    count, size, read := ReadList(cursor, sha);
    if read.Err? {
      return count, stripped, Err(read.error), txs;
    }
    if cursor.position != |bytes| {
      return count, stripped, Err(TrailingBytes), txs;
    }
    return count, HEADER_LEN + size + read.value.1, Ok(read.value.0), txs;
  }

  ghost function ListedTransactions(s: Bytes): Option<Parsed<seq<Transaction>>> {
    ParseList(ParseTransaction, 1, MAX_TRANSACTIONS, 60, s)
  }

  method ReadList(cursor: Cursor, sha: HashFunction)
    returns (count: nat, countSize: nat, r: Read<(seq<ParsedTransaction>, nat)>)
    requires cursor.Valid()
    modifies cursor
    ensures cursor.Valid()
    ensures r.Ok? <==> WellPlaced(ListedTransactions(old(cursor.Rest())))
    ensures r.Ok? ==> ListRead(r.value, ListedTransactions(old(cursor.Rest())), cursor.Rest(), sha)
    ensures r.Ok? ==> count == |r.value.0| && countSize == |EncodeCompactSize(count)|
  {
    var start := cursor.position;
    ghost var s := cursor.Rest();
    count, countSize := 0, 0;
    var size := cursor.ReadCompactSize();
    if size.Err? {
      return count, countSize, Err(size.error);
    }
    CompactSizeSound(s);
    count, countSize := size.value, cursor.position - start;
    if count == 0 {
      return count, countSize, Err(EmptyBlock);
    }
    if count > MAX_TRANSACTIONS || count > cursor.Remaining() / 60 {
      return count, countSize, Err(TooManyTransactions);
    }
    r := ReadCounted(cursor, count, sha);
  }

  method CheckBlock(header: Header, bytes: Bytes, count: nat, stripped: nat, views: seq<ParsedTransaction>,
                    sha: HashFunction) returns (r: Read<ParsedBlock>)
    requires |bytes| >= HEADER_LEN && |views| > 0 && views[0].coinbase.Some?
    ensures r == Bound(header, bytes, count, stripped, views, sha)
  {
    var weight := BlockWeight(stripped, |bytes|);
    if weight > MAX_BLOCK_WEIGHT {
      return Err(BlockWeightExceeded);
    }
    var txids := Txids(views);
    var root, mutated := OrderedMerkle.MerkleRootAndMutation(OrderedMerkle.Concatenated(sha), txids);
    if mutated {
      return Err(MutatedMerkleTree);
    }
    if root != header.merkleRoot {
      return Err(MerkleRootMismatch);
    }
    var coinbase := views[0].coinbase.value;
    var witnessed :- CheckWitness(coinbase, Wtxids(views), AnyWitness(views), sha);
    return Ok(ParsedBlock(header, sha(bytes[..HEADER_LEN]), txids[0], count, stripped, |bytes|, weight, coinbase,
                          txids, views));
  }

  // ----- what an accepted block guarantees its consumers -----

  lemma {:induction false} StrippedBelowTotal(txs: seq<Transaction>)
    requires AllValid(ValidTransaction, txs)
    ensures StrippedTotal(txs) <= |Concat(Serialize, txs)|
  {
    if txs != [] {
      var init, last := txs[..|txs| - 1], txs[|txs| - 1];
      assert txs == init + [last] && ValidTransaction(last);
      StrippedBelowTotal(init);
      TransactionWidth(last);
      ConcatSnoc(Serialize, init, last);
    }
  }

  lemma {:induction false} ScriptsFit(outputs: seq<TxOut>)
    ensures 9 * |outputs| + ScriptBytes(outputs) <= |Concat(SerOutput, outputs)|
  {
    if outputs != [] {
      OutputWidth(outputs[0]);
      ScriptsFit(outputs[1..]);
    }
  }

  lemma {:induction false} FirstIsWithinTotal(txs: seq<Transaction>)
    requires txs != []
    ensures |Stripped(txs[0])| <= StrippedTotal(txs)
  {
    if |txs| > 1 {
      FirstIsWithinTotal(txs[..|txs| - 1]);
    }
  }

  lemma {:induction false} BaseBelowTotal(bytes: Bytes, txs: seq<Transaction>)
    requires CanonicalBlock(bytes, txs)
    ensures StrippedSize(txs) <= |bytes|
    ensures |txs[0].outputs| <= MAX_OUTPUTS && ScriptBytes(txs[0].outputs) < StrippedSize(txs)
  {
    StrippedBelowTotal(txs);
    FirstIsWithinTotal(txs);
    ScriptsFit(txs[0].outputs);
    SizesAddUp(txs[0]);
  }

  /** The consensus weight limit bounds the base size, hence the coinbase's outputs and scripts. */
  lemma {:induction false} WeightBoundsBase(bytes: Bytes, sha: HashFunction)
    requires ParseBlock(bytes, sha).Some?
    ensures var b := ParseBlock(bytes, sha).value;
      && b.weight == 3 * b.strippedSize + b.totalSize <= MAX_BLOCK_WEIGHT
      && b.strippedSize <= MAX_BASE_BYTES
      && |b.coinbase.outputs| <= MAX_OUTPUTS
      && ScriptBytes(b.coinbase.outputs) < MAX_BASE_BYTES
  {
    var txs := BlockTransactions(bytes).value;
    AcceptedSizes(bytes, txs, sha);
    BaseBelowTotal(bytes, txs);
  }

  lemma {:induction false} AcceptedSizes(bytes: Bytes, txs: seq<Transaction>, sha: HashFunction)
    requires ParseBlock(bytes, sha).Some? && BlockTransactions(bytes) == Some(txs)
    ensures var b := ParseBlock(bytes, sha).value;
      && CanonicalBlock(bytes, txs) && b.coinbase.outputs == txs[0].outputs
      && b.strippedSize == StrippedSize(txs) && b.totalSize == |bytes|
      && b.weight == 3 * StrippedSize(txs) + |bytes| <= MAX_BLOCK_WEIGHT
  {
    BlockFields(bytes, txs, sha);
    BoundSizes(DecodeHeader(bytes[..HEADER_LEN]).value, bytes, |txs|, StrippedSize(txs), Views(txs, sha), sha);
  }

  lemma {:induction false} BoundSizes(header: Header, bytes: Bytes, count: nat, stripped: nat, views: seq<ParsedTransaction>,
                                      sha: HashFunction)
    requires |bytes| >= HEADER_LEN && |views| > 0 && views[0].coinbase.Some?
    ensures var r := Bound(header, bytes, count, stripped, views, sha);
      r.Ok? ==>
        && r.value.coinbase == views[0].coinbase.value
        && r.value.strippedSize == stripped && r.value.totalSize == |bytes|
        && r.value.weight == 3 * stripped + |bytes| <= MAX_BLOCK_WEIGHT
  {
  }

  lemma {:induction false} BlockFields(bytes: Bytes, txs: seq<Transaction>, sha: HashFunction)
    requires BlockTransactions(bytes) == Some(txs)
    ensures CanonicalBlock(bytes, txs) && |Views(txs, sha)| > 0 && Views(txs, sha)[0].coinbase.Some?
    ensures Views(txs, sha)[0].coinbase.value.outputs == txs[0].outputs
    ensures Verdict(bytes, txs, sha)
         == Bound(DecodeHeader(bytes[..HEADER_LEN]).value, bytes, |txs|, StrippedSize(txs),
                  Views(txs, sha), sha)
    ensures ParseBlock(bytes, sha) == if Verdict(bytes, txs, sha).Ok? then Some(Verdict(bytes, txs, sha).value) else None
  {
    BlockSound(bytes, txs);
    ViewAt(txs, 0, sha);
  }

  /** The transactions behind an accepted block. */
  lemma {:induction false} AcceptedTransactions(bytes: Bytes, sha: HashFunction)
    returns (txs: seq<Transaction>)
    requires ParseBlock(bytes, sha).Some?
    ensures CanonicalBlock(bytes, txs)
    ensures ParseBlock(bytes, sha).value.transactions == Views(txs, sha)
    ensures ParseBlock(bytes, sha).value.coinbase.outputs == txs[0].outputs
  {
    txs := BlockTransactions(bytes).value;
    BlockFields(bytes, txs, sha);
  }

  // ----- the header binds the transactions -----

  ghost predicate ShaCollision(sha: HashFunction, x: (Bytes, Bytes)) {
    x.0 != x.1 && sha(x.0) == sha(x.1)
  }

  ghost predicate SameStripped(txs: seq<Transaction>, txs': seq<Transaction>) {
    |txs| == |txs'| && forall k :: 0 <= k < |txs| ==> Stripped(txs[k]) == Stripped(txs'[k])
  }

  lemma {:induction false} NodeCollision(sha: HashFunction, c: OrderedMerkle.Collision<Hash>) returns (x: (Bytes, Bytes))
    requires OrderedMerkle.Collides(OrderedMerkle.Concatenated(sha), c)
    ensures ShaCollision(sha, x)
  {
    x := (c.a + c.b, c.c + c.d);
    assert x.0[..32] == c.a && x.1[..32] == c.c && x.0[32..] == c.b && x.1[32..] == c.d;
  }

  lemma {:induction false} TxidAt(txs: seq<Transaction>, k: nat, sha: HashFunction)
    requires k < |txs|
    ensures Txids(Views(txs, sha))[k] == sha(Stripped(txs[k]))
  {
    ViewAt(txs, k, sha);
  }

  lemma {:induction false} EqualTxids(txs: seq<Transaction>, txs': seq<Transaction>, sha: HashFunction)
    returns (x: Option<(Bytes, Bytes)>)
    requires Txids(Views(txs, sha)) == Txids(Views(txs', sha))
    ensures x.Some? ==> ShaCollision(sha, x.value)
    ensures x.None? ==> SameStripped(txs, txs')
  {
    assert |txs| == |Txids(Views(txs, sha))| == |txs'|;
    if SameStripped(txs, txs') {
      x := None;
    } else {
      var k :| 0 <= k < |txs| && Stripped(txs[k]) != Stripped(txs'[k]);
      TxidAt(txs, k, sha);
      TxidAt(txs', k, sha);
      x := Some((Stripped(txs[k]), Stripped(txs'[k])));
    }
  }

  /** A first txid that is also a node hash: its preimage has 64 bytes, or there is a collision. */
  lemma {:induction false} FirstIsNode(txs: seq<Transaction>, left: Hash, right: Hash, sha: HashFunction)
    returns (x: Option<(Bytes, Bytes)>)
    requires txs != [] && Txids(Views(txs, sha))[0] == sha(left + right)
    ensures x.Some? ==> ShaCollision(sha, x.value)
    ensures x.None? ==> |Stripped(txs[0])| == 64
  {
    TxidAt(txs, 0, sha);
    x := if Stripped(txs[0]) == left + right then None else Some((Stripped(txs[0]), left + right));
  }

  lemma {:induction false} EqualRoots(txs: seq<Transaction>, txs': seq<Transaction>, sha: HashFunction)
    returns (x: Option<(Bytes, Bytes)>)
    requires txs != [] && txs' != []
    requires !MerkleMutated(Txids(Views(txs, sha)), sha) && !MerkleMutated(Txids(Views(txs', sha)), sha)
    requires MerkleRoot(Txids(Views(txs, sha)), sha) == MerkleRoot(Txids(Views(txs', sha)), sha)
    ensures x.Some? ==> ShaCollision(sha, x.value)
    ensures x.None? ==> SameStripped(txs, txs') || |Stripped(txs[0])| == 64 || |Stripped(txs'[0])| == 64
  {
    var node := OrderedMerkle.Concatenated(sha);
    var a, b := Txids(Views(txs, sha)), Txids(Views(txs', sha));
    var depth, depth' := OrderedMerkle.Depth(|a|), OrderedMerkle.Depth(|b|);
    if a == b {
      x := EqualTxids(txs, txs', sha);
    } else if depth == depth' {
      var c := OrderedMerkle.EqualRootsCollide(node, a, b);
      var found := NodeCollision(sha, c);
      x := Some(found);
    } else {
      var c, left, right;
      if depth < depth' {
        c, left, right := OrderedMerkle.ShallowLeafIsNode(node, a, b);
      } else {
        c, left, right := OrderedMerkle.ShallowLeafIsNode(node, b, a);
      }
      if c.Some? {
        var found := NodeCollision(sha, c.value);
        x := Some(found);
      } else if depth < depth' {
        x := FirstIsNode(txs, left, right, sha);
      } else {
        x := FirstIsNode(txs', left, right, sha);
      }
    }
  }

  /** Two accepted blocks whose headers carry the same Merkle root contain the same transactions up to
      witnesses, unless a double SHA-256 collision is exhibited or a coinbase is exactly 64 bytes long,
      the one length at which a txid can be an inner node. */
  lemma {:induction false} HeaderBindsTransactions(one: Bytes, two: Bytes, sha: HashFunction)
    returns (txs: seq<Transaction>, txs': seq<Transaction>, x: Option<(Bytes, Bytes)>)
    requires ParseBlock(one, sha).Some? && ParseBlock(two, sha).Some?
    requires ParseBlock(one, sha).value.header.merkleRoot == ParseBlock(two, sha).value.header.merkleRoot
    ensures CanonicalBlock(one, txs) && CanonicalBlock(two, txs')
    ensures x.Some? ==> ShaCollision(sha, x.value)
    ensures x.None? ==> SameStripped(txs, txs') || |Stripped(txs[0])| == 64 || |Stripped(txs'[0])| == 64
  {
    txs := AcceptedRoot(one, sha);
    txs' := AcceptedRoot(two, sha);
    x := EqualRoots(txs, txs', sha);
  }

  lemma {:induction false} AcceptedRoot(bytes: Bytes, sha: HashFunction) returns (txs: seq<Transaction>)
    requires ParseBlock(bytes, sha).Some?
    ensures CanonicalBlock(bytes, txs) && !MerkleMutated(Txids(Views(txs, sha)), sha)
    ensures MerkleRoot(Txids(Views(txs, sha)), sha) == ParseBlock(bytes, sha).value.header.merkleRoot
  {
    txs := BlockTransactions(bytes).value;
    BlockFields(bytes, txs, sha);
  }
}
