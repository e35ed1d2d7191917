/**
 * The Signet commitment rewrite and signing digest
 * (crates/usdd-bitcoin-bmm/src/block/signet.rs; BIP325 and, for the digest, BIP143).
 * Double SHA-256, HASH160 and ECDSA verification are parameters.
 */
module Signet {
  import opened Machine
  import opened Blocks
  import opened TransactionCodec
  import opened BlockParser
  import opened Commitments
  import OrderedMerkle

  const SIGNET_HEADER: Bytes := [0xec, 0xc7, 0xda, 0xa2]

  datatype SignetError =
    | MissingWitnessCommitment | MalformedCommitmentScript | MissingSolution | NonCanonicalSolution | NonEmptyScriptSig
    | WrongWitnessStack | WrongPublicKeyHash | InvalidDerSignature | InvalidSignature | LengthTooLarge

  // ----- script operations -----

  /** One operation: its opcode and, for the pushes that carry a length, the bytes pushed. */
  datatype Op = Op(opcode: byte, data: Option<Bytes>)

  function ReadOp(s: Bytes): (r: Option<Parsed<Op>>)
    ensures r.Some? ==> |r.value.rest| < |s|
    ensures r.Some? && r.value.value.data.Some? ==> |r.value.value.data.value| <= U32_MAX
  {
    if s == [] then None
    else
      var opcode := s[0];
      if 0x01 <= opcode <= 0x4b then Pushed(opcode, opcode, s[1..])
      else if opcode == 0x4c then
        if |s| < 2 then None else Pushed(opcode, s[1], s[2..])
      else if opcode == 0x4d then
        if |s| < 3 then None
        else
          FieldBound(s[1..3]);
          Pushed(opcode, FromLittleEndian(s[1..3]), s[3..])
      else if opcode == 0x4e then
        if |s| < 5 then None
        else
          FieldBound(s[1..5]);
          Pushed(opcode, FromLittleEndian(s[1..5]), s[5..])
      else Some(Parsed(Op(opcode, None), s[1..]))
  }

  function Pushed(opcode: byte, length: nat, s: Bytes): (r: Option<Parsed<Op>>)
    ensures r.Some? ==> |r.value.rest| <= |s|
    ensures r.Some? ==> r.value.value.data.Some? && |r.value.value.data.value| == length
  {
    if length <= |s| then Some(Parsed(Op(opcode, Some(s[..length])), s[length..])) else None
  }

  /** Shortest length encoding of a push. */
  function Push(data: Bytes): Bytes {
    if |data| < 0x4c then [|data|] + data
    else if |data| <= 0xff then [0x4c, |data|] + data
    else if |data| <= U16_MAX then [0x4d] + LittleEndian(|data|, 2) + data
    else [0x4e] + LittleEndian(|data|, 4) + data
  }

  predicate IsSolution(op: Op) {
    op.data.Some? && |op.data.value| > |SIGNET_HEADER| && op.data.value[..|SIGNET_HEADER|] == SIGNET_HEADER
  }

  /** What an operation contributes to the rewritten script once the solution has been found. */
  function Rewritten(op: Op): Bytes {
    if op.data.Some? && op.data.value != [] then Push(op.data.value) else [op.opcode]
  }

  datatype Rewrite = Rewrite(solution: Option<Bytes>, replacement: Bytes)

  function OnOp(w: Rewrite, op: Op): Rewrite {
    if w.solution.None? && IsSolution(op)
    then Rewrite(Some(op.data.value[|SIGNET_HEADER|..]), w.replacement + Push(SIGNET_HEADER))
    else w.(replacement := w.replacement + Rewritten(op))
  }

  /** Reads operations until the script ends or stops making sense. */
  function Scan(w: Rewrite, s: Bytes): Rewrite
    decreases |s|
  {
    var next := ReadOp(s);
    if next.None? then w else Scan(OnOp(w, next.value.value), next.value.rest)
  }

  const NOTHING: Rewrite := Rewrite(None, [])

  function ExtractSolution(script: Bytes): Result<(Bytes, Bytes), SignetError> {
    var w := Scan(NOTHING, script);
    if w.solution.None? then Err(MissingSolution) else Ok((w.solution.value, w.replacement))
  }

  // The loops of the implementation.

  /** The length field after an opcode that has one. */
  method ReadLength(script: Bytes, position: nat, width: nat) returns (r: Result<nat, SignetError>)
    requires position <= |script|
    ensures r.Ok? <==> position + width <= |script|
    ensures r.Err? ==> r.error == MalformedCommitmentScript
    ensures r.Ok? ==> r.value == FromLittleEndian(script[position..position + width])
  {
    return if position + width > |script| then Err(MalformedCommitmentScript)
           else Ok(FromLittleEndian(script[position..position + width]));
  }

  /** The length that an opcode announces, in itself or in the field after it. */
  method ReadPushLength(script: Bytes, position: nat) returns (r: Result<nat, SignetError>, next: nat)
    requires position < |script| && 0x01 <= script[position] <= 0x4e
    ensures r.Err? ==> ReadOp(script[position..]).None? && r.error == MalformedCommitmentScript
    ensures r.Ok? ==> position < next <= |script|
    ensures r.Ok? ==> ReadOp(script[position..]) == Pushed(script[position], r.value, script[next..])
  {
    var opcode := script[position];
    next := position + 1;
    if opcode <= 0x4b {
      assert script[position..][1..] == script[next..];
      return Ok(opcode), next;
    }
    var width := if opcode == 0x4c then 1 else if opcode == 0x4d then 2 else 4;
    LengthField(script, position, width);
    r := ReadLength(script, next, width);
    next := next + width;
  }

  method ReadScriptOp(script: Bytes, position: nat) returns (r: Result<Op, SignetError>, next: nat)
    requires position <= |script|
    ensures r.Ok? <==> ReadOp(script[position..]).Some?
    ensures r.Err? ==> r.error == MalformedCommitmentScript && next == position
    ensures r.Ok? ==> position < next <= |script|
    ensures r.Ok? ==> ReadOp(script[position..]) == Some(Parsed(r.value, script[next..]))
  {
    next := position;
    if position >= |script| {
      return Err(MalformedCommitmentScript), next;
    }
    var opcode := script[position];
    if !(0x01 <= opcode <= 0x4e) {
      assert script[position..][1..] == script[position + 1..];
      return Ok(Op(opcode, None)), position + 1;
    }
    var length, start := ReadPushLength(script, position);
    if length.Err? {
      return Err(length.error), next;
    }
    if start + length.value > |script| {
      return Err(MalformedCommitmentScript), next;
    }
    Suffix(script, start, length.value);
    return Ok(Op(opcode, Some(script[start..start + length.value]))), start + length.value;
  }

  lemma {:induction false} Suffix(script: Bytes, at: nat, length: nat)
    requires at + length <= |script|
    ensures script[at..][..length] == script[at..at + length]
    ensures script[at..][length..] == script[at + length..]
  {
  }

  lemma {:induction false} LengthField(script: Bytes, position: nat, width: nat)
    requires position < |script| && (width == 1 || width == 2 || width == 4)
    requires script[position] == if width == 1 then 0x4c else if width == 2 then 0x4d else 0x4e
    ensures position + 1 + width > |script| ==> ReadOp(script[position..]) == None
    ensures position + 1 + width <= |script| ==>
      ReadOp(script[position..]) == Pushed(script[position], FromLittleEndian(script[position + 1..position + 1 + width]),
                                           script[position + 1 + width..])
  {
    if position + 1 + width <= |script| {
      var s := script[position..];
      assert s[1..1 + width] == script[position + 1..position + 1 + width];
      assert s[1 + width..] == script[position + 1 + width..];
      if width == 1 {
        OneByte(s[1..2]);
      }
    }
  }

  lemma {:induction false} OneByte(b: Bytes)
    requires |b| == 1
    ensures FromLittleEndian(b) == b[0]
  {
    assert b[1..] == [];
  }

  method AppendScriptPush(data: Bytes, output: Bytes) returns (r: Result<Bytes, SignetError>)
    ensures r.Ok? <==> |data| <= U32_MAX
    ensures r.Ok? ==> r.value == output + Push(data)
  {
    var prefix: Bytes;
    if |data| < 0x4c {
      prefix := [|data|];
    } else if |data| <= 0xff {
      prefix := [0x4c, |data|];
    } else if |data| <= U16_MAX {
      prefix := [0x4d] + LittleEndian(|data|, 2);
    } else {
      if |data| > U32_MAX {
        return Err(LengthTooLarge);
      }
      prefix := [0x4e] + LittleEndian(|data|, 4);
    }
    assert output + prefix + data == output + (prefix + data);
    return Ok(output + prefix + data);
  }

  /** `extract_solution_and_modified_script`; its length errors cannot occur. */
  method ExtractSolutionAndModifiedScript(script: Bytes) returns (r: Result<(Bytes, Bytes), SignetError>)
    ensures r == ExtractSolution(script)
  {
    var position := 0;
    var replacement: Bytes := [];
    var solution: Option<Bytes> := None;
    assert script[0..] == script;
    while position < |script|
      invariant 0 <= position <= |script|
      invariant Scan(Rewrite(solution, replacement), script[position..]) == Scan(NOTHING, script)
    {
      var read, next := ReadScriptOp(script, position);
      if read.Err? {
        break;
      }
      var data := read.value.data;
      if data.Some? && data.value != [] {
        if solution.None? && |data.value| > |SIGNET_HEADER| && data.value[..|SIGNET_HEADER|] == SIGNET_HEADER {
          solution := Some(data.value[|SIGNET_HEADER|..]);
          var appended := AppendScriptPush(SIGNET_HEADER, replacement);
          replacement := appended.value;
        } else {
          var appended := AppendScriptPush(data.value, replacement);
          assert appended.Ok?; // a push cannot carry more than its length field can say
          replacement := appended.value;
        }
      } else {
        replacement := replacement + [read.value.opcode];
      }
      position := next;
    }
    return if solution.None? then Err(MissingSolution) else Ok((solution.value, replacement));
  }

  // ----- the solution does not influence the replacement -----

  /** `text` reads as exactly these operations, with nothing left over. */
  ghost predicate Decodes(text: Bytes, ops: seq<Op>)
    decreases |ops|
  {
    if ops == [] then text == []
    else ReadOp(text).Some? && ReadOp(text).value.value == ops[0] && Decodes(ReadOp(text).value.rest, ops[1..])
  }

  /** The bytes of one operation. */
  ghost predicate IsOpText(text: Bytes, op: Op) {
    match op.data
    case None => !(0x01 <= op.opcode <= 0x4e) && text == [op.opcode]
    case Some(d) =>
      || (op.opcode == |d| && 0x01 <= |d| <= 0x4b && text == [|d|] + d)
      || (op.opcode == 0x4c && |d| <= 0xff && text == [0x4c] + ([|d|] + d))
      || (op.opcode == 0x4d && |d| <= U16_MAX && text == [0x4d] + (LittleEndian(|d|, 2) + d))
      || (op.opcode == 0x4e && |d| <= U32_MAX && text == [0x4e] + (LittleEndian(|d|, 4) + d))
  }

  /** An opcode followed by a length field of `width` bytes and the data. */
  lemma {:induction false} FieldReads(opcode: byte, width: nat, d: Bytes, more: Bytes)
    requires |d| < Pow2(8 * width)
    ensures var s := ([opcode] + (LittleEndian(|d|, width) + d)) + more;
      && |s| >= 1 + width && s[0] == opcode && FromLittleEndian(s[1..1 + width]) == |d|
      && s[1 + width..] == d + more
  {
    FromLittleEndianInverse(|d|, width);
    var s := ([opcode] + (LittleEndian(|d|, width) + d)) + more;
    assert s[1..1 + width] == LittleEndian(|d|, width);
  }

  lemma {:induction false} OneByteField(d: Bytes)
    requires |d| <= 0xff
    ensures LittleEndian(|d|, 1) == [|d|]
  {
    assert LittleEndian(|d| / 0x100, 0) == [];
  }

  lemma {:induction false} WideReadsBack(opcode: byte, width: nat, d: Bytes, more: Bytes)
    requires 0x4c <= opcode <= 0x4e && width == (if opcode == 0x4c then 1 else if opcode == 0x4d then 2 else 4)
    requires |d| < Pow2(8 * width)
    ensures ReadOp(([opcode] + (LittleEndian(|d|, width) + d)) + more) == Some(Parsed(Op(opcode, Some(d)), more))
  {
    var s := ([opcode] + (LittleEndian(|d|, width) + d)) + more;
    FieldReads(opcode, width, d, more);
    if width == 1 {
      OneByte(s[1..2]);
    } else {
      FieldBound(s[1..1 + width]);
    }
    TakeComplete(d, more);
  }

  lemma {:induction false} OpReadsBack(text: Bytes, op: Op, more: Bytes)
    requires IsOpText(text, op)
    ensures ReadOp(text + more) == Some(Parsed(op, more))
  {
    Pow2Words();
    if op.data.None? || op.opcode <= 0x4b {
      ShortReadsBack(text, op, more);
    } else {
      var d := op.data.value;
      if op.opcode == 0x4c {
        OneByteField(d);
        WideReadsBack(0x4c, 1, d, more);
      } else if op.opcode == 0x4d {
        WideReadsBack(0x4d, 2, d, more);
      } else {
        WideReadsBack(0x4e, 4, d, more);
      }
    }
  }

  lemma {:induction false} ShortReadsBack(text: Bytes, op: Op, more: Bytes)
    requires IsOpText(text, op) && (op.data.None? || op.opcode <= 0x4b)
    ensures ReadOp(text + more) == Some(Parsed(op, more))
  {
    var s := text + more;
    if op.data.None? {
      assert s[1..] == more;
    } else {
      assert s[1..] == op.data.value + more;
      TakeComplete(op.data.value, more);
    }
  }

  lemma {:induction false} FieldText(s: Bytes, width: nat, d: Bytes, rest: Bytes)
    requires 1 + width <= |s| && s[1 + width..] == d + rest && FromLittleEndian(s[1..1 + width]) == |d|
    ensures s == ([s[0]] + (LittleEndian(|d|, width) + d)) + rest
  {
    LittleEndianInverse(s[1..1 + width]);
    assert s == [s[0]] + s[1..1 + width] + s[1 + width..];
  }

  lemma {:induction false} PushedSplits(opcode: byte, length: nat, s: Bytes)
    requires length <= |s|
    ensures s == s[..length] + s[length..] && Pushed(opcode, length, s) == Some(Parsed(Op(opcode, Some(s[..length])), s[length..]))
  {
  }

  lemma {:induction false} WideText(s: Bytes, width: nat) returns (text: Bytes)
    requires |s| >= 1 + width && 0x4c <= s[0] <= 0x4e
    requires width == if s[0] == 0x4c then 1 else if s[0] == 0x4d then 2 else 4
    requires FromLittleEndian(s[1..1 + width]) <= |s[1 + width..]|
    ensures var n, rest := FromLittleEndian(s[1..1 + width]), s[1 + width..];
      IsOpText(text, Op(s[0], Some(rest[..n]))) && s == text + rest[n..]
  {
    var n, rest := FromLittleEndian(s[1..1 + width]), s[1 + width..];
    var d := rest[..n];
    assert rest == d + rest[n..];
    FieldText(s, width, d, rest[n..]);
    text := [s[0]] + (LittleEndian(n, width) + d);
    if width == 1 {
      OneByte(s[1..2]);
      OneByteField(d);
    } else {
      FieldBound(s[1..1 + width]);
    }
  }

  /** The operation read, as text in front of the rest. */
  lemma {:induction false} OpTextOf(s: Bytes) returns (text: Bytes)
    requires ReadOp(s).Some?
    ensures IsOpText(text, ReadOp(s).value.value) && s == text + ReadOp(s).value.rest
  {
    var op := ReadOp(s).value.value;
    if op.data.None? {
      text := [s[0]];
    } else if s[0] <= 0x4b {
      PushedSplits(s[0], s[0], s[1..]);
      text := [s[0]] + op.data.value;
    } else if s[0] == 0x4c {
      OneByte(s[1..2]);
      text := WideText(s, 1);
    } else if s[0] == 0x4d {
      text := WideText(s, 2);
    } else {
      text := WideText(s, 4);
    }
  }

  lemma {:induction false} ReadOpExtends(s: Bytes, more: Bytes)
    requires ReadOp(s).Some?
    ensures ReadOp(s + more) == Some(Parsed(ReadOp(s).value.value, ReadOp(s).value.rest + more))
  {
    var text := OpTextOf(s);
    var op, rest := ReadOp(s).value.value, ReadOp(s).value.rest;
    assert s + more == text + (rest + more) by {
      Joined(text, rest, more);
    }
    OpReadsBack(text, op, rest + more);
  }

  function OnOps(w: Rewrite, ops: seq<Op>): Rewrite
    decreases |ops|
  {
    if ops == [] then w else OnOps(OnOp(w, ops[0]), ops[1..])
  }

  lemma {:induction false} ScanThrough(w: Rewrite, text: Bytes, ops: seq<Op>, more: Bytes)
    requires Decodes(text, ops)
    ensures Scan(w, text + more) == Scan(OnOps(w, ops), more)
    decreases |ops|
  {
    if ops == [] {
      assert text + more == more;
    } else {
      ReadOpExtends(text, more);
      ScanThrough(OnOp(w, ops[0]), ReadOp(text).value.rest, ops[1..], more);
    }
  }

  ghost predicate NoSolution(ops: seq<Op>) {
    forall k :: 0 <= k < |ops| ==> !IsSolution(ops[k])
  }

  lemma {:induction false} StillUnsolved(w: Rewrite, ops: seq<Op>)
    requires w.solution.None? && NoSolution(ops)
    ensures OnOps(w, ops).solution.None?
    decreases |ops|
  {
    if ops != [] {
      assert forall k :: 0 <= k < |ops[1..]| ==> ops[1..][k] == ops[k + 1];
      StillUnsolved(OnOp(w, ops[0]), ops[1..]);
    }
  }

  /** The length encodings of a nonempty push are its operations' texts. */
  lemma {:induction false} PushIsOp(text: Bytes, data: Bytes) returns (op: Op)
    requires data != [] && IsPush(text, data)
    ensures op.data == Some(data) && IsOpText(text, op)
  {
    if |data| <= 75 && text == [|data|] + data {
      op := Op(|data|, Some(data));
    } else if |data| <= 0xff && text == [0x4c, |data|] + data {
      assert text == [0x4c] + ([|data|] + data);
      op := Op(0x4c, Some(data));
    } else if |data| <= U16_MAX && text == [0x4d] + LittleEndian(|data|, 2) + data {
      assert text == [0x4d] + (LittleEndian(|data|, 2) + data);
      op := Op(0x4d, Some(data));
    } else {
      assert text == [0x4e] + (LittleEndian(|data|, 4) + data);
      op := Op(0x4e, Some(data));
    }
  }

  lemma {:induction false} OpIsPush(text: Bytes, op: Op)
    requires op.data.Some? && IsOpText(text, op)
    ensures IsPush(text, op.data.value)
  {
    var data := op.data.value;
    if op.opcode == 0x4c {
      assert text == [0x4c, |data|] + data;
    } else if op.opcode == 0x4d {
      assert text == [0x4d] + LittleEndian(|data|, 2) + data;
    } else if op.opcode == 0x4e {
      assert text == [0x4e] + LittleEndian(|data|, 4) + data;
    }
  }

  lemma {:induction false} PushReadsBack(text: Bytes, data: Bytes, more: Bytes)
    requires data != [] && IsPush(text, data)
    ensures ReadOp(text + more).Some? && ReadOp(text + more).value.rest == more
    ensures ReadOp(text + more).value.value.data == Some(data)
  {
    var op := PushIsOp(text, data);
    OpReadsBack(text, op, more);
  }

  /** Once solved, what follows no longer depends on the solution found. */
  lemma {:induction false} ScanIgnoresSolution(replacement: Bytes, one: Bytes, two: Bytes, s: Bytes)
    ensures Scan(Rewrite(Some(one), replacement), s).solution == Some(one)
    ensures Scan(Rewrite(Some(one), replacement), s).replacement == Scan(Rewrite(Some(two), replacement), s).replacement
    decreases |s|
  {
    var next := ReadOp(s);
    if next.Some? {
      ScanIgnoresSolution(replacement + Rewritten(next.value.value), one, two, next.value.rest);
    }
  }

  /** A commitment script split at its first Signet push: what is read before it, the push in some
      length encoding, and whatever follows, malformed or not. */
  ghost predicate SplitAt(script: Bytes, prefix: Bytes, ops: seq<Op>, text: Bytes, solution: Bytes, suffix: Bytes) {
    && script == prefix + (text + suffix)
    && Decodes(prefix, ops) && NoSolution(ops)
    && solution != [] && IsPush(text, SIGNET_HEADER + solution)
  }

  lemma {:induction false} SplitIsExtracted(script: Bytes, prefix: Bytes, ops: seq<Op>, text: Bytes, solution: Bytes, suffix: Bytes)
    requires SplitAt(script, prefix, ops, text, solution, suffix)
    ensures ExtractSolution(script)
         == Ok((solution, Scan(Rewrite(Some(solution), OnOps(NOTHING, ops).replacement + Push(SIGNET_HEADER)), suffix).replacement))
  {
    var data := SIGNET_HEADER + solution;
    ScanThrough(NOTHING, prefix, ops, text + suffix);
    StillUnsolved(NOTHING, ops);
    PushReadsBack(text, data, suffix);
    assert data[..|SIGNET_HEADER|] == SIGNET_HEADER && data[|SIGNET_HEADER|..] == solution;
    ScanIgnoresSolution(OnOps(NOTHING, ops).replacement + Push(SIGNET_HEADER), solution, solution, suffix);
  }

  /** Two commitment scripts that differ only in the data of their first Signet push, or only in how
      its length is encoded, are rewritten to the same script. */
  lemma {:induction false} ReplacementIgnoresSolution(one: Bytes, two: Bytes, prefix: Bytes, ops: seq<Op>, text1: Bytes,
                                                      text2: Bytes, solution1: Bytes, solution2: Bytes, suffix: Bytes)
    requires SplitAt(one, prefix, ops, text1, solution1, suffix)
    requires SplitAt(two, prefix, ops, text2, solution2, suffix)
    ensures ExtractSolution(one).Ok? && ExtractSolution(two).Ok?
    ensures ExtractSolution(one).value.0 == solution1 && ExtractSolution(two).value.0 == solution2
    ensures ExtractSolution(one).value.1 == ExtractSolution(two).value.1
  {
    SplitIsExtracted(one, prefix, ops, text1, solution1, suffix);
    SplitIsExtracted(two, prefix, ops, text2, solution2, suffix);
    ScanIgnoresSolution(OnOps(NOTHING, ops).replacement + Push(SIGNET_HEADER), solution1, solution2, suffix);
  }

  /** Every script that yields a solution has such a split. */
  lemma {:induction false} ExtractedIsSplit(script: Bytes)
    returns (prefix: Bytes, ops: seq<Op>, text: Bytes, suffix: Bytes)
    requires ExtractSolution(script).Ok?
    ensures SplitAt(script, prefix, ops, text, ExtractSolution(script).value.0, suffix)
  {
    prefix, ops, text, suffix := FirstSolution(NOTHING, script);
  }

  lemma {:induction false} FirstSolution(w: Rewrite, s: Bytes) returns (prefix: Bytes, ops: seq<Op>, text: Bytes, suffix: Bytes)
    requires w.solution.None? && Scan(w, s).solution.Some?
    ensures SplitAt(s, prefix, ops, text, Scan(w, s).solution.value, suffix)
    decreases |s|
  {
    var next := ReadOp(s).value;
    var head := OpTextOf(s);
    if IsSolution(next.value) {
      prefix, ops, text, suffix := [], [], head, next.rest;
      SolutionHere(w, s, head);
    } else {
      var prefix', ops';
      prefix', ops', text, suffix := FirstSolution(OnOp(w, next.value), next.rest);
      prefix, ops := head + prefix', [next.value] + ops';
      assert Scan(w, s) == Scan(OnOp(w, next.value), next.rest);
      Prepended(s, head, next.value, next.rest, prefix', ops', text, Scan(w, s).solution.value, suffix);
    }
  }

  lemma {:induction false} Joined(a: Bytes, b: Bytes, c: Bytes)
    ensures a + (b + c) == (a + b) + c
  {
  }

  lemma {:induction false} Prepended(s: Bytes, head: Bytes, op: Op, rest: Bytes, prefix: Bytes, ops: seq<Op>, text: Bytes,
                                     solution: Bytes, suffix: Bytes)
    requires IsOpText(head, op) && !IsSolution(op) && s == head + rest
    requires SplitAt(rest, prefix, ops, text, solution, suffix)
    ensures SplitAt(s, head + prefix, [op] + ops, text, solution, suffix)
  {
    var all := [op] + ops;
    OpReadsBack(head, op, prefix);
    assert all[1..] == ops;
    Joined(head, prefix, text + suffix);
  }

  lemma {:induction false} SolutionHere(w: Rewrite, s: Bytes, head: Bytes)
    requires w.solution.None? && ReadOp(s).Some? && IsSolution(ReadOp(s).value.value)
    requires IsOpText(head, ReadOp(s).value.value) && s == head + ReadOp(s).value.rest
    ensures Scan(w, s).solution.Some?
    ensures SplitAt(s, [], [], head, Scan(w, s).solution.value, ReadOp(s).value.rest)
  {
    var next := ReadOp(s).value;
    var data := next.value.data.value;
    var solution := data[|SIGNET_HEADER|..];
    assert data == SIGNET_HEADER + solution;
    OpIsPush(head, next.value);
    ScanIgnoresSolution(OnOp(w, next.value).replacement, solution, solution, next.rest);
    assert s == [] + (head + next.rest);
  }

  // ----- the solution -----

  ghost predicate AnyItem(b: Bytes) {
    |b| < U64_LIMIT
  }

  function ParseAny(s: Bytes): Option<Parsed<Bytes>> {
    ParseVar(U64_MAX, s)
  }

  datatype Solution = Solution(scriptSig: Bytes, items: seq<Bytes>)

  /** A script and a witness stack, and nothing after them. */
  function ParseSolution(s: Bytes): Option<Solution> {
    var scriptSig :- ParseAny(s);
    var items :- ParseList(ParseAny, 0, U64_MAX, 1, scriptSig.rest);
    if items.rest == [] then Some(Solution(scriptSig.value, items.value)) else None
  }

  lemma {:induction false} AnyIsCodec()
    ensures IsCodec(ParseAny, VarBytes, AnyItem)
  {
    forall s | ParseAny(s).Some?
      ensures AnyItem(ParseAny(s).value.value)
      ensures s == VarBytes(ParseAny(s).value.value) + ParseAny(s).value.rest
    {
      VarSound(U64_MAX, s);
    }
    forall v, rest | AnyItem(v)
      ensures ParseAny(VarBytes(v) + rest) == Some(Parsed(v, rest))
    {
      VarComplete(U64_MAX, v, rest);
    }
  }

  ghost predicate SolutionFits(v: Solution) {
    AnyItem(v.scriptSig) && |v.items| < U64_LIMIT && AllValid(AnyItem, v.items)
  }

  /** A solution has exactly one accepted serialization. */
  lemma {:induction false} SolutionIsCanonical(s: Bytes, v: Solution)
    ensures ParseSolution(s) == Some(v) <==> SolutionFits(v) && s == VarBytes(v.scriptSig) + SerStack(v.items)
  {
    AnyIsCodec();
    if ParseSolution(s) == Some(v) {
      var scriptSig := ParseAny(s).value;
      ListSound(ParseAny, VarBytes, AnyItem, 0, U64_MAX, 1, scriptSig.rest);
      assert SerStack(v.items) + [] == SerStack(v.items);
    }
    if SolutionFits(v) && s == VarBytes(v.scriptSig) + SerStack(v.items) {
      ListComplete(ParseAny, VarBytes, AnyItem, 0, U64_MAX, 1, v.items, []);
      assert SerStack(v.items) + [] == SerStack(v.items);
    }
  }

  lemma {:induction false} NextAny(whole: Option<Parsed<seq<Bytes>>>, n: nat, done: seq<Bytes>, s: Bytes, item: Option<Parsed<Bytes>>)
    requires n > 0 && whole == Prefixed(done, Many(ParseAny, n, s)) && item == ParseAny(s)
    ensures item.None? ==> whole == None
    ensures item.Some? ==> whole == Prefixed(done + [item.value.value], Many(ParseAny, n - 1, item.value.rest))
  {
    ManyNext(ParseAny, n, done, s);
  }

  method ReadItems(cursor: Cursor) returns (r: Read<seq<Bytes>>)
    requires cursor.Valid()
    modifies cursor
    ensures cursor.Valid() && Matches(r, ParseList(ParseAny, 0, U64_MAX, 1, old(cursor.Rest())), cursor.Rest())
  {
    var count :- cursor.ReadCompactSize();
    if count > cursor.Remaining() {
      return Err(LengthOverflow);
    }
    ghost var whole := Many(ParseAny, count, cursor.Rest());
    var items: seq<Bytes> := [];
    NothingDone(whole);
    ghost var left := count;
    for index := 0 to count
      invariant cursor.Valid() && |items| == index
      invariant left == count - index && whole == Prefixed(items, Many(ParseAny, left, cursor.Rest()))
    {
      NextAny(whole, left, items, cursor.Rest(), ParseAny(cursor.Rest()));
      var item :- ReadVar(cursor, U64_MAX);
      items, left := items + [item], left - 1;
    }
    AllDone(ParseAny, items, cursor.Rest());
    return Ok(items);
  }

  method ReadSolution(bytes: Bytes) returns (r: Result<Solution, SignetError>)
    ensures r.Ok? <==> ParseSolution(bytes).Some?
    ensures r.Ok? ==> r.value == ParseSolution(bytes).value
    ensures r.Err? ==> r.error == NonCanonicalSolution
  {
    var cursor := new Cursor(bytes, 0);
    assert cursor.Rest() == bytes;
    var scriptSig := ReadVar(cursor, U64_MAX);
    if scriptSig.Err? {
      return Err(NonCanonicalSolution);
    }
    var items := ReadItems(cursor);
    if items.Err? || cursor.Remaining() != 0 {
      return Err(NonCanonicalSolution);
    }
    return Ok(Solution(scriptSig.value, items.value));
  }

  // ----- strict DER -----

  predicate HighBit(b: byte) {
    b >= 0x80
  }

  predicate StrictDer(sig: Bytes) {
    if !(9 <= |sig| <= 73) || sig[0] != 0x30 || sig[1] != |sig| - 3 || sig[2] != 0x02 then false
    else
      var lenR := sig[3];
      if lenR == 0 || 5 + lenR >= |sig| then false
      else
        var at := 4 + lenR;
        if sig[at] != 0x02 then false
        else
          var lenS := sig[at + 1];
          if lenR + lenS + 7 != |sig| || lenS == 0 || HighBit(sig[4])
             || (lenR > 1 && sig[4] == 0 && !HighBit(sig[5]))
          then false
          else !(HighBit(sig[at + 2]) || (lenS > 1 && sig[at + 2] == 0 && !HighBit(sig[at + 3])))
  }

  /** A positive integer in its shortest big-endian two's complement form. */
  predicate MinimalPositive(n: Bytes) {
    n != [] && !HighBit(n[0]) && (|n| > 1 && n[0] == 0 ==> HighBit(n[1]))
  }

  /** DER of two such integers, and a hash type. */
  ghost predicate IsDer(sig: Bytes, r: Bytes, s: Bytes, hashType: byte) {
    && MinimalPositive(r) && MinimalPositive(s) && 9 <= |sig| <= 73
    && |sig| == |r| + |s| + 7 && |r| <= 0xff && |s| <= 0xff
    && sig == [0x30, |r| + |s| + 4, 0x02, |r|] + r + [0x02, |s|] + s + [hashType]
  }

  lemma {:induction false} DerIsStrict(sig: Bytes, r: Bytes, s: Bytes, hashType: byte)
    requires IsDer(sig, r, s, hashType)
    ensures StrictDer(sig)
  {
    assert sig[4..4 + |r|] == r && sig[6 + |r|..6 + |r| + |s|] == s;
    assert sig[4] == r[0] && sig[6 + |r|] == s[0];
    assert |r| > 1 ==> sig[5] == r[1];
    assert |s| > 1 ==> sig[7 + |r|] == s[1];
  }

  lemma {:induction false} StrictIsDer(sig: Bytes) returns (r: Bytes, s: Bytes, hashType: byte)
    requires StrictDer(sig)
    ensures IsDer(sig, r, s, hashType)
  {
    var lenR, n := sig[3], |sig|;
    var at := 4 + lenR;
    r, s, hashType := sig[4..at], sig[at + 2..n - 1], sig[n - 1];
    assert sig == sig[..4] + r + sig[at..at + 2] + s + sig[n - 1..];
    assert sig[..4] == [0x30, |r| + |s| + 4, 0x02, |r|] && sig[at..at + 2] == [0x02, |s|];
  }

  /** The byte checks accept exactly the shortest encodings. */
  lemma {:induction false} StrictDerIff(sig: Bytes)
    ensures StrictDer(sig) <==> exists r, s, hashType :: IsDer(sig, r, s, hashType)
  {
    if StrictDer(sig) {
      var r, s, hashType := StrictIsDer(sig);
    }
    forall r, s, hashType | IsDer(sig, r, s, hashType)
      ensures StrictDer(sig)
    {
      DerIsStrict(sig, r, s, hashType);
    }
  }

  // ----- the signing digest -----

  /** Public key hash of the network's challenge. */
  const CHALLENGE: Bytes := [
    0x88, 0x35, 0x83, 0x2e, 0x28, 0xc8, 0x16, 0xb7, 0xac, 0xd8, 0xfd, 0xb1, 0x97, 0x72, 0xab, 0x21, 0x99, 0x60, 0x3a, 0x56]

  /** The block fields that a solution signs. */
  function BlockData(h: Header, modifiedRoot: Hash): Bytes {
    LittleEndian(h.version, 4) + h.previous + modifiedRoot + LittleEndian(h.time, 4)
  }

  function SpentFront(): Bytes {
    LittleEndian(0, 4) + [1] + ZERO_HASH + LittleEndian(U32_MAX, 4) + [74, 0x00, 0x48]
  }

  function SpentBack(): Bytes {
    LittleEndian(0, 4) + [1] + LittleEndian(0, 8) + [22, 0x00, 0x14] + CHALLENGE + LittleEndian(0, 4)
  }

  /** The virtual transaction whose output the solution spends. */
  function VirtualSpent(h: Header, modifiedRoot: Hash): Bytes {
    SpentFront() + (BlockData(h, modifiedRoot) + SpentBack())
  }

  function Sighash(spent: Hash, hashType: byte, sha: HashFunction): Hash {
    var baseType, anyoneCanPay := hashType % 0x20, hashType >= 0x80;
    var outpoint := spent + LittleEndian(0, 4);
    var sequence := LittleEndian(0, 4);
    var hashPrevouts := if anyoneCanPay then ZERO_HASH else sha(outpoint);
    var hashSequence := if anyoneCanPay || baseType == 2 || baseType == 3 then ZERO_HASH else sha(sequence);
    var hashOutputs := if baseType == 2 then ZERO_HASH else sha([0, 0, 0, 0, 0, 0, 0, 0, 1, 0x6a]);
    sha(SighashText(hashPrevouts, hashSequence, outpoint, hashOutputs, hashType))
  }

  /** Script code, value and sequence of the virtual input. */
  function InputText(): Bytes {
    [25, 0x76, 0xa9, 0x14] + CHALLENGE + [0x88, 0xac] + LittleEndian(0, 8) + LittleEndian(0, 4)
  }

  /** The digest preimage of BIP143 for the virtual input. */
  function SighashText(hashPrevouts: Hash, hashSequence: Hash, outpoint: Bytes, hashOutputs: Hash, hashType: byte): Bytes {
    LittleEndian(0, 4) + (hashPrevouts + (hashSequence + (outpoint + (InputText()
    + (hashOutputs + (LittleEndian(0, 4) + LittleEndian(hashType, 4)))))))
  }

  lemma {:induction false} SplitEqual(a: Bytes, b: Bytes, c: Bytes, d: Bytes)
    requires |a| == |c| && a + b == c + d
    ensures a == c && b == d
  {
    assert (a + b)[..|a|] == a && (c + d)[..|c|] == c;
    assert (a + b)[|a|..] == b && (c + d)[|c|..] == d;
  }

  /** The signed text fixes version, parent, modified Merkle root and time. */
  lemma {:induction false} BlockDataBinds(h: Header, root: Hash, h': Header, root': Hash)
    requires BlockData(h, root) == BlockData(h', root')
    ensures h.version == h'.version && h.previous == h'.previous && root == root' && h.time == h'.time
  {
    var v, v', t, t' := LittleEndian(h.version, 4), LittleEndian(h'.version, 4), LittleEndian(h.time, 4), LittleEndian(h'.time, 4);
    SplitEqual(v + h.previous + root, t, v' + h'.previous + root', t');
    SplitEqual(v + h.previous, root, v' + h'.previous, root');
    SplitEqual(v, h.previous, v', h'.previous);
    Pow2Words();
    FromLittleEndianInverse(h.version, 4);
    FromLittleEndianInverse(h'.version, 4);
    FromLittleEndianInverse(h.time, 4);
    FromLittleEndianInverse(h'.time, 4);
  }

  /** So does the virtual transaction, and the digest text fixes its txid and the hash type. */
  lemma {:induction false} VirtualSpentBinds(h: Header, root: Hash, h': Header, root': Hash)
    requires VirtualSpent(h, root) == VirtualSpent(h', root')
    ensures h.version == h'.version && h.previous == h'.previous && root == root' && h.time == h'.time
  {
    SplitEqual(SpentFront(), BlockData(h, root) + SpentBack(), SpentFront(), BlockData(h', root') + SpentBack());
    SplitEqual(BlockData(h, root), SpentBack(), BlockData(h', root'), SpentBack());
    BlockDataBinds(h, root, h', root');
  }

  lemma {:induction false} SighashTextBinds(p: Hash, q: Hash, a: Outpoint, o: Hash, t: byte, p': Hash, q': Hash, a': Outpoint,
                                            o': Hash, t': byte)
    requires SighashText(p, q, a, o, t) == SighashText(p', q', a', o', t')
    ensures a == a' && t == t' && p == p' && q == q' && o == o'
  {
    var zero := LittleEndian(0, 4);
    var last, last' := zero + LittleEndian(t, 4), zero + LittleEndian(t', 4);
    var input, input' := InputText() + (o + last), InputText() + (o' + last');
    SplitEqual(zero, p + (q + (a + input)), zero, p' + (q' + (a' + input')));
    SplitEqual(p, q + (a + input), p', q' + (a' + input'));
    SplitEqual(q, a + input, q', a' + input');
    SplitEqual(a, input, a', input');
    SplitEqual(InputText(), o + last, InputText(), o' + last');
    SplitEqual(o, last, o', last');
    SplitEqual(zero, LittleEndian(t, 4), zero, LittleEndian(t', 4));
    Pow2Words();
    FromLittleEndianInverse(t, 4);
    FromLittleEndianInverse(t', 4);
  }

  /** Merkle root of the block with its commitment script rewritten. */
  function ModifiedRoot(b: ParsedBlock, index: nat, replacement: Bytes, sha: HashFunction): Hash
    requires index < |b.coinbase.outputs| && b.txids != []
  {
    MerkleRoot(b.txids[0 := sha(Reserialized(b.coinbase, index, replacement))], sha)
  }

  function VirtualTxid(b: ParsedBlock, index: nat, replacement: Bytes, sha: HashFunction): Hash
    requires index < |b.coinbase.outputs| && b.txids != []
  {
    sha(VirtualSpent(b.header, ModifiedRoot(b, index, replacement, sha)))
  }

  method ComputeVirtualTxid(b: ParsedBlock, index: nat, replacement: Bytes, sha: HashFunction)
    returns (spent: Hash)
    requires index < |b.coinbase.outputs| && b.txids != []
    ensures spent == VirtualTxid(b, index, replacement, sha)
  {
    var coinbase := SerializedWithReplacedScript(b.coinbase, index, replacement);
    var modifiedTxids := b.txids[0 := sha(coinbase.value)];
    var root, _ := OrderedMerkle.MerkleRootAndMutation(OrderedMerkle.Concatenated(sha), modifiedTxids);
    spent := sha(VirtualSpent(b.header, root));
  }

  /** The solution found in a block, and the txid its virtual transaction spends. */
  function SolutionAndSpent(b: ParsedBlock, sha: HashFunction): Result<(Bytes, Hash), SignetError>
    requires b.txids != []
  {
    var index := CommitmentIndex(b.coinbase.outputs);
    if index.None? then Err(SignetError.MissingWitnessCommitment) else
    var found :- ExtractSolution(b.coinbase.outputs[index.value].script);
    Ok((found.0, VirtualTxid(b, index.value, found.1, sha)))
  }

  /** Public key, digest and DER signature to the verifier's verdict. */
  type SignatureCheck = (Bytes, Hash, Bytes) -> Option<SignetError>

  /** `verify_parsed_layer_two_signet`. */
  function VerifySignet(b: ParsedBlock, genesis: Hash, sha: HashFunction, hash160: Bytes -> Bytes,
                        check: SignatureCheck): Result<(), SignetError>
    requires b.txids != []
  {
    if b.hash == genesis then Ok(()) else
    var found :- SolutionAndSpent(b, sha);
    Judge(found.0, found.1, sha, hash160, check)
  }

  /** The verdict on a solution that spends the virtual txid. */
  function Judge(solution: Bytes, spent: Hash, sha: HashFunction, hash160: Bytes -> Bytes, check: SignatureCheck)
    : Result<(), SignetError>
  {
    var parsed := ParseSolution(solution);
    if parsed.None? then Err(NonCanonicalSolution)
    else if parsed.value.scriptSig != [] then Err(NonEmptyScriptSig)
    else if |parsed.value.items| != 2 || parsed.value.items[0] == [] then Err(WrongWitnessStack)
    else
      var signature, key := parsed.value.items[0], parsed.value.items[1];
      if hash160(key) != CHALLENGE then Err(WrongPublicKeyHash)
      else if !StrictDer(signature) then Err(InvalidDerSignature)
      else
        var n := |signature| - 1;
        var verdict := check(key, Sighash(spent, signature[n], sha), signature[..n]);
        if verdict.Some? then Err(verdict.value) else Ok(())
  }

  /** The verifier as it runs, with the script loop, the coinbase serializer and the solution cursor. */
  method VerifyParsedSignet(b: ParsedBlock, genesis: Hash, sha: HashFunction,
                            hash160: Bytes -> Bytes, check: SignatureCheck) returns (r: Result<(), SignetError>)
    requires b.txids != []
    ensures r == VerifySignet(b, genesis, sha, hash160, check)
  {
    if b.hash == genesis {
      return Ok(());
    }
    var index := CommitmentIndex(b.coinbase.outputs);
    if index.None? {
      return Err(SignetError.MissingWitnessCommitment);
    }
    var found :- ExtractSolutionAndModifiedScript(b.coinbase.outputs[index.value].script);
    var spent := ComputeVirtualTxid(b, index.value, found.1, sha);
    r := JudgeSolution(found.0, spent, sha, hash160, check);
  }

  method JudgeSolution(bytes: Bytes, spent: Hash, sha: HashFunction, hash160: Bytes -> Bytes, check: SignatureCheck)
    returns (r: Result<(), SignetError>)
    ensures r == Judge(bytes, spent, sha, hash160, check)
  {
    var solution :- ReadSolution(bytes);
    if solution.scriptSig != [] {
      return Err(NonEmptyScriptSig);
    }
    if |solution.items| != 2 || solution.items[0] == [] {
      return Err(WrongWitnessStack);
    }
    var signature, key := solution.items[0], solution.items[1];
    if hash160(key) != CHALLENGE {
      return Err(WrongPublicKeyHash);
    }
    if !StrictDer(signature) {
      return Err(InvalidDerSignature);
    }
    var n := |signature| - 1;
    var verdict := check(key, Sighash(spent, signature[n], sha), signature[..n]);
    return if verdict.Some? then Err(verdict.value) else Ok(());
  }

  // ----- what the digest ignores -----

  lemma {:induction false} CommitmentStays(outputs: seq<TxOut>, index: nat, script: Bytes)
    requires CommitmentIndex(outputs) == Some(index) && IsCommitment(script)
    ensures CommitmentIndex(Replaced(outputs, index, script)) == Some(index)
  {
    var replaced := Replaced(outputs, index, script);
    var other := CommitmentIndex(replaced);
    assert IsCommitment(replaced[index].script);
  }

  /** Two blocks alike except for the solution: its data, its push encoding, and everything that
      follows from them, such as the coinbase txid, the header's own Merkle root, bits and nonce. */
  ghost predicate SameButSolution(one: ParsedBlock, two: ParsedBlock, index: nat) {
    && one.txids != [] && |one.txids| == |two.txids| && one.txids[1..] == two.txids[1..]
    && one.header.version == two.header.version && one.header.previous == two.header.previous
    && one.header.time == two.header.time
    && one.coinbase.version == two.coinbase.version && one.coinbase.lockTime == two.coinbase.lockTime
    && one.coinbase.inputsAndOutputCount == two.coinbase.inputsAndOutputCount
    && CommitmentIndex(one.coinbase.outputs) == Some(index)
    && |two.coinbase.outputs| == |one.coinbase.outputs| && IsCommitment(two.coinbase.outputs[index].script)
    && two.coinbase.outputs == Replaced(one.coinbase.outputs, index, two.coinbase.outputs[index].script)
  }

  lemma {:induction false} SameRewrite(one: ParsedBlock, two: ParsedBlock, index: nat, replacement: Bytes, sha: HashFunction)
    requires SameButSolution(one, two, index)
    ensures Reserialized(one.coinbase, index, replacement) == Reserialized(two.coinbase, index, replacement)
    ensures ModifiedRoot(one, index, replacement, sha) == ModifiedRoot(two, index, replacement, sha)
  {
    assert Replaced(one.coinbase.outputs, index, replacement) == Replaced(two.coinbase.outputs, index, replacement);
    var txid := sha(Reserialized(one.coinbase, index, replacement));
    assert one.txids[0 := txid] == [txid] + one.txids[1..];
    assert two.txids[0 := txid] == [txid] + two.txids[1..];
  }

  /** Blocks that differ only in the solution have the same modified coinbase, Merkle root and virtual
      txid, hence the same digest for every hash type. */
  lemma {:induction false} DigestIgnoresSolution(one: ParsedBlock, two: ParsedBlock, index: nat, prefix: Bytes, ops: seq<Op>,
                                                 text1: Bytes, text2: Bytes, solution1: Bytes, solution2: Bytes, suffix: Bytes,
                                                 sha: HashFunction)
    requires SameButSolution(one, two, index)
    requires SplitAt(one.coinbase.outputs[index].script, prefix, ops, text1, solution1, suffix)
    requires SplitAt(two.coinbase.outputs[index].script, prefix, ops, text2, solution2, suffix)
    ensures var r1, r2 := SolutionAndSpent(one, sha), SolutionAndSpent(two, sha);
      && r1.Ok? && r2.Ok?
      && r1.value.0 == solution1 && r2.value.0 == solution2
      && r1.value.1 == r2.value.1
      && forall hashType: byte :: Sighash(r1.value.1, hashType, sha) == Sighash(r2.value.1, hashType, sha)
  {
    var script1, script2 := one.coinbase.outputs[index].script, two.coinbase.outputs[index].script;
    CommitmentStays(one.coinbase.outputs, index, script2);
    ReplacementIgnoresSolution(script1, script2, prefix, ops, text1, text2, solution1, solution2, suffix);
    SameRewrite(one, two, index, ExtractSolution(script1).value.1, sha);
  }

  /** How the length of the solution push is encoded never changes the verdict. */
  lemma {:induction false} PushEncodingIsIrrelevant(one: ParsedBlock, two: ParsedBlock, index: nat, prefix: Bytes, ops: seq<Op>,
                                                    text1: Bytes, text2: Bytes, solution: Bytes, suffix: Bytes, genesis: Hash,
                                                    sha: HashFunction, hash160: Bytes -> Bytes,
                                                    check: SignatureCheck)
    requires SameButSolution(one, two, index) && one.hash != genesis && two.hash != genesis
    requires SplitAt(one.coinbase.outputs[index].script, prefix, ops, text1, solution, suffix)
    requires SplitAt(two.coinbase.outputs[index].script, prefix, ops, text2, solution, suffix)
    ensures VerifySignet(one, genesis, sha, hash160, check) == VerifySignet(two, genesis, sha, hash160, check)
  {
    DigestIgnoresSolution(one, two, index, prefix, ops, text1, text2, solution, solution, suffix, sha);
  }
}
