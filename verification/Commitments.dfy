/**
 * OP_RETURN pushes and the slot-24 M7 commitment (crates/usdd-bitcoin-bmm/src/lib.rs and
 * crates/usdd-bitcoin-bmm/src/block/bip300.rs): two extractors of the same message.
 */
module Commitments {
  import opened Machine
  import opened Blocks

  const OP_RETURN: byte := 0x6a
  const SLOT: byte := 24
  const M7_TAG: Bytes := [0xd1, 0x61, 0x73, 0x68]
  const M7_PAYLOAD_LEN: nat := 37
  const M7_SCRIPT_LEN: nat := 39

  // ----- a script that is one OP_RETURN push -----

  function ExtractPush(script: Bytes): (r: Option<Bytes>) {
    if |script| < 2 || script[0] != OP_RETURN then None
    else
      var opcode := script[1];
      if opcode <= 75 then Exactly(script, 2, opcode)
      else if opcode == 0x4c then
        if |script| < 3 then None else Exactly(script, 3, script[2])
      else if opcode == 0x4d then
        if |script| < 4 then None else Exactly(script, 4, FromLittleEndian(script[2..4]))
      else if opcode == 0x4e then
        if |script| < 6 then None else Exactly(script, 6, FromLittleEndian(script[2..6]))
      else None
  }

  function Exactly(script: Bytes, start: nat, length: nat): Option<Bytes> {
    if start + length == |script| then Some(script[start..]) else None
  }

  /** The four ways to push `p`; the shortest is not required. */
  ghost predicate IsPush(text: Bytes, p: Bytes) {
    || (|p| <= 75 && text == [|p|] + p)
    || (|p| <= 0xff && text == [0x4c, |p|] + p)
    || (|p| <= U16_MAX && text == [0x4d] + LittleEndian(|p|, 2) + p)
    || (|p| <= U32_MAX && text == [0x4e] + LittleEndian(|p|, 4) + p)
  }

  lemma {:induction false} ExtractedIsPush(script: Bytes, p: Bytes)
    requires ExtractPush(script) == Some(p)
    ensures script != [] && script[0] == OP_RETURN && IsPush(script[1..], p)
  {
    var text := script[1..];
    if script[1] <= 75 {
      assert text == [script[1]] + script[2..];
    } else if script[1] == 0x4c {
      assert text == [0x4c, script[2]] + script[3..];
    } else if script[1] == 0x4d {
      WideText(script, 2);
    } else {
      WideText(script, 4);
    }
  }

  lemma {:induction false} WideText(script: Bytes, width: nat)
    requires (width == 2 || width == 4) && |script| >= 2 + width
    ensures script[1..] == [script[1]] + LittleEndian(FromLittleEndian(script[2..2 + width]), width) + script[2 + width..]
    ensures FromLittleEndian(script[2..2 + width]) <= if width == 2 then U16_MAX else U32_MAX
  {
    var field := script[2..2 + width];
    LittleEndianInverse(field);
    FieldBound(field);
    assert script[1..] == [script[1]] + field + script[2 + width..];
  }

  lemma {:induction false} NarrowPush(prefix: Bytes, p: Bytes, script: Bytes)
    requires script != [] && script[1..] == prefix + p
    ensures |script| == 1 + |prefix| + |p| && script[1 + |prefix|..] == p
    ensures forall k :: 0 <= k < |prefix| ==> script[1 + k] == prefix[k]
  {
    assert script == [script[0]] + (prefix + p);
  }

  lemma {:induction false} WidePush(opcode: byte, width: nat, p: Bytes, script: Bytes)
    requires |p| < Pow2(8 * width) && script == [OP_RETURN] + ([opcode] + LittleEndian(|p|, width) + p)
    ensures |script| == 2 + width + |p| && script[1] == opcode
    ensures FromLittleEndian(script[2..2 + width]) == |p| && script[2 + width..] == p
  {
    FromLittleEndianInverse(|p|, width);
    assert script[2..2 + width] == LittleEndian(|p|, width);
  }

  lemma {:induction false} PushIsExtracted(script: Bytes, p: Bytes)
    requires script != [] && script[0] == OP_RETURN && IsPush(script[1..], p)
    ensures ExtractPush(script) == Some(p)
  {
    var text := script[1..];
    assert script == [OP_RETURN] + text;
    Pow2Words();
    if |p| <= 75 && text == [|p|] + p {
      NarrowPush([|p|], p, script);
    } else if |p| <= 0xff && text == [0x4c, |p|] + p {
      NarrowPush([0x4c, |p|], p, script);
    } else if |p| <= U16_MAX && text == [0x4d] + LittleEndian(|p|, 2) + p {
      WidePush(0x4d, 2, p, script);
    } else {
      WidePush(0x4e, 4, p, script);
    }
  }

  /** The extractor accepts exactly the scripts that are OP_RETURN and one push, in any length
      encoding, and returns what is pushed. */
  lemma {:induction false} ExtractIffPush(script: Bytes, p: Bytes)
    ensures ExtractPush(script) == Some(p) <==> script != [] && script[0] == OP_RETURN && IsPush(script[1..], p)
  {
    if ExtractPush(script) == Some(p) {
      ExtractedIsPush(script, p);
    }
    if script != [] && script[0] == OP_RETURN && IsPush(script[1..], p) {
      PushIsExtracted(script, p);
    }
  }

  // ----- the M7 message -----

  /** The child hash a script commits to, whatever its push encoding. */
  function M7Hash(script: Bytes): Option<Hash> {
    var payload :- ExtractPush(script);
    if |payload| == M7_PAYLOAD_LEN && payload[..4] == M7_TAG && payload[4] == SLOT then Some(payload[5..]) else None
  }

  predicate IsM7(script: Bytes) {
    M7Hash(script).Some?
  }

  predicate Canonical(script: Bytes) {
    |script| == M7_SCRIPT_LEN && script[0] == OP_RETURN && script[1] == M7_PAYLOAD_LEN
  }

  function M7Payload(h: Hash): Bytes {
    M7_TAG + ([SLOT] + h)
  }

  /** Which scripts commit to a hash: any push of tag, slot and hash. */
  lemma {:induction false} M7Iff(script: Bytes, h: Hash)
    ensures M7Hash(script) == Some(h) <==> script != [] && script[0] == OP_RETURN && IsPush(script[1..], M7Payload(h))
  {
    var payload := M7Payload(h);
    assert payload[..4] == M7_TAG && payload[5..] == h;
    if M7Hash(script) == Some(h) {
      var p := ExtractPush(script).value;
      assert p == p[..4] + ([p[4]] + p[5..]);
      ExtractIffPush(script, p);
    }
    if script != [] && script[0] == OP_RETURN && IsPush(script[1..], payload) {
      ExtractIffPush(script, payload);
    }
  }

  /** The canonical form is the single shortest one. */
  lemma {:induction false} CanonicalM7Iff(script: Bytes, h: Hash)
    ensures M7Hash(script) == Some(h) && Canonical(script) <==> script == [OP_RETURN, 37] + M7Payload(h)
  {
    var payload := M7Payload(h);
    assert payload[..4] == M7_TAG && payload[5..] == h;
    if M7Hash(script) == Some(h) && Canonical(script) {
      var p := script[2..];
      assert p == p[..4] + ([p[4]] + p[5..]);
      assert script == [script[0], script[1]] + p;
    }
    if script == [OP_RETURN, 37] + payload {
      assert script[2..] == payload;
    }
  }

  /** An M7 message and where it stands. */
  datatype Sighting = Sighting(index: nat, hash: Hash, canonical: bool)

  function Sight(script: Bytes, index: nat): seq<Sighting> {
    if IsM7(script) then [Sighting(index, M7Hash(script).value, Canonical(script))] else []
  }

  /** All M7 messages, in order. */
  function M7s(scripts: seq<Bytes>): seq<Sighting> {
    if scripts == [] then [] else M7s(scripts[..|scripts| - 1]) + Sight(scripts[|scripts| - 1], |scripts| - 1)
  }

  lemma {:induction false} M7sAreScripts(scripts: seq<Bytes>, j: nat)
    requires j < |M7s(scripts)|
    ensures var s := M7s(scripts)[j];
      s.index < |scripts| && M7Hash(scripts[s.index]) == Some(s.hash) && s.canonical == Canonical(scripts[s.index])
    ensures j > 0 ==> M7s(scripts)[j - 1].index < M7s(scripts)[j].index
  {
    var init := scripts[..|scripts| - 1];
    if j < |M7s(init)| {
      M7sAreScripts(init, j);
    } else if j > 0 {
      M7sAreScripts(init, j - 1);
    }
  }

  lemma {:induction false} ScriptsAreSighted(scripts: seq<Bytes>, k: nat)
    requires k < |scripts| && IsM7(scripts[k])
    ensures Sighting(k, M7Hash(scripts[k]).value, Canonical(scripts[k])) in M7s(scripts)
  {
    if k < |scripts| - 1 {
      ScriptsAreSighted(scripts[..|scripts| - 1], k);
    }
  }

  function TotalBytes(scripts: seq<Bytes>): nat {
    if scripts == [] then 0 else TotalBytes(scripts[..|scripts| - 1]) + |scripts[|scripts| - 1]|
  }

  lemma {:induction false} NextScript(scripts: seq<Bytes>, i: nat)
    requires i < |scripts|
    ensures M7Hash(scripts[i]).None? ==> M7s(scripts[..i + 1]) == M7s(scripts[..i])
    ensures M7Hash(scripts[i]).Some? ==>
      M7s(scripts[..i + 1]) == M7s(scripts[..i]) + [Sighting(i, M7Hash(scripts[i]).value, Canonical(scripts[i]))]
    ensures TotalBytes(scripts[..i + 1]) == TotalBytes(scripts[..i]) + |scripts[i]|
  {
    assert scripts[..i + 1][..i] == scripts[..i];
  }

  lemma {:induction false} PrefixBelow(scripts: seq<Bytes>, i: nat)
    requires i <= |scripts|
    ensures M7s(scripts[..i]) <= M7s(scripts)
    ensures TotalBytes(scripts[..i]) <= TotalBytes(scripts)
    decreases |scripts|
  {
    if i == |scripts| {
      assert scripts[..i] == scripts;
    } else {
      assert scripts[..|scripts| - 1][..i] == scripts[..i];
      PrefixBelow(scripts[..|scripts| - 1], i);
    }
  }

  // ----- the replay's extractor -----

  datatype ObservedM7 = ObservedM7(outputIndex: u32, childHash: Hash, canonical: bool)
  datatype ObserveError = DuplicateM7 | OutputIndexOverflow

  /** At most one M7 is tolerated, canonical or not. */
  function Sole(found: seq<Sighting>): Result<Option<ObservedM7>, ObserveError> {
    if found == [] then Ok(None)
    else if found[0].index > U32_MAX then Err(OutputIndexOverflow)
    else if |found| > 1 then Err(DuplicateM7)
    else Ok(Some(ObservedM7(found[0].index, found[0].hash, found[0].canonical)))
  }

  function Observed(scripts: seq<Bytes>): Result<Option<ObservedM7>, ObserveError> {
    Sole(M7s(scripts))
  }

  /** An error is final: more messages do not change it. */
  lemma {:induction false} SoleErrorStays(found: seq<Sighting>, all: seq<Sighting>)
    requires found <= all && Sole(found).Err?
    ensures Sole(all) == Sole(found)
  {
  }

  method ObserveSlot24M7(scripts: seq<Bytes>) returns (r: Result<Option<ObservedM7>, ObserveError>)
    ensures r == Observed(scripts)
  {
    var observed: Option<ObservedM7> := None;
    for index := 0 to |scripts|
      invariant Ok(observed) == Sole(M7s(scripts[..index]))
    {
      NextScript(scripts, index);
      PrefixBelow(scripts, index + 1);
      ghost var found := M7s(scripts[..index + 1]);
      var hash := M7Hash(scripts[index]);
      if hash.None? {
        continue;
      }
      if observed.Some? {
        SoleErrorStays(found, M7s(scripts));
        return Err(DuplicateM7);
      }
      if index > U32_MAX {
        SoleErrorStays(found, M7s(scripts));
        return Err(OutputIndexOverflow);
      }
      observed := Some(ObservedM7(index, hash.value, Canonical(scripts[index])));
    }
    assert scripts[..|scripts|] == scripts;
    return Ok(observed);
  }

  // ----- the strict extractor -----

  datatype M7Error = Missing | Duplicate | NonCanonical | TooManyOutputs | AggregateScriptBytesExceeded
  datatype UnboundCanonicalM7 = UnboundCanonicalM7(outputIndex: u32, childHash: Hash)

  function CountNonCanonical(found: seq<Sighting>): nat {
    if found == [] then 0
    else CountNonCanonical(found[..|found| - 1]) + if found[|found| - 1].canonical then 0 else 1
  }

  /** Exactly one M7 is required, and it must be canonical. */
  function Strict(scripts: seq<Bytes>): Result<UnboundCanonicalM7, M7Error> {
    var found := M7s(scripts);
    if |scripts| > MAX_OUTPUTS then Err(TooManyOutputs)
    else if TotalBytes(scripts) > MAX_BASE_BYTES then Err(AggregateScriptBytesExceeded)
    else if CountNonCanonical(found) != 0 then Err(NonCanonical)
    else if found == [] then Err(Missing)
    else if |found| > 1 then Err(Duplicate)
    else
      M7sAreScripts(scripts, 0);
      Ok(UnboundCanonicalM7(found[0].index, found[0].hash))
  }

  /** The counters of the strict extractor. */
  ghost predicate Counted(found: seq<Sighting>, matches: nat, noncanonical: nat, last: nat, hash: Hash) {
    && matches == |found| && noncanonical == CountNonCanonical(found)
    && (matches > 0 ==> found[matches - 1].index == last && found[matches - 1].hash == hash)
  }

  lemma {:induction false} CountNext(found: seq<Sighting>, next: Sighting, matches: nat, noncanonical: nat, last: nat, hash: Hash)
    requires Counted(found, matches, noncanonical, last, hash)
    ensures Counted(found + [next], matches + 1, noncanonical + (if next.canonical then 0 else 1), next.index, next.hash)
  {
    assert (found + [next])[..|found|] == found;
  }

  method ExtractElementsSlot24M7(scripts: seq<Bytes>) returns (r: Result<UnboundCanonicalM7, M7Error>)
    ensures r == Strict(scripts)
  {
    if |scripts| > MAX_OUTPUTS {
      return Err(TooManyOutputs);
    }
    var matches, noncanonical: nat, matchedIndex: u32, aggregate: nat := 0, 0, 0, 0;
    var childHash := ZERO_HASH;
    ghost var found: seq<Sighting> := [];
    for index := 0 to |scripts|
      invariant aggregate == TotalBytes(scripts[..index]) <= MAX_BASE_BYTES
      invariant found == M7s(scripts[..index]) && Counted(found, matches, noncanonical, matchedIndex, childHash)
    {
      NextScript(scripts, index);
      PrefixBelow(scripts, index + 1);
      aggregate := aggregate + |scripts[index]|;
      if aggregate > MAX_BASE_BYTES {
        return Err(AggregateScriptBytesExceeded);
      }
      var hash := M7Hash(scripts[index]);
      if hash.None? {
        continue;
      }
      ghost var next := Sighting(index, hash.value, Canonical(scripts[index]));
      CountNext(found, next, matches, noncanonical, matchedIndex, childHash);
      found := found + [next];
      matches := matches + 1;
      if !Canonical(scripts[index]) {
        noncanonical := noncanonical + 1;
      }
      matchedIndex, childHash := index, hash.value;
    }
    assert scripts[..|scripts|] == scripts;
    return
      if noncanonical != 0 then Err(NonCanonical)
      else if matches == 0 then Err(Missing)
      else if matches == 1 then Ok(UnboundCanonicalM7(matchedIndex, childHash))
      else Err(Duplicate);
  }

  // ----- the two extractors agree -----

  /** Within the output limits, the strict extractor succeeds exactly when the replay observes one
      M7 and finds it canonical; they miss alike; every other outcome of one is an outcome of both. */
  lemma {:induction false} ExtractorsAgree(scripts: seq<Bytes>)
    requires |scripts| <= MAX_OUTPUTS && TotalBytes(scripts) <= MAX_BASE_BYTES
    ensures forall i: u32, h: Hash ::
      Strict(scripts) == Ok(UnboundCanonicalM7(i, h)) <==> Observed(scripts) == Ok(Some(ObservedM7(i, h, true)))
    ensures Strict(scripts) == Err(Missing) <==> Observed(scripts) == Ok(None)
    ensures Strict(scripts) == Err(Duplicate) ==> Observed(scripts) == Err(DuplicateM7)
    ensures Strict(scripts) == Err(NonCanonical) ==>
      Observed(scripts) == Err(DuplicateM7) || exists i: u32, h: Hash :: Observed(scripts) == Ok(Some(ObservedM7(i, h, false)))
  {
    var found := M7s(scripts);
    if found != [] {
      M7sAreScripts(scripts, 0);
      if |found| == 1 {
        OneSighting(found);
        assert Observed(scripts) == Ok(Some(ObservedM7(found[0].index, found[0].hash, found[0].canonical)));
      }
    }
  }

  lemma {:induction false} OneSighting(found: seq<Sighting>)
    requires |found| == 1
    ensures CountNonCanonical(found) == if found[0].canonical then 0 else 1
  {
    assert found[..0] == [];
  }

  function Scripts(outputs: seq<TxOut>): (r: seq<Bytes>)
    ensures |r| == |outputs|
  {
    if outputs == [] then [] else Scripts(outputs[..|outputs| - 1]) + [outputs[|outputs| - 1].script]
  }

  lemma {:induction false} ScriptBytesSnoc(outputs: seq<TxOut>, last: TxOut)
    ensures ScriptBytes(outputs + [last]) == ScriptBytes(outputs) + |last.script|
  {
    if outputs == [] {
      assert outputs + [last] == [last];
    } else {
      ScriptBytesSnoc(outputs[1..], last);
      assert (outputs + [last])[1..] == outputs[1..] + [last];
    }
  }

  lemma {:induction false} ScriptsSnoc(outputs: seq<TxOut>, last: TxOut)
    ensures Scripts(outputs + [last]) == Scripts(outputs) + [last.script]
    ensures TotalBytes(Scripts(outputs) + [last.script]) == TotalBytes(Scripts(outputs)) + |last.script|
  {
    assert (outputs + [last])[..|outputs|] == outputs;
    var scripts := Scripts(outputs);
    assert (scripts + [last.script])[..|scripts|] == scripts;
  }

  lemma {:induction false} SameBytes(outputs: seq<TxOut>)
    ensures TotalBytes(Scripts(outputs)) == ScriptBytes(outputs)
  {
    if outputs != [] {
      var init, last := outputs[..|outputs| - 1], outputs[|outputs| - 1];
      SameBytes(init);
      ScriptBytesSnoc(init, last);
      ScriptsSnoc(init, last);
      assert outputs == init + [last];
    }
  }
}
