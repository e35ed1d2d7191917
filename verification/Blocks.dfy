/**
 * Bitcoin blocks as the parser reports them (crates/usdd-bitcoin-bmm/src/block.rs and lib.rs):
 * headers, outputs, transactions and consensus limits.
 */
module Blocks {
  import opened Machine

  const MAX_BLOCK_WEIGHT: nat := 4_000_000
  const MAX_BASE_BYTES: nat := 1_000_000
  const MAX_INPUTS: nat := 24_390
  const MAX_OUTPUTS: nat := 111_111
  const MAX_TRANSACTIONS: nat := 16_666
  const MAX_MONEY: nat := 21_000_000 * 100_000_000
  const HEADER_LEN: nat := 80

  type Bytes4 = s: Bytes | |s| == 4 witness [0, 0, 0, 0]
  type Bytes8 = s: Bytes | |s| == 8 witness [0, 0, 0, 0, 0, 0, 0, 0]
  type Outpoint = s: Bytes | |s| == 36 witness seq(36, _ => 0)

  datatype TxOut = TxOut(value: Bytes8, script: Bytes)

  function Amount(output: TxOut): nat {
    FromLittleEndian(output.value)
  }

  ghost predicate Distinct(xs: seq<Outpoint>) {
    forall i, j :: 0 <= i < j < |xs| ==> xs[i] != xs[j]
  }

  function ScriptBytes(outputs: seq<TxOut>): nat {
    if outputs == [] then 0 else |outputs[0].script| + ScriptBytes(outputs[1..])
  }

  // ----- headers -----

  datatype Header = Header(version: u32, previous: Hash, merkleRoot: Hash, time: u32, bits: u32, nonce: u32)

  function Field32(bytes: seq<byte>, at: nat): u32
    requires at + 4 <= |bytes|
  {
    FromLittleEndianBound(bytes[at..at + 4]);
    Pow2Words();
    FromLittleEndian(bytes[at..at + 4])
  }

  function DecodeHeader(bytes: Bytes): Option<Header> {
    if |bytes| != HEADER_LEN then None
    else Some(Header(Field32(bytes, 0), bytes[4..36], bytes[36..68], Field32(bytes, 68), Field32(bytes, 72), Field32(bytes, 76)))
  }

  // ----- what the parser reports -----

  datatype ParsedCoinbase = ParsedCoinbase(version: Bytes4, inputsAndOutputCount: Bytes, outputs: seq<TxOut>,
                                           witnessItems: seq<Bytes>, lockTime: Bytes4)

  datatype ParsedTransaction = ParsedTransaction(txid: Hash, wtxid: Hash, strippedSize: nat, hasWitness: bool,
                                                 coinbase: Option<ParsedCoinbase>, inputs: seq<Outpoint>,
                                                 outputs: seq<TxOut>)

  datatype ParsedBlock = ParsedBlock(header: Header, hash: Hash, coinbaseTxid: Hash, transactionCount: nat,
                                     strippedSize: nat, totalSize: nat, weight: nat, coinbase: ParsedCoinbase,
                                     txids: seq<Hash>, transactions: seq<ParsedTransaction>)
}
