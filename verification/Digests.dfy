/**
 * SHA-256 and Keccak outputs as free terms: a digest records what was hashed, so
 * equal digests were made from equal inputs and no hash is zero. `Raw` stands for 32 bytes
 * that are not the hash of any modelled preimage; `ZERO` is the all-zero word.
 */
module Digests {
  import opened Machine

  datatype Digest =
    | Raw(id: nat)
    | BurnEmpty
    | BurnLeaf(version: u32, genesis: Digest, asset: Digest, vaultId: Digest,
               burnId: Digest, index: u64, amount: u64, recipient: Address)
    | BurnNode(left: Digest, right: Digest)
    | BurnId(elementsGenesis: Digest, burnTxid: Digest, vout: u32)
    | DepositId(chain: u64, vault: Address, token: Address, nonce: u64, depositor: Address,
                deposited: u64, script: seq<byte>, salt: Digest)
    | StateContents(state: BridgeState)
    | StateLink(prior: Digest, contents: Digest)
    | Statement(domain: Deployment, priorHash: Digest, priorContents: Digest,
                nextHash: Digest, nextContents: Digest)
    | Pair(first: Digest, second: Digest)

  /** A twenty-byte Ethereum address; 0 is the zero address. */
  type Address = nat

  const ZERO: Digest := Raw(0)

  /** The tuple `USDDVaultV1.ElementsBridgeState` / `SolidityElementsBridgeState`. */
  datatype BridgeState = BridgeState(
    sequence: u64,
    burnCount: u64,
    elementsTipHash: Digest,
    consensusDigest: Digest,
    burnRoot: Digest,
    bitcoinBlockHash: Digest,
    bitcoinHeight: u64,
    elementsHeight: u64,
    medianTimePast: u64,
    chainwork: u256)

  /** The immutable identities a verifier statement binds. */
  datatype Deployment = Deployment(
    chainId: u64,
    vault: Address,
    vaultId: Digest,
    programId: Digest,
    configHash: Digest,
    genesis: Digest,
    asset: Digest)
}
