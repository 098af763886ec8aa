/**
 * Values shared by the token ledger and the redemption contract: the
 * Michelson-level types they exchange (addresses, mutez amounts, packed
 * bytes, keys, signatures), the mint message both contracts agree on, and
 * the result type every entry point returns.
 */
module Tezos {

  /** An account or contract address (`tz1...`, `KT1...`), compared by equality only. */
  type Address = string

  /** An amount of tez in mutez. Only compared and forwarded, never added up. */
  type Mutez = nat

  /** The bytes produced by `sp.pack`. */
  type Bytes = seq<bv8>

  /** A public key (`edpk...`). */
  type Key = string

  /** A signature (`edsig...`). */
  type Signature = string

  /**
   * The record that is signed off-chain and later minted: `Types.VOUCHER` of
   * the ledger contract and `Types.MESSAGE` of the redemption contract have
   * the same fields and types.
   */
  datatype MintMessage = MintMessage(
    contractAddress: Address,
    tokenId: nat,
    tokenOwner: Address,
    price: Mutez,
    tokenURI: string)

  /** `sp.utils.mutez_to_nat`: the number of mutez as a natural number. */
  function MutezToNat(m: Mutez): nat
  {
    m
  }

  /**
   * The outcome of an entry point: the new storage, or the message of the
   * `sp.verify` / `sp.as_nat` that failed. A failed call persists nothing.
   */
  datatype Result<+T, +E> = Ok(value: T) | Err(error: E)

  /** The outcome of a method that updates an object in place. */
  datatype Outcome<+E> = Pass | Fail(error: E)

  /** The storage an entry point commits, as the result its specification function gives. */
  function Committed<T, E>(o: Outcome<E>, after: T): (r: Result<T, E>)
    ensures r.Ok? <==> o.Pass?
    ensures r.Ok? ==> r.value == after
    ensures r.Err? ==> r.error == o.error
  {
    match o
    case Pass => Ok(after)
    case Fail(e) => Err(e)
  }
}
