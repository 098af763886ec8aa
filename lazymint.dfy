/**
 * The redemption contract (`LazyMint` in contracts/lazymint.py). A buyer
 * presents a voucher signed off-chain; `redeem` checks it, emits a call to
 * the ledger's `mint`, a call to its `transfer` and a payment to the token
 * owner, and records the voucher's packed bytes so it is never accepted
 * again.
 *
 * `sp.pack` and `sp.check_signature` are not modelled: they are the fields
 * of a `Crypto` value that every call receives, about which nothing is
 * assumed. The lookups `sp.contract(...).open_some()` (and the one inside
 * `sp.send`) ask the chain whether an address has an entry point of a given
 * parameter type; the answers come with the call's environment.
 */
module Lazymint {
  import opened Tezos
  import Fa2

  /** `Types.VOUCHER`: the signed message, the signature and the key to check it with. */
  datatype Voucher = Voucher(message: MintMessage, signature: Signature, publicKey: Key)

  /**
   * `Types.TRANSFER` as this contract declares it: ONE record whose `txs` is
   * ONE record, where the ledger's `transfer` takes a list of records each
   * holding a list.
   */
  datatype TransferArg = TransferArg(from: Address, txs: Fa2.Tx)

  /** The parameter types named in entry point lookups. */
  datatype ParamType =
    | MessageType         // Types.MESSAGE, the same record as the ledger's Types.VOUCHER
    | SingleTransferType  // Types.TRANSFER of this contract
    | BatchTransferType   // Types.TRANSFER of the ledger
    | UnitType            // the default entry point of an account, used by sp.send

  /** `sp.contract(param, address, entry_point = name)`. */
  datatype EntryPoint = EntryPoint(address: Address, name: string, param: ParamType)

  /**
   * The context of one call: `sp.sender`, `sp.amount` and the entry points,
   * among those the call looks up, that exist on chain with the asked type.
   */
  datatype Env = Env(sender: Address, amount: Mutez, entryPoints: set<EntryPoint>)

  /** `sp.pack` and `sp.check_signature`, left uninterpreted. */
  datatype Crypto = Crypto(pack: MintMessage -> Bytes, checkSignature: (Key, Signature, Bytes) -> bool)

  /** The operations `redeem` emits, in the order it emits them. */
  datatype Operation =
    | CallMint(destination: Address, mintArg: MintMessage, amount: Mutez)
    | CallTransfer(destination: Address, transferArg: TransferArg, amount: Mutez)
    | Send(destination: Address, amount: Mutez)

  /** The ways `redeem` fails. */
  datatype Error =
    | InvalidSignature
    | InvalidSender
    | InvalidAmount
    | TokenAlreadyMinted
    | InvalidVoucher
    | NoSuchEntryPoint  // `open_some()` on a failed lookup, with no message of the contract's own
    | CouldNotSend
  {
    function Message(): string
    {
      match this
      case InvalidSignature => "INVALID SIGNATURE"
      case InvalidSender => "INVALID SENDER"
      case InvalidAmount => "INVALID AMOUNT"
      case TokenAlreadyMinted => "TOKEN ALREADY MINTED"
      case InvalidVoucher => "INVALID VOUCHER"
      case NoSuchEntryPoint => ""
      case CouldNotSend => "COULD NOT SEND"
    }
  }

  /** The contract's storage. */
  datatype Storage = Storage(
    admin: Address,
    counter: nat,
    contractAddress: Address,
    invalidatedVoucher: map<Bytes, bool>)

  /** The ledger address written into the contract's initial storage. */
  const DeployedLedger: Address := "KT1LPSGeRj4FENhm9anHJUQy9epAwtttDwLh"

  /**
   * The initial storage. Only `admin` is taken from the arguments: the
   * ledger address is the constant above, the counter 0 and the set of
   * redeemed vouchers empty, whatever was passed.
   */
  function Originated(admin: Address, contractAddress: Address, counter: nat, invalidatedVoucher: map<Bytes, bool>): (s: Storage)
    ensures s.admin == admin
    ensures s.contractAddress == DeployedLedger && s.counter == 0 && s.invalidatedVoucher == map[]
  {
    Storage(admin, 0, DeployedLedger, map[])
  }

  /** The bytes a voucher's message is signed as, and recorded as once redeemed. */
  function Digest(crypto: Crypto, message: MintMessage): Bytes
  {
    crypto.pack(message)
  }

  /**
   * `verify_signature`: the call goes on only when the signature checks out
   * against the packed message and the key the voucher itself carries, and
   * is aborted with INVALID SIGNATURE otherwise. The key is not compared
   * with the message's `tokenOwner`, nor with anything in the storage.
   */
  function VerifySignature(crypto: Crypto, voucher: Voucher): (r: Outcome<Error>)
    ensures r.Pass? <==> crypto.checkSignature(voucher.publicKey, voucher.signature, crypto.pack(voucher.message))
    ensures r.Fail? ==> r.error.Message() == "INVALID SIGNATURE"
  {
    var isValid := crypto.checkSignature(voucher.publicKey, voucher.signature, Digest(crypto, voucher.message));
    if isValid then Pass else Fail(InvalidSignature)
  }

  function MintEntryPoint(s: Storage): EntryPoint
  {
    EntryPoint(s.contractAddress, "mint", MessageType)
  }

  function TransferEntryPoint(s: Storage): EntryPoint
  {
    EntryPoint(s.contractAddress, "transfer", SingleTransferType)
  }

  /** The entry point `sp.send` pays into. */
  function PaymentEntryPoint(to: Address): EntryPoint
  {
    EntryPoint(to, "default", UnitType)
  }

  /** The three operations of a successful redemption. */
  function RedeemOperations(s: Storage, env: Env, redeemer: Address, message: MintMessage): seq<Operation>
  {
    [ CallMint(s.contractAddress,
               MintMessage(message.contractAddress, message.tokenId, message.tokenOwner, message.price, message.tokenURI),
               0),
      CallTransfer(s.contractAddress, TransferArg(message.tokenOwner, Fa2.Tx(redeemer, message.tokenId, 1)), 0),
      Send(message.tokenOwner, env.amount) ]
  }

  /**
   * The `redeem` entry point: the guards in the order the source runs
   * them, then the new storage and the emitted operations.
   */
  function Redeemed(s: Storage, env: Env, crypto: Crypto, redeemer: Address, voucher: Voucher)
    : Result<(Storage, seq<Operation>), Error>
  {
    var message := voucher.message;
    var signed := VerifySignature(crypto, voucher);
    if signed.Fail? then Err(signed.error)
    else if env.sender != redeemer then Err(InvalidSender)
    else if env.amount != message.price then Err(InvalidAmount)
    else if !(message.tokenId > s.counter) then Err(TokenAlreadyMinted)
    else if Digest(crypto, message) in s.invalidatedVoucher then Err(InvalidVoucher)
    else if MintEntryPoint(s) !in env.entryPoints then Err(NoSuchEntryPoint)
    else if TransferEntryPoint(s) !in env.entryPoints then Err(NoSuchEntryPoint)
    else if PaymentEntryPoint(message.tokenOwner) !in env.entryPoints then Err(CouldNotSend)
    else
      var t := s.(counter := s.counter + 1,
                  invalidatedVoucher := s.invalidatedVoucher[Digest(crypto, message) := true]);
      Ok((t, RedeemOperations(s, env, redeemer, message)))
  }

  /** The redemption contract, its storage held in fields that `redeem` updates in place. */
  class LazyMint {
    const admin: Address
    var counter: nat
    const contractAddress: Address
    var invalidatedVoucher: map<Bytes, bool>

    /** The storage the fields hold. */
    function State(): Storage
      reads this
    {
      Storage(admin, counter, contractAddress, invalidatedVoucher)
    }

    constructor (admin: Address, contractAddress: Address, counter: nat, invalidatedVoucher: map<Bytes, bool>)
      ensures State() == Originated(admin, contractAddress, counter, invalidatedVoucher)
    {
      this.admin := admin;
      this.contractAddress := DeployedLedger;
      this.counter := 0;
      this.invalidatedVoucher := map[];
    }

    /**
     * The `redeem` entry point. The counter is bumped between the mint and
     * the transfer, as in the source; a later failure puts it back, as the
     * chain rolls back a failed operation. Nothing is emitted on failure.
     */
    method Redeem(env: Env, crypto: Crypto, redeemer: Address, voucher: Voucher)
      returns (outcome: Outcome<Error>, ops: seq<Operation>)
      modifies this
      ensures Redeemed(old(State()), env, crypto, redeemer, voucher) == Committed(outcome, (State(), ops))
      ensures outcome.Fail? ==> State() == old(State()) && ops == []
    {
      var message := voucher.message;
      var signed := VerifySignature(crypto, voucher);
      if signed.Fail? {
        return signed, [];
      }
      if env.sender != redeemer {
        return Fail(InvalidSender), [];
      }
      if env.amount != message.price {
        return Fail(InvalidAmount), [];
      }
      if !(message.tokenId > counter) {
        return Fail(TokenAlreadyMinted), [];
      }
      var digest := crypto.pack(message);
      if digest in invalidatedVoucher {
        return Fail(InvalidVoucher), [];
      }
      if EntryPoint(contractAddress, "mint", MessageType) !in env.entryPoints {
        return Fail(NoSuchEntryPoint), [];
      }
      ops := [CallMint(contractAddress,
                       MintMessage(message.contractAddress, message.tokenId, message.tokenOwner, message.price, message.tokenURI),
                       0)];
      var counterBefore := counter;
      counter := counter + 1;
      if EntryPoint(contractAddress, "transfer", SingleTransferType) !in env.entryPoints {
        counter := counterBefore;
        return Fail(NoSuchEntryPoint), [];
      }
      ops := ops + [CallTransfer(contractAddress, TransferArg(message.tokenOwner, Fa2.Tx(redeemer, message.tokenId, 1)), 0)];
      if EntryPoint(message.tokenOwner, "default", UnitType) !in env.entryPoints {
        counter := counterBefore;
        return Fail(CouldNotSend), [];
      }
      ops := ops + [Send(message.tokenOwner, env.amount)];
      assert ops == RedeemOperations(old(State()), env, redeemer, message);
      digest := crypto.pack(voucher.message);
      invalidatedVoucher := invalidatedVoucher[digest := true];
      outcome := Pass;
    }
  }
}
