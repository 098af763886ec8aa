/**
 * The token ledger contract (`Token` in contracts/fa2.py): a ledger of
 * balances keyed by (owner, token id), the supply and metadata of each
 * token, a counter that hands out token ids, and a fixed set of operator
 * grants. Its two entry points are `mint`, reserved to the administrator,
 * and `transfer`, a batch of debits and credits that either all take effect
 * or none does.
 *
 * Each entry point is given twice: as a specification function from the
 * old storage to the new one (`Minted`, `Transferred`), and as a method of
 * the class `Token` that updates its fields in place and is proved to agree
 * with that function.
 */
module Fa2 {
  import opened Tezos
  import opened Totals

  /** One leaf of a transfer batch: move `amount` units of `tokenId` to `to`. */
  datatype Tx = Tx(to: Address, tokenId: nat, amount: nat)

  /** One element of the `transfer` parameter: txs all debited from `from`. */
  datatype TransferItem = TransferItem(from: Address, txs: seq<Tx>)

  /** Key of the `operators` big_map: `operator` may move `owner`'s units of `tokenId`. */
  datatype OperatorKey = OperatorKey(owner: Address, operator: Address, tokenId: nat)

  /** Key of the `ledger` big_map: (token owner, token id). */
  type LedgerKey = (Address, nat)

  /** The messages with which the entry points fail. */
  datatype Error = NotAdmin | TokenUndefined | OperatorError | InsufficientBalance
  {
    function Message(): string
    {
      match this
      case NotAdmin => "FA2_NOT_ADMIN"
      case TokenUndefined => "FA2_TOKEN_UNDEFINED"
      case OperatorError => "FA2 OPERATOR ERROR"
      case InsufficientBalance => "FA2_INSUFFICIENT_BALANCE"
    }
  }

  /**
   * The contract's storage. The declared but never used `token_id` field is
   * not part of it.
   */
  datatype Storage = Storage(
    administrator: Address,
    ledger: map<LedgerKey, nat>,
    counter: nat,
    supply: map<nat, nat>,
    tokenMetadata: map<nat, string>,
    operators: set<OperatorKey>)

  /** Every token id that appears in the ledger, the supply or the metadata has been handed out. */
  ghost predicate IdsBelowCounter(s: Storage)
  {
    && (forall k :: k in s.ledger ==> k.1 < s.counter)
    && (forall id :: id in s.supply ==> id < s.counter)
    && (forall id :: id in s.tokenMetadata ==> id < s.counter)
  }

  /**
   * The storage of a freshly originated ledger. The source initialises
   * `operators` to an empty big_map and no entry point writes it; here the
   * grants are an input fixed at origination.
   */
  function Originated(administrator: Address, operators: set<OperatorKey>): (s: Storage)
    ensures IdsBelowCounter(s)
    ensures s.counter == 0 && s.administrator == administrator
  {
    Storage(administrator, map[], 0, map[], map[], operators)
  }

  /** `ledger.get((owner, id), 0)`. */
  function Balance(ledger: map<LedgerKey, nat>, owner: Address, id: nat): nat
  {
    Get(ledger, (owner, id))
  }

  /**
   * `check_is_administrator`: the call goes on only for the one address
   * configured as administrator, and is aborted with FA2_NOT_ADMIN for
   * every other.
   */
  function CheckIsAdministrator(s: Storage, sender: Address): (r: Outcome<Error>)
    ensures r.Pass? <==> sender == s.administrator
    ensures r.Fail? ==> r.error.Message() == "FA2_NOT_ADMIN"
  {
    if sender == s.administrator then Pass else Fail(NotAdmin)
  }

  /**
   * `check_token_exists`: the call goes on only for an id that `mint` has
   * handed out, and is aborted with FA2_TOKEN_UNDEFINED otherwise. In a
   * storage whose ids are all below the counter, an id that fails the check
   * has no supply, no metadata and no units held by anyone.
   */
  function CheckTokenExists(s: Storage, id: nat): (r: Outcome<Error>)
    ensures r.Pass? <==> id < s.counter
    ensures r.Fail? ==> r.error.Message() == "FA2_TOKEN_UNDEFINED"
    ensures r.Fail? && IdsBelowCounter(s) ==>
      && id !in s.supply && id !in s.tokenMetadata
      && forall owner :: Balance(s.ledger, owner, id) == 0
  {
    if id < s.counter then Pass else Fail(TokenUndefined)
  }

  /** The caller owns the units being moved, or holds an operator grant for them. */
  predicate MayTransfer(s: Storage, sender: Address, owner: Address, id: nat)
  {
    sender == owner || OperatorKey(owner, sender, id) in s.operators
  }

  /**
   * The `mint` entry point. The id is the current counter; the requested
   * `tokenId` and the `contractAddress` of the message are not looked at.
   */
  function Minted(s: Storage, sender: Address, params: MintMessage): Result<Storage, Error>
  {
    var admitted := CheckIsAdministrator(s, sender);
    if admitted.Fail? then Err(admitted.error)
    else
      var tokenId := s.counter;
      Ok(s.(
        ledger := s.ledger[(params.tokenOwner, tokenId) := MutezToNat(params.price)],
        supply := s.supply[tokenId := MutezToNat(params.price)],
        tokenMetadata := s.tokenMetadata[tokenId := params.tokenURI],
        counter := s.counter + 1))
  }

  /** One leaf of a transfer, applied to the storage left by the leaves before it. */
  function TxApplied(s: Storage, sender: Address, from: Address, tx: Tx): Result<Storage, Error>
  {
    var defined := CheckTokenExists(s, tx.tokenId);
    if defined.Fail? then Err(defined.error)
    else if !MayTransfer(s, sender, from, tx.tokenId) then Err(OperatorError)
    else if tx.amount == 0 then Ok(s)
    else
      var held := Balance(s.ledger, from, tx.tokenId);
      if held < tx.amount then Err(InsufficientBalance)
      else
        var debited := s.ledger[(from, tx.tokenId) := held - tx.amount];
        var credited := debited[(tx.to, tx.tokenId) := Balance(debited, tx.to, tx.tokenId) + tx.amount];
        Ok(s.(ledger := credited))
  }

  /** The leaves of one batch element, in order; the first failure ends the call. */
  function TxsApplied(s: Storage, sender: Address, from: Address, txs: seq<Tx>): Result<Storage, Error>
    decreases |txs|
  {
    if txs == [] then Ok(s)
    else
      match TxApplied(s, sender, from, txs[0])
      case Err(e) => Err(e)
      case Ok(s1) => TxsApplied(s1, sender, from, txs[1..])
  }

  /** The `transfer` entry point: the batch elements in order, all or nothing. */
  function Transferred(s: Storage, sender: Address, batch: seq<TransferItem>): Result<Storage, Error>
    decreases |batch|, 0
  {
    if batch == [] then Ok(s)
    else AndThen(TxsApplied(s, sender, batch[0].from, batch[0].txs), sender, batch[1..])
  }

  /** Continue a transfer with the rest of the batch, unless it has already failed. */
  function AndThen(r: Result<Storage, Error>, sender: Address, rest: seq<TransferItem>): Result<Storage, Error>
    decreases |rest|, 1
  {
    match r
    case Err(e) => Err(e)
    case Ok(s) => Transferred(s, sender, rest)
  }

  /** The ledger contract, its storage held in fields that the entry points update in place. */
  class Token {
    const administrator: Address
    var ledger: map<LedgerKey, nat>
    var counter: nat
    var supply: map<nat, nat>
    var tokenMetadata: map<nat, string>
    const operators: set<OperatorKey>

    /** The storage the fields hold. */
    function State(): Storage
      reads this
    {
      Storage(administrator, ledger, counter, supply, tokenMetadata, operators)
    }

    constructor (administrator: Address, operators: set<OperatorKey>)
      ensures State() == Originated(administrator, operators)
    {
      this.administrator := administrator;
      this.operators := operators;
      ledger := map[];
      counter := 0;
      supply := map[];
      tokenMetadata := map[];
    }

    /** The `mint` entry point. */
    method Mint(sender: Address, params: MintMessage) returns (outcome: Outcome<Error>)
      modifies this
      ensures Minted(old(State()), sender, params) == Committed(outcome, State())
      ensures outcome.Fail? ==> State() == old(State())
    {
      if sender != administrator {
        return Fail(NotAdmin);
      }
      var tokenId := counter;
      ledger := ledger[(params.tokenOwner, tokenId) := MutezToNat(params.price)];
      supply := supply[tokenId := MutezToNat(params.price)];
      tokenMetadata := tokenMetadata[tokenId := params.tokenURI];
      counter := counter + 1;
      return Pass;
    }

    /**
     * The `transfer` entry point: two nested loops that rewrite ledger
     * entries one leaf at a time. A failing leaf restores the ledger the call
     * started from, as the chain rolls back a failed operation.
     */
    method Transfer(sender: Address, batch: seq<TransferItem>) returns (outcome: Outcome<Error>)
      modifies this`ledger
      ensures Transferred(old(State()), sender, batch) == Committed(outcome, State())
      ensures outcome.Fail? ==> State() == old(State())
    {
      var snapshot := ledger;
      var i := 0;
      while i < |batch|
        invariant 0 <= i <= |batch|
        invariant Transferred(old(State()), sender, batch) == Transferred(State(), sender, batch[i..])
      {
        var item := batch[i];
        assert batch[i..][1..] == batch[i + 1..];
        var j := 0;
        while j < |item.txs|
          invariant 0 <= j <= |item.txs|
          invariant Transferred(old(State()), sender, batch)
                 == AndThen(TxsApplied(State(), sender, item.from, item.txs[j..]), sender, batch[i + 1..])
        {
          var tx := item.txs[j];
          assert item.txs[j..][1..] == item.txs[j + 1..];
          if tx.tokenId >= counter {
            ledger := snapshot;
            return Fail(TokenUndefined);
          }
          var owner := item.from;
          if !(sender == owner || OperatorKey(owner, sender, tx.tokenId) in operators) {
            ledger := snapshot;
            return Fail(OperatorError);
          }
          if tx.amount > 0 {
            var ownerKey := (owner, tx.tokenId);
            var held := Get(ledger, ownerKey);
            if held < tx.amount {
              ledger := snapshot;
              return Fail(InsufficientBalance);
            }
            ledger := ledger[ownerKey := held - tx.amount];
            var newOwnerKey := (tx.to, tx.tokenId);
            ledger := ledger[newOwnerKey := Get(ledger, newOwnerKey) + tx.amount];
          }
          j := j + 1;
        }
        i := i + 1;
      }
      return Pass;
    }
  }
}
