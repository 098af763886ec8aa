/**
 * What the ledger's entry points promise: `mint` is reserved to the
 * administrator and hands out the counter as the new id; `transfer` only
 * moves units between owners of existing tokens, at the request of their
 * owner or operator, never overdraws, and changes nothing but the ledger.
 * Every id in the storage stays below the counter.
 */
module Fa2Properties {
  import opened Tezos
  import opened Totals
  import opened Fa2

  /** The balances of one token id. */
  ghost function OfToken(ledger: map<LedgerKey, nat>, id: nat): map<LedgerKey, nat>
  {
    map k | k in ledger && k.1 == id :: ledger[k]
  }

  /** The number of units of token `id` held by all owners together. */
  ghost function TokenTotal(ledger: map<LedgerKey, nat>, id: nat): nat
  {
    Total(OfToken(ledger, id))
  }

  // ---------------------------------------------------------------- mint

  /**
   * `mint` fails with FA2_NOT_ADMIN exactly when the caller is not the
   * administrator; otherwise the new token takes the old counter as its id,
   * the owner's balance and the supply of that id are the price, the
   * metadata is the URI, the counter goes up by one, and every other entry
   * is as it was.
   */
  lemma MintEffect(s: Storage, sender: Address, params: MintMessage)
    ensures Minted(s, sender, params).Err? <==> sender != s.administrator
    ensures Minted(s, sender, params).Err? ==> Minted(s, sender, params).error == NotAdmin
    ensures Minted(s, sender, params).Ok? ==>
      var t, id := Minted(s, sender, params).value, s.counter;
      && t.counter == s.counter + 1
      && Balance(t.ledger, params.tokenOwner, id) == params.price
      && id in t.supply && t.supply[id] == params.price
      && id in t.tokenMetadata && t.tokenMetadata[id] == params.tokenURI
      && t.ledger.Keys == s.ledger.Keys + {(params.tokenOwner, id)}
      && (forall k :: k in s.ledger && k != (params.tokenOwner, id) ==> t.ledger[k] == s.ledger[k])
      && t.supply.Keys == s.supply.Keys + {id}
      && (forall i :: i in s.supply && i != id ==> t.supply[i] == s.supply[i])
      && t.tokenMetadata.Keys == s.tokenMetadata.Keys + {id}
      && (forall i :: i in s.tokenMetadata && i != id ==> t.tokenMetadata[i] == s.tokenMetadata[i])
      && t.administrator == s.administrator && t.operators == s.operators
  {
  }

  /** The id and the contract address carried in the mint parameter make no difference. */
  lemma MintIgnoresRequestedId(s: Storage, sender: Address, params: MintMessage, tokenId: nat, contractAddress: Address)
    ensures Minted(s, sender, params) == Minted(s, sender, params.(tokenId := tokenId, contractAddress := contractAddress))
  {
  }

  /** `mint` keeps every id in the storage below the counter. */
  lemma MintKeepsIdsBelowCounter(s: Storage, sender: Address, params: MintMessage)
    requires IdsBelowCounter(s)
    ensures Minted(s, sender, params).Ok? ==> IdsBelowCounter(Minted(s, sender, params).value)
  {
  }

  // ------------------------------------------------ transfer: one leaf

  /** A leaf changes the ledger only. */
  lemma TxFrame(s: Storage, sender: Address, from: Address, tx: Tx)
    ensures TxApplied(s, sender, from, tx).Ok? ==>
      TxApplied(s, sender, from, tx).value == s.(ledger := TxApplied(s, sender, from, tx).value.ledger)
  {
  }

  /** A leaf that passes is for an existing token and is authorised by its owner. */
  lemma TxAuthorised(s: Storage, sender: Address, from: Address, tx: Tx)
    ensures TxApplied(s, sender, from, tx).Ok? ==> CheckTokenExists(s, tx.tokenId).Pass? && MayTransfer(s, sender, from, tx.tokenId)
  {
  }

  /** Writing one ledger entry changes the balances of that entry's token only. */
  lemma OfTokenUpdate(ledger: map<LedgerKey, nat>, k: LedgerKey, v: nat, id: nat)
    ensures OfToken(ledger[k := v], id) == if k.1 == id then OfToken(ledger, id)[k := v] else OfToken(ledger, id)
  {
    if k.1 == id {
      assert OfToken(ledger[k := v], id).Keys == OfToken(ledger, id)[k := v].Keys;
    } else {
      assert OfToken(ledger[k := v], id).Keys == OfToken(ledger, id).Keys;
    }
  }

  /** How writing one ledger entry changes the total of each token. */
  lemma TokenTotalUpdate(ledger: map<LedgerKey, nat>, k: LedgerKey, v: nat, id: nat)
    ensures k.1 == id ==> TokenTotal(ledger[k := v], id) + Get(ledger, k) == TokenTotal(ledger, id) + v
    ensures k.1 != id ==> TokenTotal(ledger[k := v], id) == TokenTotal(ledger, id)
  {
    OfTokenUpdate(ledger, k, v, id);
    if k.1 == id {
      assert Get(OfToken(ledger, id), k) == Get(ledger, k);
      TotalUpdate(OfToken(ledger, id), k, v);
    }
  }

  /** A leaf moves units of one token between owners without creating or destroying any. */
  lemma TxConserves(s: Storage, sender: Address, from: Address, tx: Tx, id: nat)
    ensures TxApplied(s, sender, from, tx).Ok? ==>
      TokenTotal(TxApplied(s, sender, from, tx).value.ledger, id) == TokenTotal(s.ledger, id)
  {
    if TxApplied(s, sender, from, tx).Ok? && tx.amount > 0 {
      var held := Balance(s.ledger, from, tx.tokenId);
      var debited := s.ledger[(from, tx.tokenId) := held - tx.amount];
      var credited := debited[(tx.to, tx.tokenId) := Balance(debited, tx.to, tx.tokenId) + tx.amount];
      assert TxApplied(s, sender, from, tx).value.ledger == credited;
      TokenTotalUpdate(s.ledger, (from, tx.tokenId), held - tx.amount, id);
      TokenTotalUpdate(debited, (tx.to, tx.tokenId), Balance(debited, tx.to, tx.tokenId) + tx.amount, id);
    }
  }

  /** A leaf that passes touches only ids below the counter. */
  lemma TxKeepsIdsBelowCounter(s: Storage, sender: Address, from: Address, tx: Tx)
    requires IdsBelowCounter(s)
    ensures TxApplied(s, sender, from, tx).Ok? ==> IdsBelowCounter(TxApplied(s, sender, from, tx).value)
  {
  }

  // ------------------------------------------------ transfer: a whole batch

  /** A batch is its first element followed, if that succeeds, by the rest. */
  lemma TransferredStep(s: Storage, sender: Address, batch: seq<TransferItem>)
    requires batch != []
    ensures var r := TxsApplied(s, sender, batch[0].from, batch[0].txs);
      Transferred(s, sender, batch) == if r.Err? then Err(r.error) else Transferred(r.value, sender, batch[1..])
  {
  }

  /**
   * A successful transfer changes the ledger and nothing else: the counter,
   * the supply, the metadata, the operators and the administrator are as
   * they were.
   */
  lemma {:induction false} TransferFrame(s: Storage, sender: Address, batch: seq<TransferItem>)
    ensures Transferred(s, sender, batch).Ok? ==>
      Transferred(s, sender, batch).value == s.(ledger := Transferred(s, sender, batch).value.ledger)
    decreases |batch|
  {
    if batch != [] {
      TransferredStep(s, sender, batch);
      TxsFrame(s, sender, batch[0].from, batch[0].txs);
      var r := TxsApplied(s, sender, batch[0].from, batch[0].txs);
      if r.Ok? {
        TransferFrame(r.value, sender, batch[1..]);
      }
    }
  }

  lemma {:induction false} TxsFrame(s: Storage, sender: Address, from: Address, txs: seq<Tx>)
    ensures TxsApplied(s, sender, from, txs).Ok? ==>
      TxsApplied(s, sender, from, txs).value == s.(ledger := TxsApplied(s, sender, from, txs).value.ledger)
    decreases |txs|
  {
    if txs != [] {
      TxFrame(s, sender, from, txs[0]);
      var r := TxApplied(s, sender, from, txs[0]);
      if r.Ok? {
        TxsFrame(r.value, sender, from, txs[1..]);
      }
    }
  }

  /**
   * Conservation: for every token id, the units held by all owners
   * together are the same after a successful transfer as before, whether or
   * not a leaf sends to its own sender.
   */
  lemma {:induction false} TransferConserves(s: Storage, sender: Address, batch: seq<TransferItem>, id: nat)
    ensures Transferred(s, sender, batch).Ok? ==>
      TokenTotal(Transferred(s, sender, batch).value.ledger, id) == TokenTotal(s.ledger, id)
    decreases |batch|
  {
    if batch != [] {
      TransferredStep(s, sender, batch);
      TxsConserve(s, sender, batch[0].from, batch[0].txs, id);
      var r := TxsApplied(s, sender, batch[0].from, batch[0].txs);
      if r.Ok? {
        TransferConserves(r.value, sender, batch[1..], id);
      }
    }
  }

  lemma {:induction false} TxsConserve(s: Storage, sender: Address, from: Address, txs: seq<Tx>, id: nat)
    ensures TxsApplied(s, sender, from, txs).Ok? ==>
      TokenTotal(TxsApplied(s, sender, from, txs).value.ledger, id) == TokenTotal(s.ledger, id)
    decreases |txs|
  {
    if txs != [] {
      TxConserves(s, sender, from, txs[0], id);
      var r := TxApplied(s, sender, from, txs[0]);
      if r.Ok? {
        TxsConserve(r.value, sender, from, txs[1..], id);
      }
    }
  }

  /** A successful transfer keeps every id in the storage below the counter. */
  lemma {:induction false} TransferKeepsIdsBelowCounter(s: Storage, sender: Address, batch: seq<TransferItem>)
    requires IdsBelowCounter(s)
    ensures Transferred(s, sender, batch).Ok? ==> IdsBelowCounter(Transferred(s, sender, batch).value)
    decreases |batch|
  {
    if batch != [] {
      TransferredStep(s, sender, batch);
      TxsKeepIdsBelowCounter(s, sender, batch[0].from, batch[0].txs);
      var r := TxsApplied(s, sender, batch[0].from, batch[0].txs);
      if r.Ok? {
        TransferKeepsIdsBelowCounter(r.value, sender, batch[1..]);
      }
    }
  }

  lemma {:induction false} TxsKeepIdsBelowCounter(s: Storage, sender: Address, from: Address, txs: seq<Tx>)
    requires IdsBelowCounter(s)
    ensures TxsApplied(s, sender, from, txs).Ok? ==> IdsBelowCounter(TxsApplied(s, sender, from, txs).value)
    decreases |txs|
  {
    if txs != [] {
      TxKeepsIdsBelowCounter(s, sender, from, txs[0]);
      var r := TxApplied(s, sender, from, txs[0]);
      if r.Ok? {
        TxsKeepIdsBelowCounter(r.value, sender, from, txs[1..]);
      }
    }
  }

  /**
   * A transfer succeeds only if every one of its leaves names a token that
   * exists and is requested by the owner of the units or by an operator of
   * theirs. Put the other way round: one leaf with an undefined token id, or
   * one leaf the caller may not move, makes the whole batch fail.
   */
  lemma {:induction false} TransferOnlyAuthorised(s: Storage, sender: Address, batch: seq<TransferItem>)
    ensures Transferred(s, sender, batch).Ok? ==>
      forall i, j :: 0 <= i < |batch| && 0 <= j < |batch[i].txs| ==>
        CheckTokenExists(s, batch[i].txs[j].tokenId).Pass? && MayTransfer(s, sender, batch[i].from, batch[i].txs[j].tokenId)
    decreases |batch|
  {
    if batch != [] {
      TransferredStep(s, sender, batch);
      TxsOnlyAuthorised(s, sender, batch[0].from, batch[0].txs);
      TxsFrame(s, sender, batch[0].from, batch[0].txs);
      var r := TxsApplied(s, sender, batch[0].from, batch[0].txs);
      if r.Ok? {
        TransferOnlyAuthorised(r.value, sender, batch[1..]);
        forall i, j | 0 <= i < |batch| && 0 <= j < |batch[i].txs|
          ensures Transferred(s, sender, batch).Ok? ==>
            CheckTokenExists(s, batch[i].txs[j].tokenId).Pass? && MayTransfer(s, sender, batch[i].from, batch[i].txs[j].tokenId)
        {
          if i > 0 {
            assert batch[i] == batch[1..][i - 1];
          }
        }
      }
    }
  }

  lemma {:induction false} TxsOnlyAuthorised(s: Storage, sender: Address, from: Address, txs: seq<Tx>)
    ensures TxsApplied(s, sender, from, txs).Ok? ==>
      forall j :: 0 <= j < |txs| ==> CheckTokenExists(s, txs[j].tokenId).Pass? && MayTransfer(s, sender, from, txs[j].tokenId)
    decreases |txs|
  {
    if txs != [] {
      TxAuthorised(s, sender, from, txs[0]);
      TxFrame(s, sender, from, txs[0]);
      var r := TxApplied(s, sender, from, txs[0]);
      if r.Ok? {
        TxsOnlyAuthorised(r.value, sender, from, txs[1..]);
        assert forall j :: 1 <= j < |txs| ==> txs[j] == txs[1..][j - 1];
      }
    }
  }

  /** The reason a leaf gives for failing, judged against the storage the batch started from. */
  ghost predicate Causes(s: Storage, sender: Address, from: Address, tx: Tx, e: Error)
  {
    match e
    case NotAdmin => false
    case TokenUndefined => !CheckTokenExists(s, tx.tokenId).Pass?
    case OperatorError => CheckTokenExists(s, tx.tokenId).Pass? && !MayTransfer(s, sender, from, tx.tokenId)
    case InsufficientBalance => CheckTokenExists(s, tx.tokenId).Pass? && MayTransfer(s, sender, from, tx.tokenId) && tx.amount > 0
  }

  /**
   * A failed transfer names the reason of one of its leaves: FA2_TOKEN_UNDEFINED
   * only if some leaf's id was never minted, FA2 OPERATOR ERROR only if some
   * leaf is for an existing token its caller may not move, and
   * FA2_INSUFFICIENT_BALANCE only if some authorised leaf moves a positive
   * amount. A transfer never fails with FA2_NOT_ADMIN.
   */
  lemma {:induction false} TransferErrorHasCause(s: Storage, sender: Address, batch: seq<TransferItem>)
    ensures Transferred(s, sender, batch).Err? ==>
      exists i, j :: 0 <= i < |batch| && 0 <= j < |batch[i].txs| &&
        Causes(s, sender, batch[i].from, batch[i].txs[j], Transferred(s, sender, batch).error)
    decreases |batch|
  {
    if batch != [] {
      TransferredStep(s, sender, batch);
      var r := TxsApplied(s, sender, batch[0].from, batch[0].txs);
      TxsErrorHasCause(s, sender, batch[0].from, batch[0].txs);
      TxsFrame(s, sender, batch[0].from, batch[0].txs);
      if r.Err? {
        var j :| 0 <= j < |batch[0].txs| && Causes(s, sender, batch[0].from, batch[0].txs[j], r.error);
        assert Causes(s, sender, batch[0].from, batch[0].txs[j], Transferred(s, sender, batch).error);
      } else if Transferred(s, sender, batch).Err? {
        TransferErrorHasCause(r.value, sender, batch[1..]);
        var i, j :| 0 <= i < |batch[1..]| && 0 <= j < |batch[1..][i].txs| &&
          Causes(r.value, sender, batch[1..][i].from, batch[1..][i].txs[j], Transferred(s, sender, batch).error);
        assert batch[1..][i] == batch[i + 1];
      }
    }
  }

  lemma {:induction false} TxsErrorHasCause(s: Storage, sender: Address, from: Address, txs: seq<Tx>)
    ensures TxsApplied(s, sender, from, txs).Err? ==>
      exists j :: 0 <= j < |txs| && Causes(s, sender, from, txs[j], TxsApplied(s, sender, from, txs).error)
    decreases |txs|
  {
    if txs != [] {
      var r := TxApplied(s, sender, from, txs[0]);
      TxFrame(s, sender, from, txs[0]);
      if r.Err? {
        assert Causes(s, sender, from, txs[0], r.error);
      } else if TxsApplied(s, sender, from, txs).Err? {
        TxsErrorHasCause(r.value, sender, from, txs[1..]);
        var j :| 0 <= j < |txs[1..]| && Causes(r.value, sender, from, txs[1..][j], TxsApplied(s, sender, from, txs).error);
        assert txs[1..][j] == txs[j + 1];
      }
    }
  }

  /**
   * Leaves of amount zero are checked but skipped: a batch of such leaves
   * either fails a check or leaves the storage exactly as it was.
   */
  lemma {:induction false} ZeroAmountsChangeNothing(s: Storage, sender: Address, batch: seq<TransferItem>)
    requires forall i, j :: 0 <= i < |batch| && 0 <= j < |batch[i].txs| ==> batch[i].txs[j].amount == 0
    ensures Transferred(s, sender, batch).Ok? ==> Transferred(s, sender, batch).value == s
    decreases |batch|
  {
    if batch != [] {
      TransferredStep(s, sender, batch);
      ZeroAmountTxsChangeNothing(s, sender, batch[0].from, batch[0].txs);
      var r := TxsApplied(s, sender, batch[0].from, batch[0].txs);
      if r.Ok? {
        assert forall i, j :: 0 <= i < |batch[1..]| && 0 <= j < |batch[1..][i].txs| ==>
          batch[1..][i].txs[j] == batch[i + 1].txs[j];
        ZeroAmountsChangeNothing(r.value, sender, batch[1..]);
      }
    }
  }

  lemma {:induction false} ZeroAmountTxsChangeNothing(s: Storage, sender: Address, from: Address, txs: seq<Tx>)
    requires forall j :: 0 <= j < |txs| ==> txs[j].amount == 0
    ensures TxsApplied(s, sender, from, txs).Ok? ==> TxsApplied(s, sender, from, txs).value == s
    decreases |txs|
  {
    if txs != [] {
      if TxApplied(s, sender, from, txs[0]).Ok? {
        ZeroAmountTxsChangeNothing(s, sender, from, txs[1..]);
      }
    }
  }

  /**
   * A batch of one leaf, the shape every call in the repository uses: the
   * three failures in the order they are checked, an absent balance read as
   * 0, and on success the sender's balance down by the amount and the
   * receiver's up by it (the two cancelling when they are the same owner),
   * every other balance as it was.
   */
  lemma SingleTransfer(s: Storage, sender: Address, from: Address, tx: Tx)
    ensures var r := Transferred(s, sender, [TransferItem(from, [tx])]);
      && (r == Err(TokenUndefined) <==> tx.tokenId >= s.counter)
      && (r == Err(OperatorError) <==> tx.tokenId < s.counter && !MayTransfer(s, sender, from, tx.tokenId))
      && (r == Err(InsufficientBalance) <==>
            tx.tokenId < s.counter && MayTransfer(s, sender, from, tx.tokenId) &&
            tx.amount > Balance(s.ledger, from, tx.tokenId))
      && (r.Ok? ==>
            && (from != tx.to ==>
                  && Balance(r.value.ledger, from, tx.tokenId) == Balance(s.ledger, from, tx.tokenId) - tx.amount
                  && Balance(r.value.ledger, tx.to, tx.tokenId) == Balance(s.ledger, tx.to, tx.tokenId) + tx.amount)
            && Balance(r.value.ledger, from, tx.tokenId) + Balance(r.value.ledger, tx.to, tx.tokenId)
               == Balance(s.ledger, from, tx.tokenId) + Balance(s.ledger, tx.to, tx.tokenId)
            && (forall owner, id: nat :: (owner, id) != (from, tx.tokenId) && (owner, id) != (tx.to, tx.tokenId) ==>
                  Balance(r.value.ledger, owner, id) == Balance(s.ledger, owner, id)))
  {
    TransferredStep(s, sender, [TransferItem(from, [tx])]);
    assert [TransferItem(from, [tx])][1..] == [];
    assert [tx][1..] == [];
    var r := TxApplied(s, sender, from, tx);
    assert TxsApplied(s, sender, from, [tx]) == r;
  }
}
