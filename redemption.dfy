/**
 * A redemption as one atomic step across both contracts: `redeem` runs on
 * the redemption contract, then the operations it emitted run, in order,
 * against the ledger at its stored `contractAddress`, with the redemption
 * contract as their sender. If any of them fails, nothing of the whole call
 * persists, on either contract.
 *
 * The transfer is emitted with the single-record parameter type of
 * lazymint.py, which is not the ledger's; the lookup of such an entry point
 * fails (`LedgerRefusesRedeemTransfer`). To say what would happen past that
 * lookup, the composition hands the ledger the one-element batch that the
 * record stands for.
 */
module Redemption {
  import opened Tezos
  import Totals
  import Fa2
  import Fa2Properties
  import Lazymint
  import LazymintProperties

  /** Why an atomic redemption failed: on the redemption contract, or on the ledger. */
  datatype Error = Refused(redeemError: Lazymint.Error) | LedgerRefused(ledgerError: Fa2.Error)

  /** Tez forwarded by `sp.send`. */
  datatype Payment = Payment(to: Address, amount: Mutez)

  /** Both storages after a redemption, and the payments it made. */
  datatype Settlement = Settlement(lazymint: Lazymint.Storage, ledger: Fa2.Storage, payments: seq<Payment>)

  /** The entry points of the ledger contract at `address`, with the parameter types it declares. */
  function LedgerEntryPoints(address: Address): set<Lazymint.EntryPoint>
  {
    {Lazymint.EntryPoint(address, "mint", Lazymint.MessageType),
     Lazymint.EntryPoint(address, "transfer", Lazymint.BatchTransferType)}
  }

  /** The ledger's `transfer` parameter that the single record stands for. */
  function AsBatch(arg: Lazymint.TransferArg): seq<Fa2.TransferItem>
  {
    [Fa2.TransferItem(arg.from, [arg.txs])]
  }

  /** The emitted operations, run in order against the ledger with `self` as their sender. */
  function Executed(ledger: Fa2.Storage, self: Address, ops: seq<Lazymint.Operation>, paid: seq<Payment>)
    : Result<(Fa2.Storage, seq<Payment>), Fa2.Error>
    decreases |ops|
  {
    if ops == [] then Ok((ledger, paid))
    else
      match ops[0]
      case CallMint(_, arg, _) =>
        (match Fa2.Minted(ledger, self, arg)
         case Err(e) => Err(e)
         case Ok(l) => Executed(l, self, ops[1..], paid))
      case CallTransfer(_, arg, _) =>
        (match Fa2.Transferred(ledger, self, AsBatch(arg))
         case Err(e) => Err(e)
         case Ok(l) => Executed(l, self, ops[1..], paid))
      case Send(to, amount) => Executed(ledger, self, ops[1..], paid + [Payment(to, amount)])
  }

  /**
   * `redeem` on the redemption contract at `self`, then its operations on
   * the ledger; all or nothing.
   */
  function AtomicRedeem(lazymint: Lazymint.Storage, ledger: Fa2.Storage, self: Address,
                        env: Lazymint.Env, crypto: Lazymint.Crypto, redeemer: Address, voucher: Lazymint.Voucher)
    : Result<Settlement, Error>
  {
    match Lazymint.Redeemed(lazymint, env, crypto, redeemer, voucher)
    case Err(e) => Err(Refused(e))
    case Ok(r) =>
      match Executed(ledger, self, r.1, [])
      case Err(e) => Err(LedgerRefused(e))
      case Ok(x) => Ok(Settlement(r.0, x.0, x.1))
  }

  /**
   * When the stored ledger address holds the ledger contract as written,
   * every redemption that passes its checks fails at an entry point lookup,
   * the `transfer` one at the latest: the ledger declares a list of records
   * each holding a list, and the redemption contract asks for one record
   * holding one record. (If the `mint` lookup also fails, the result is the
   * same error.)
   */
  lemma LedgerRefusesRedeemTransfer(lazymint: Lazymint.Storage, env: Lazymint.Env, crypto: Lazymint.Crypto,
                                    redeemer: Address, voucher: Lazymint.Voucher)
    requires forall ep :: ep in env.entryPoints && ep.address == lazymint.contractAddress ==>
               ep in LedgerEntryPoints(lazymint.contractAddress)
    requires LazymintProperties.ChecksPass(lazymint, env, crypto, redeemer, voucher)
    ensures Lazymint.Redeemed(lazymint, env, crypto, redeemer, voucher) == Err(Lazymint.NoSuchEntryPoint)
  {
    assert Lazymint.TransferEntryPoint(lazymint) !in env.entryPoints;
  }

  /** A successful `redeem` emits a mint, then a transfer, then a payment; running them is running those three. */
  lemma ExecutedRedeem(lazymint: Lazymint.Storage, ledger: Fa2.Storage, self: Address,
                       env: Lazymint.Env, crypto: Lazymint.Crypto, redeemer: Address, voucher: Lazymint.Voucher)
    requires Lazymint.Redeemed(lazymint, env, crypto, redeemer, voucher).Ok?
    ensures var m := voucher.message;
      var ops := Lazymint.Redeemed(lazymint, env, crypto, redeemer, voucher).value.1;
      Executed(ledger, self, ops, [])
        == match Fa2.Minted(ledger, self, m)
           case Err(e) => Err(e)
           case Ok(l) =>
             match Fa2.Transferred(l, self, [Fa2.TransferItem(m.tokenOwner, [Fa2.Tx(redeemer, m.tokenId, 1)])])
             case Err(e) => Err(e)
             case Ok(l') => Ok((l', [Payment(m.tokenOwner, m.price)]))
  {
    var ops := Lazymint.Redeemed(lazymint, env, crypto, redeemer, voucher).value.1;
    var m := voucher.message;
    assert ops[0] == Lazymint.CallMint(lazymint.contractAddress, m, 0);
    assert ops[1..][0] == Lazymint.CallTransfer(lazymint.contractAddress, Lazymint.TransferArg(m.tokenOwner, Fa2.Tx(redeemer, m.tokenId, 1)), 0);
    assert ops[1..][1..] == [Lazymint.Send(m.tokenOwner, m.price)];
    assert ops[1..][1..][1..] == [];
    match Fa2.Minted(ledger, self, m) {
      case Err(e) =>
      case Ok(l) =>
        assert Executed(ledger, self, ops, []) == Executed(l, self, ops[1..], []);
        match Fa2.Transferred(l, self, [Fa2.TransferItem(m.tokenOwner, [Fa2.Tx(redeemer, m.tokenId, 1)])]) {
          case Err(e) =>
          case Ok(l') =>
            assert Executed(l, self, ops[1..], []) == Executed(l', self, ops[1..][1..], []);
            assert [] + [Payment(m.tokenOwner, m.price)] == [Payment(m.tokenOwner, m.price)];
            assert Executed(l', self, ops[1..][1..], []) == Executed(l', self, [], [Payment(m.tokenOwner, m.price)]);
        }
    }
  }

  /**
   * The ledger accepts the mint only from its administrator, and the mint
   * comes from the redemption contract: unless that contract is the
   * ledger's administrator, every redemption that gets past `redeem` fails
   * with FA2_NOT_ADMIN.
   */
  lemma NeedsRedeemerContractAsAdministrator(lazymint: Lazymint.Storage, ledger: Fa2.Storage, self: Address,
                                             env: Lazymint.Env, crypto: Lazymint.Crypto, redeemer: Address, voucher: Lazymint.Voucher)
    requires Lazymint.Redeemed(lazymint, env, crypto, redeemer, voucher).Ok?
    requires ledger.administrator != self
    ensures AtomicRedeem(lazymint, ledger, self, env, crypto, redeemer, voucher) == Err(LedgerRefused(Fa2.NotAdmin))
  {
    ExecutedRedeem(lazymint, ledger, self, env, crypto, redeemer, voucher);
  }

  /**
   * The transfer also comes from the redemption contract, not from the token
   * owner; no entry point ever grants operators, so unless the redemption
   * contract is itself the owner or was granted the token at origination,
   * the ledger refuses the transfer (with FA2_TOKEN_UNDEFINED when the
   * voucher's id does not exist even after the mint, and FA2 OPERATOR ERROR
   * otherwise).
   */
  lemma NeedsOperatorGrant(lazymint: Lazymint.Storage, ledger: Fa2.Storage, self: Address,
                           env: Lazymint.Env, crypto: Lazymint.Crypto, redeemer: Address, voucher: Lazymint.Voucher)
    requires Lazymint.Redeemed(lazymint, env, crypto, redeemer, voucher).Ok?
    requires ledger.administrator == self
    requires self != voucher.message.tokenOwner
    requires Fa2.OperatorKey(voucher.message.tokenOwner, self, voucher.message.tokenId) !in ledger.operators
    ensures AtomicRedeem(lazymint, ledger, self, env, crypto, redeemer, voucher)
         == Err(LedgerRefused(if voucher.message.tokenId <= ledger.counter then Fa2.OperatorError else Fa2.TokenUndefined))
  {
    ExecutedRedeem(lazymint, ledger, self, env, crypto, redeemer, voucher);
    var m := voucher.message;
    var l := Fa2.Minted(ledger, self, m).value;
    Fa2Properties.SingleTransfer(l, self, m.tokenOwner, Fa2.Tx(redeemer, m.tokenId, 1));
  }

  /**
   * The ledger mints the id its own counter holds, while the transfer names
   * the voucher's id, which `redeem` requires to be above the redemption
   * contract's counter. When the ledger's counter is not ahead of the
   * redemption contract's (two fresh contracts, each bumping its counter
   * once per redemption), the voucher's id is never minted and the transfer
   * fails with FA2_TOKEN_UNDEFINED.
   */
  lemma CountersInStepRefuseTransfer(lazymint: Lazymint.Storage, ledger: Fa2.Storage, self: Address,
                                     env: Lazymint.Env, crypto: Lazymint.Crypto, redeemer: Address, voucher: Lazymint.Voucher)
    requires Lazymint.Redeemed(lazymint, env, crypto, redeemer, voucher).Ok?
    requires ledger.administrator == self
    requires ledger.counter <= lazymint.counter
    ensures AtomicRedeem(lazymint, ledger, self, env, crypto, redeemer, voucher) == Err(LedgerRefused(Fa2.TokenUndefined))
  {
    ExecutedRedeem(lazymint, ledger, self, env, crypto, redeemer, voucher);
    var m := voucher.message;
    var l := Fa2.Minted(ledger, self, m).value;
    Fa2Properties.SingleTransfer(l, self, m.tokenOwner, Fa2.Tx(redeemer, m.tokenId, 1));
  }

  /**
   * What a successful atomic redemption did. The redemption contract's
   * storage is what `redeem` left; the ledger minted its own counter's id to
   * the token owner with the price as balance and supply and the URI as
   * metadata; one unit of the voucher's id moved from the owner to the
   * redeemer; the owner was paid the price; the ledger's counter went up by
   * one. For that, the redemption contract must be the ledger's
   * administrator and the owner or an operator of the owner, and the
   * ledger's counter must be ahead of the redemption contract's.
   */
  lemma AtomicRedeemEffect(lazymint: Lazymint.Storage, ledger: Fa2.Storage, self: Address,
                           env: Lazymint.Env, crypto: Lazymint.Crypto, redeemer: Address, voucher: Lazymint.Voucher)
    ensures var r := AtomicRedeem(lazymint, ledger, self, env, crypto, redeemer, voucher);
      var m, id := voucher.message, ledger.counter;
      r.Ok? ==>
        && Lazymint.Redeemed(lazymint, env, crypto, redeemer, voucher).Ok?
        && r.value.lazymint == Lazymint.Redeemed(lazymint, env, crypto, redeemer, voucher).value.0
        && ledger.administrator == self
        && (self == m.tokenOwner || Fa2.OperatorKey(m.tokenOwner, self, m.tokenId) in ledger.operators)
        && lazymint.counter < m.tokenId <= ledger.counter
        && r.value.ledger.counter == ledger.counter + 1
        && r.value.ledger.supply == ledger.supply[id := m.price]
        && r.value.ledger.tokenMetadata == ledger.tokenMetadata[id := m.tokenURI]
        && r.value.payments == [Payment(m.tokenOwner, m.price)]
        && var before := Fa2.Minted(ledger, self, m).value.ledger;
           && (m.tokenOwner != redeemer ==>
                 && Fa2.Balance(r.value.ledger.ledger, redeemer, m.tokenId) == Fa2.Balance(before, redeemer, m.tokenId) + 1
                 && Fa2.Balance(r.value.ledger.ledger, m.tokenOwner, m.tokenId) == Fa2.Balance(before, m.tokenOwner, m.tokenId) - 1)
           && (forall owner, tokenId: nat :: (owner, tokenId) != (m.tokenOwner, m.tokenId) && (owner, tokenId) != (redeemer, m.tokenId) ==>
                 Fa2.Balance(r.value.ledger.ledger, owner, tokenId) == Fa2.Balance(before, owner, tokenId))
  {
    var r := AtomicRedeem(lazymint, ledger, self, env, crypto, redeemer, voucher);
    if r.Ok? {
      ExecutedRedeem(lazymint, ledger, self, env, crypto, redeemer, voucher);
      var m := voucher.message;
      var l := Fa2.Minted(ledger, self, m).value;
      Fa2Properties.SingleTransfer(l, self, m.tokenOwner, Fa2.Tx(redeemer, m.tokenId, 1));
      Fa2Properties.TransferFrame(l, self, [Fa2.TransferItem(m.tokenOwner, [Fa2.Tx(redeemer, m.tokenId, 1)])]);
    }
  }

  /**
   * Starting from a ledger whose ids are all below its counter, a
   * successful atomic redemption keeps that so, creates exactly the price's
   * worth of units of the newly minted id and leaves the units of every
   * other id as they were.
   */
  lemma AtomicRedeemSupply(lazymint: Lazymint.Storage, ledger: Fa2.Storage, self: Address,
                           env: Lazymint.Env, crypto: Lazymint.Crypto, redeemer: Address, voucher: Lazymint.Voucher, id: nat)
    requires Fa2.IdsBelowCounter(ledger)
    ensures var r := AtomicRedeem(lazymint, ledger, self, env, crypto, redeemer, voucher);
      r.Ok? ==>
        && Fa2.IdsBelowCounter(r.value.ledger)
        && Fa2Properties.TokenTotal(r.value.ledger.ledger, id)
           == if id == ledger.counter then voucher.message.price else Fa2Properties.TokenTotal(ledger.ledger, id)
  {
    var r := AtomicRedeem(lazymint, ledger, self, env, crypto, redeemer, voucher);
    if r.Ok? {
      ExecutedRedeem(lazymint, ledger, self, env, crypto, redeemer, voucher);
      var m := voucher.message;
      var l := Fa2.Minted(ledger, self, m).value;
      var batch := [Fa2.TransferItem(m.tokenOwner, [Fa2.Tx(redeemer, m.tokenId, 1)])];
      Fa2Properties.MintKeepsIdsBelowCounter(ledger, self, m);
      Fa2Properties.TransferKeepsIdsBelowCounter(l, self, batch);
      Fa2Properties.TransferConserves(l, self, batch, id);
      var key := (m.tokenOwner, ledger.counter);
      Fa2Properties.TokenTotalUpdate(ledger.ledger, key, m.price, id);
      if id == ledger.counter {
        assert Fa2Properties.OfToken(ledger.ledger, id) == map[];
        assert Totals.Get(ledger.ledger, key) == 0;
      }
    }
  }

  /**
   * The conditions above can all be met at once, but only in a state the
   * contracts as written never reach: the transfer lookup is granted the
   * single-record entry point the ledger does not have, the ledger has
   * minted id 0 with the redemption contract as its administrator while the
   * redemption counter is still 0, and the owner has granted the
   * redemption contract an operator key, which no entry point can do. There
   * a buyer redeems a voucher for id 1 at 69 mutez; the ledger mints id 1
   * with the price, 69, as the owner's balance, moves one unit to the buyer
   * (leaving 68), and the owner is paid 69 mutez. From origination no
   * redemption succeeds (`NoRedemptionEverSucceeds`).
   */
  lemma RedemptionCanSucceed()
    ensures
      var owner, buyer, self := "tz1owner", "tz1buyer", "KT1redeemer";
      var crypto := Lazymint.Crypto(m => [0], (k, sig, b) => true);
      var voucher := Lazymint.Voucher(MintMessage(Lazymint.DeployedLedger, 1, owner, 69, "ipfs://one"), "edsig", "edpk");
      var lazymint := Lazymint.Originated("tz1admin", Lazymint.DeployedLedger, 0, map[]);
      var env := Lazymint.Env(buyer, 69,
        LedgerEntryPoints(Lazymint.DeployedLedger)
        + {Lazymint.TransferEntryPoint(lazymint), Lazymint.PaymentEntryPoint(owner)});
      var ledger := Fa2.Storage(self, map[(owner, 0) := 69], 1, map[0 := 69], map[0 := "ipfs://zero"],
                                {Fa2.OperatorKey(owner, self, 1)});
      var r := AtomicRedeem(lazymint, ledger, self, env, crypto, buyer, voucher);
      && r.Ok?
      && r.value.lazymint.counter == 1
      && Fa2.Balance(r.value.ledger.ledger, owner, 1) == 68
      && Fa2.Balance(r.value.ledger.ledger, buyer, 1) == 1
      && r.value.ledger.counter == 2
      && r.value.payments == [Payment(owner, 69)]
  {
    var owner, buyer, self := "tz1owner", "tz1buyer", "KT1redeemer";
    var crypto := Lazymint.Crypto(m => [0], (k, sig, b) => true);
    var voucher := Lazymint.Voucher(MintMessage(Lazymint.DeployedLedger, 1, owner, 69, "ipfs://one"), "edsig", "edpk");
    var lazymint := Lazymint.Originated("tz1admin", Lazymint.DeployedLedger, 0, map[]);
    var env := Lazymint.Env(buyer, 69,
      LedgerEntryPoints(Lazymint.DeployedLedger)
      + {Lazymint.TransferEntryPoint(lazymint), Lazymint.PaymentEntryPoint(owner)});
    var ledger := Fa2.Storage(self, map[(owner, 0) := 69], 1, map[0 := 69], map[0 := "ipfs://zero"],
                              {Fa2.OperatorKey(owner, self, 1)});
    assert Lazymint.Redeemed(lazymint, env, crypto, buyer, voucher).Ok?;
    ExecutedRedeem(lazymint, ledger, self, env, crypto, buyer, voucher);
    var l := Fa2.Minted(ledger, self, voucher.message).value;
    Fa2Properties.SingleTransfer(l, self, owner, Fa2.Tx(buyer, 1, 1));
  }

  // ------------------------------------------------ runs of both contracts

  /** The storages of the two contracts side by side. */
  datatype System = System(lazymint: Lazymint.Storage, ledger: Fa2.Storage)

  /** A call that reaches one of the two contracts from outside. */
  datatype Step =
    | RedeemCall(env: Lazymint.Env, redeemer: Address, voucher: Lazymint.Voucher)
    | MintCall(sender: Address, params: MintMessage)
    | TransferCall(sender: Address, batch: seq<Fa2.TransferItem>)

  /** Both storages after one call; a failed call leaves both as they were. */
  function StepAfter(sys: System, self: Address, crypto: Lazymint.Crypto, step: Step): System
  {
    match step
    case RedeemCall(env, redeemer, voucher) =>
      (match AtomicRedeem(sys.lazymint, sys.ledger, self, env, crypto, redeemer, voucher)
       case Ok(x) => System(x.lazymint, x.ledger)
       case Err(_) => sys)
    case MintCall(sender, params) =>
      (match Fa2.Minted(sys.ledger, sender, params)
       case Ok(l) => sys.(ledger := l)
       case Err(_) => sys)
    case TransferCall(sender, batch) =>
      (match Fa2.Transferred(sys.ledger, sender, batch)
       case Ok(l) => sys.(ledger := l)
       case Err(_) => sys)
  }

  /** Both storages after a sequence of calls, each run to completion before the next. */
  function SystemRun(sys: System, self: Address, crypto: Lazymint.Crypto, steps: seq<Step>): System
    decreases |steps|
  {
    if steps == [] then sys else SystemRun(StepAfter(sys, self, crypto, steps[0]), self, crypto, steps[1..])
  }

  /**
   * The redemption contract at `self` reaches the ledger only through
   * `redeem`, so every direct call to the ledger comes from someone else.
   */
  predicate FromOutside(self: Address, steps: seq<Step>)
  {
    forall i :: 0 <= i < |steps| && !steps[i].RedeemCall? ==> steps[i].sender != self
  }

  /**
   * While the redemption contract is the ledger's administrator, the
   * ledger's counter is not ahead of the redemption counter.
   */
  predicate CountersInStep(sys: System, self: Address)
  {
    sys.ledger.administrator == self ==> sys.ledger.counter <= sys.lazymint.counter
  }

  /** One call keeps the counters in step, leaves the redemption contract alone and, if a redemption, fails. */
  lemma StepKeepsCountersInStep(sys: System, self: Address, crypto: Lazymint.Crypto, step: Step)
    requires CountersInStep(sys, self)
    requires !step.RedeemCall? ==> step.sender != self
    ensures var after := StepAfter(sys, self, crypto, step);
      && CountersInStep(after, self)
      && after.lazymint == sys.lazymint
      && after.ledger.administrator == sys.ledger.administrator
      && (step.RedeemCall? ==>
            AtomicRedeem(sys.lazymint, sys.ledger, self, step.env, crypto, step.redeemer, step.voucher).Err?)
  {
    match step {
      case RedeemCall(env, redeemer, voucher) =>
        AtomicRedeemEffect(sys.lazymint, sys.ledger, self, env, crypto, redeemer, voucher);
      case MintCall(sender, params) =>
        Fa2Properties.MintEffect(sys.ledger, sender, params);
      case TransferCall(sender, batch) =>
        Fa2Properties.TransferFrame(sys.ledger, sender, batch);
    }
  }

  lemma {:induction false} RunKeepsCountersInStep(sys: System, self: Address, crypto: Lazymint.Crypto, steps: seq<Step>)
    requires CountersInStep(sys, self)
    requires FromOutside(self, steps)
    ensures CountersInStep(SystemRun(sys, self, crypto, steps), self)
    ensures SystemRun(sys, self, crypto, steps).lazymint == sys.lazymint
    decreases |steps|
  {
    if steps != [] {
      StepKeepsCountersInStep(sys, self, crypto, steps[0]);
      assert FromOutside(self, steps[1..]) by {
        forall i | 0 <= i < |steps[1..]| && !steps[1..][i].RedeemCall?
          ensures steps[1..][i].sender != self
        {
          assert steps[1..][i] == steps[i + 1];
        }
      }
      RunKeepsCountersInStep(StepAfter(sys, self, crypto, steps[0]), self, crypto, steps[1..]);
    }
  }

  /**
   * As written, no redemption ever succeeds. Originate both contracts, with
   * any administrators and any operator grants, and make any calls, where
   * the ledger is called directly only by others: the redemption contract's
   * storage stays as it was originated, and the next redemption fails
   * too, even with every entry point lookup answered as asked.
   */
  lemma NoRedemptionEverSucceeds(self: Address, crypto: Lazymint.Crypto,
                                 admin: Address, contractAddress: Address, counter: nat, invalidatedVoucher: map<Bytes, bool>,
                                 administrator: Address, operators: set<Fa2.OperatorKey>, steps: seq<Step>,
                                 env: Lazymint.Env, redeemer: Address, voucher: Lazymint.Voucher)
    requires FromOutside(self, steps)
    ensures var lazymint := Lazymint.Originated(admin, contractAddress, counter, invalidatedVoucher);
      var sys := SystemRun(System(lazymint, Fa2.Originated(administrator, operators)), self, crypto, steps);
      && sys.lazymint == lazymint
      && AtomicRedeem(sys.lazymint, sys.ledger, self, env, crypto, redeemer, voucher).Err?
  {
    var lazymint := Lazymint.Originated(admin, contractAddress, counter, invalidatedVoucher);
    var start := System(lazymint, Fa2.Originated(administrator, operators));
    RunKeepsCountersInStep(start, self, crypto, steps);
    var sys := SystemRun(start, self, crypto, steps);
    StepKeepsCountersInStep(sys, self, crypto, RedeemCall(env, redeemer, voucher));
  }

  /**
   * Over any run of both contracts, no spent voucher is forgotten or
   * changed: an atomic redemption records what `redeem` records, and the
   * ledger's own calls leave the redemption contract alone.
   */
  lemma {:induction false} SystemRunOnlyAddsVouchers(sys: System, self: Address, crypto: Lazymint.Crypto, steps: seq<Step>)
    ensures var t := SystemRun(sys, self, crypto, steps).lazymint;
      forall d :: d in sys.lazymint.invalidatedVoucher ==>
        d in t.invalidatedVoucher && t.invalidatedVoucher[d] == sys.lazymint.invalidatedVoucher[d]
    decreases |steps|
  {
    if steps != [] {
      var step := steps[0];
      if step.RedeemCall? {
        AtomicRedeemEffect(sys.lazymint, sys.ledger, self, step.env, crypto, step.redeemer, step.voucher);
        LazymintProperties.RedeemEffect(sys.lazymint, step.env, crypto, step.redeemer, step.voucher);
      }
      SystemRunOnlyAddsVouchers(StepAfter(sys, self, crypto, step), self, crypto, steps[1..]);
    }
  }

  /**
   * Replay protection for the atomic redemption: once a voucher has been
   * redeemed, any later attempt, after any calls to either contract, by
   * anyone and paying anything, is refused by `redeem` at one of its five
   * checks.
   */
  lemma AtomicReplayAlwaysFails(lazymint: Lazymint.Storage, ledger: Fa2.Storage, self: Address,
                                env: Lazymint.Env, crypto: Lazymint.Crypto, redeemer: Address, voucher: Lazymint.Voucher,
                                between: seq<Step>, env': Lazymint.Env, redeemer': Address)
    requires AtomicRedeem(lazymint, ledger, self, env, crypto, redeemer, voucher).Ok?
    ensures var first := AtomicRedeem(lazymint, ledger, self, env, crypto, redeemer, voucher).value;
      var sys := SystemRun(System(first.lazymint, first.ledger), self, crypto, between);
      var again := AtomicRedeem(sys.lazymint, sys.ledger, self, env', crypto, redeemer', voucher);
      && again.Err? && again.error.Refused?
      && again.error.redeemError in {Lazymint.InvalidSignature, Lazymint.InvalidSender, Lazymint.InvalidAmount,
                                     Lazymint.TokenAlreadyMinted, Lazymint.InvalidVoucher}
  {
    var first := AtomicRedeem(lazymint, ledger, self, env, crypto, redeemer, voucher).value;
    AtomicRedeemEffect(lazymint, ledger, self, env, crypto, redeemer, voucher);
    LazymintProperties.RedeemEffect(lazymint, env, crypto, redeemer, voucher);
    SystemRunOnlyAddsVouchers(System(first.lazymint, first.ledger), self, crypto, between);
  }

  /**
   * The saga: `redeem` on the redemption contract, then each emitted
   * operation on the ledger object; when one fails, both objects are put
   * back as they were (the compensating rollback the chain performs).
   */
  method RedeemAtomically(lazymint: Lazymint.LazyMint, token: Fa2.Token, self: Address,
                          env: Lazymint.Env, crypto: Lazymint.Crypto, redeemer: Address, voucher: Lazymint.Voucher)
    returns (outcome: Outcome<Error>, payments: seq<Payment>)
    modifies lazymint, token
    ensures AtomicRedeem(old(lazymint.State()), old(token.State()), self, env, crypto, redeemer, voucher)
         == Committed(outcome, Settlement(lazymint.State(), token.State(), payments))
    ensures outcome.Fail? ==> lazymint.State() == old(lazymint.State()) && token.State() == old(token.State())
  {
    var counter, vouchers := lazymint.counter, lazymint.invalidatedVoucher;
    var ledger, minted, supply, metadata := token.ledger, token.counter, token.supply, token.tokenMetadata;
    var redeemed, ops := lazymint.Redeem(env, crypto, redeemer, voucher);
    if redeemed.Fail? {
      return Fail(Refused(redeemed.error)), [];
    }
    ghost var redeemedState := lazymint.State();
    payments := [];
    var k := 0;
    while k < |ops|
      invariant 0 <= k <= |ops|
      invariant lazymint.State() == redeemedState
      invariant Executed(old(token.State()), self, ops, []) == Executed(token.State(), self, ops[k..], payments)
    {
      assert ops[k..][1..] == ops[k + 1..];
      var failed: Outcome<Fa2.Error> := Pass;
      match ops[k] {
        case CallMint(_, arg, _) =>
          failed := token.Mint(self, arg);
        case CallTransfer(_, arg, _) =>
          failed := token.Transfer(self, AsBatch(arg));
        case Send(to, amount) =>
          payments := payments + [Payment(to, amount)];
      }
      if failed.Fail? {
        lazymint.counter, lazymint.invalidatedVoucher := counter, vouchers;
        token.ledger, token.counter, token.supply, token.tokenMetadata := ledger, minted, supply, metadata;
        return Fail(LedgerRefused(failed.error)), [];
      }
      k := k + 1;
    }
    outcome := Pass;
  }
}
