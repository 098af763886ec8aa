/**
 * What `redeem` promises: its guards run in a fixed order, the signature
 * first; a successful call bumps the counter by one, marks the voucher as
 * spent and emits exactly a mint, a transfer of one unit and the payment;
 * and a voucher once spent stays spent, so that no later call, whoever
 * makes it, redeems it again.
 */
module LazymintProperties {
  import opened Tezos
  import Fa2
  import opened Lazymint

  /** The checks of `redeem` after `VerifySignature`, in the order it makes them. */
  predicate SenderOk(env: Env, redeemer: Address)
  {
    env.sender == redeemer
  }

  predicate AmountOk(env: Env, voucher: Voucher)
  {
    env.amount == voucher.message.price
  }

  predicate NotYetMinted(s: Storage, voucher: Voucher)
  {
    voucher.message.tokenId > s.counter
  }

  predicate NotYetRedeemed(s: Storage, crypto: Crypto, voucher: Voucher)
  {
    Digest(crypto, voucher.message) !in s.invalidatedVoucher
  }

  /** All five checks of `redeem` pass. */
  predicate ChecksPass(s: Storage, env: Env, crypto: Crypto, redeemer: Address, voucher: Voucher)
  {
    && VerifySignature(crypto, voucher).Pass?
    && SenderOk(env, redeemer)
    && AmountOk(env, voucher)
    && NotYetMinted(s, voucher)
    && NotYetRedeemed(s, crypto, voucher)
  }

  /** The three entry points the emitted operations go to exist with the types asked for. */
  predicate TargetsExist(s: Storage, env: Env, voucher: Voucher)
  {
    && MintEntryPoint(s) in env.entryPoints
    && TransferEntryPoint(s) in env.entryPoints
    && PaymentEntryPoint(voucher.message.tokenOwner) in env.entryPoints
  }

  /**
   * The guard chain. Each failure is reported exactly when its own check
   * fails and every check before it passed; the signature is checked before
   * anything else, so a bad signature is reported whatever the caller, the
   * amount and the storage; a call succeeds exactly when every check passes
   * and the three entry points exist.
   */
  lemma RedeemGuards(s: Storage, env: Env, crypto: Crypto, redeemer: Address, voucher: Voucher)
    ensures var r := Redeemed(s, env, crypto, redeemer, voucher);
      && (r == Err(InvalidSignature) <==> !VerifySignature(crypto, voucher).Pass?)
      && (r == Err(InvalidSender) <==> VerifySignature(crypto, voucher).Pass? && !SenderOk(env, redeemer))
      && (r == Err(InvalidAmount) <==>
            VerifySignature(crypto, voucher).Pass? && SenderOk(env, redeemer) && !AmountOk(env, voucher))
      && (r == Err(TokenAlreadyMinted) <==>
            VerifySignature(crypto, voucher).Pass? && SenderOk(env, redeemer) && AmountOk(env, voucher) &&
            !NotYetMinted(s, voucher))
      && (r == Err(InvalidVoucher) <==>
            VerifySignature(crypto, voucher).Pass? && SenderOk(env, redeemer) && AmountOk(env, voucher) &&
            NotYetMinted(s, voucher) && !NotYetRedeemed(s, crypto, voucher))
      && (r.Ok? <==> ChecksPass(s, env, crypto, redeemer, voucher) && TargetsExist(s, env, voucher))
  {
  }

  /**
   * The signature is checked against the key the voucher carries, and
   * nothing ties that key to the message's `tokenOwner`. Where only
   * Mallory's key produces valid signatures, a voucher that Mallory signs
   * and that names Alice as the owner is redeemed, and it asks the ledger
   * to mint the token to Alice.
   */
  lemma ForeignKeySignsForAnyOwner()
    ensures
      var crypto := Crypto(m => [0], (k, sig, b) => k == "edpkMallory");
      var message := MintMessage(DeployedLedger, 1, "tz1alice", 5, "ipfs://one");
      var voucher := Voucher(message, "sigMallory", "edpkMallory");
      var s := Originated("tz1admin", DeployedLedger, 0, map[]);
      var env := Env("tz1mallory", 5, {MintEntryPoint(s), TransferEntryPoint(s), PaymentEntryPoint("tz1alice")});
      var r := Redeemed(s, env, crypto, "tz1mallory", voucher);
      && r.Ok?
      && r.value.1[0] == CallMint(DeployedLedger, message, 0)
  {
  }

  /**
   * A successful redemption raises the counter by exactly one, records the
   * voucher's digest as spent (it was not recorded before) and changes no
   * other entry, keeps the admin and the ledger address, and emits three
   * operations in this order: the mint of the message's fields with 0 tez to
   * the stored ledger address, the transfer of one unit of the message's
   * token id from its owner to the redeemer, and the payment of the whole
   * price to the owner.
   */
  lemma RedeemEffect(s: Storage, env: Env, crypto: Crypto, redeemer: Address, voucher: Voucher)
    ensures var r, m, d := Redeemed(s, env, crypto, redeemer, voucher), voucher.message, Digest(crypto, voucher.message);
      r.Ok? ==>
        var t, ops := r.value.0, r.value.1;
        && t.counter == s.counter + 1
        && t.admin == s.admin && t.contractAddress == s.contractAddress
        && d !in s.invalidatedVoucher && d in t.invalidatedVoucher && t.invalidatedVoucher[d]
        && t.invalidatedVoucher.Keys == s.invalidatedVoucher.Keys + {d}
        && (forall e :: e in s.invalidatedVoucher ==> t.invalidatedVoucher[e] == s.invalidatedVoucher[e])
        && |ops| == 3
        && ops[0] == CallMint(s.contractAddress, m, 0)
        && ops[1] == CallTransfer(s.contractAddress, TransferArg(m.tokenOwner, Fa2.Tx(redeemer, m.tokenId, 1)), 0)
        && ops[2] == Send(m.tokenOwner, m.price)
  {
  }

  // ----------------------------------------------------- sequences of calls

  /** One call to `redeem`. */
  datatype Call = Call(env: Env, redeemer: Address, voucher: Voucher)

  /** The storage after one call: the call's storage if it succeeded, the old one if it failed. */
  function After(s: Storage, crypto: Crypto, c: Call): Storage
  {
    match Redeemed(s, c.env, crypto, c.redeemer, c.voucher)
    case Ok(r) => r.0
    case Err(_) => s
  }

  /** The storage after a sequence of calls, each run to completion before the next. */
  function Run(s: Storage, crypto: Crypto, calls: seq<Call>): Storage
    decreases |calls|
  {
    if calls == [] then s else Run(After(s, crypto, calls[0]), crypto, calls[1..])
  }

  /** Every recorded voucher is recorded as spent. */
  ghost predicate AllSpent(s: Storage)
  {
    forall d :: d in s.invalidatedVoucher ==> s.invalidatedVoucher[d]
  }

  /**
   * No call removes a recorded voucher or changes what is recorded for it,
   * and every entry it adds says spent; the counter never goes down, and the
   * admin and the ledger address never change.
   */
  lemma {:induction false} RunOnlyAddsVouchers(s: Storage, crypto: Crypto, calls: seq<Call>)
    ensures var t := Run(s, crypto, calls);
      && (forall d :: d in s.invalidatedVoucher ==>
            d in t.invalidatedVoucher && t.invalidatedVoucher[d] == s.invalidatedVoucher[d])
      && (AllSpent(s) ==> AllSpent(t))
      && t.counter >= s.counter
      && t.admin == s.admin && t.contractAddress == s.contractAddress
    decreases |calls|
  {
    if calls != [] {
      var c := calls[0];
      RedeemEffect(s, c.env, crypto, c.redeemer, c.voucher);
      RunOnlyAddsVouchers(After(s, crypto, c), crypto, calls[1..]);
    }
  }

  /**
   * Replay protection: once a voucher has been redeemed, every later
   * attempt to redeem it fails, whatever calls came in between, whoever
   * makes the attempt and whatever it pays; it fails at one of the five
   * checks, before any operation would be emitted.
   */
  lemma ReplayAlwaysFails(s: Storage, env: Env, crypto: Crypto, redeemer: Address, voucher: Voucher,
                          between: seq<Call>, env': Env, redeemer': Address)
    requires Redeemed(s, env, crypto, redeemer, voucher).Ok?
    ensures var again := Redeemed(Run(Redeemed(s, env, crypto, redeemer, voucher).value.0, crypto, between),
                                  env', crypto, redeemer', voucher);
      && again.Err?
      && again.error in {InvalidSignature, InvalidSender, InvalidAmount, TokenAlreadyMinted, InvalidVoucher}
  {
    var t := Redeemed(s, env, crypto, redeemer, voucher).value.0;
    RedeemEffect(s, env, crypto, redeemer, voucher);
    RunOnlyAddsVouchers(t, crypto, between);
  }

  /**
   * The same call repeated straight after it succeeded is refused with
   * TOKEN ALREADY MINTED when the token id is exactly one above the old
   * counter (the counter has caught up with it), and with INVALID VOUCHER
   * otherwise.
   */
  lemma ImmediateReplay(s: Storage, env: Env, crypto: Crypto, redeemer: Address, voucher: Voucher)
    requires Redeemed(s, env, crypto, redeemer, voucher).Ok?
    ensures Redeemed(Redeemed(s, env, crypto, redeemer, voucher).value.0, env, crypto, redeemer, voucher)
         == Err(if voucher.message.tokenId == s.counter + 1 then TokenAlreadyMinted else InvalidVoucher)
  {
  }

  /**
   * The counter counts the successful calls: it rises by one for each call
   * that succeeds and stays put for each that fails.
   */
  function Successes(s: Storage, crypto: Crypto, calls: seq<Call>): nat
    decreases |calls|
  {
    if calls == [] then 0
    else
      var c := calls[0];
      (if Redeemed(s, c.env, crypto, c.redeemer, c.voucher).Ok? then 1 else 0)
      + Successes(After(s, crypto, c), crypto, calls[1..])
  }

  lemma {:induction false} RunCountsSuccesses(s: Storage, crypto: Crypto, calls: seq<Call>)
    ensures Run(s, crypto, calls).counter == s.counter + Successes(s, crypto, calls)
    decreases |calls|
  {
    if calls != [] {
      var c := calls[0];
      RedeemEffect(s, c.env, crypto, c.redeemer, c.voucher);
      RunCountsSuccesses(After(s, crypto, c), crypto, calls[1..]);
    }
  }
}
