# Lazy minting on Tezos: a Dafny model

This project models the two SmartPy contracts that implement voucher-based
lazy minting, and proves properties of them.

- **The token ledger** (`Token`, contracts/fa2.py) keeps a ledger of balances
  keyed by (owner, token id), plus the supply and metadata of each token. A
  counter hands out token ids. A fixed set of operator grants decides who
  may move whose units. `mint` is reserved to the administrator and mints
  the counter's id. `transfer` runs a batch of debits and credits, all or
  nothing.
- **The redemption contract** (`LazyMint`, contracts/lazymint.py) takes a
  voucher signed off-chain with the key the voucher itself carries.
  `redeem` checks that signature, the caller, the amount paid, the token id and whether the
  voucher was spent before. It then emits a call to the ledger's `mint`, a
  call to its `transfer` of one unit to the buyer, and a payment to the
  owner. It bumps its own counter and records the voucher's packed bytes
  as spent.

Each entry point appears in two forms:
- a specification function from the old storage to a `Result` holding the
  new storage or the failure message (`Fa2.Minted`, `Fa2.Transferred`,
  `Lazymint.Redeemed`);
- a method of a class whose fields the entry point updates in place
  (`Fa2.Token`, `Lazymint.LazyMint`).

Each method is proved to agree with its function, failures included: a
failed call leaves every field as it was. The properties are lemmas about
the functions.

`Redemption` composes the two contracts into one atomic step. `redeem` runs
first. Then the operations it emitted run, in order, against the ledger,
with the redemption contract as their sender. `Redemption.RedeemAtomically`
does the same on the two objects and rolls both back when an operation
fails.

Files:
- `tezos.dfy`: addresses, mutez, the mint message, `Result`.
- `totals.dfy`: sums over maps.
- `fa2.dfy` and `fa2_properties.dfy`: the ledger and its properties.
- `lazymint.dfy` and `lazymint_properties.dfy`: redemption and its properties.
- `redemption.dfy`: the composition.

## Behaviour of the code that the model records rather than corrects

- lazymint.py:30-33 declares the `transfer` parameter as ONE record whose
  `txs` is ONE record. fa2.py:34-39 takes a list of records, each holding
  a list. A Michelson `CONTRACT` lookup of a mistyped entry point yields
  nothing, so `open_some()` fails. Against the ledger as written, every
  `redeem` that passes its checks therefore fails
  (`Redemption.LedgerRefusesRedeemTransfer`). Past that lookup, the
  composition treats the record as the one-element batch it stands for.
- `verify_signature` (lazymint.py:68-76) checks the signature against
  `voucher.publickey`, the key the caller supplies. Nothing ties that key
  to `message.tokenOwner`, although the comments at lazymint.py:7 and
  lazymint.py:74 say the owner's signature is checked. So anyone holding
  any key can issue a voucher that names any owner at any price
  (`LazymintProperties.RedeemGuards`, whose success condition never
  mentions the owner, and `LazymintProperties.ForeignKeySignsForAnyOwner`).
- The mint reaches the ledger with the redemption contract as sender.
  fa2.py:83 accepts only the administrator
  (`Redemption.NeedsRedeemerContractAsAdministrator`).
- The transfer also comes from the redemption contract, not from the token
  owner. fa2.py:79 starts the operator grants empty, and no entry point
  ever adds one. The ledger therefore refuses the transfer unless the
  redemption contract is itself the token owner
  (`Redemption.NeedsOperatorGrant`). The model takes the grants as an
  origination input, so this lemma covers any set of grants.
- The ledger mints the id in its own counter (fa2.py:95). The transfer
  names the voucher's id (lazymint.py:124), which must exceed the
  redemption contract's own counter (lazymint.py:92). When the ledger's
  counter is not ahead of the redemption contract's, the transfer fails
  with FA2_TOKEN_UNDEFINED (`Redemption.CountersInStepRefuseTransfer`).
  Only the redemption contract can mint on a ledger it administers, so
  from origination the two counters stay in step.
- Taken together: as written, no redemption ever succeeds. From two
  originated contracts, with any administrators and operator grants, after
  any calls, the redemption contract's storage is still its initial one.
  The next redemption also fails, even when every entry point lookup is
  answered as asked (`Redemption.NoRedemptionEverSucceeds`).
- `mint` sets both the owner's balance and the supply to the price in
  mutez, not to 1. `Redemption.RedemptionCanSucceed` shows what a
  redemption would do in a state the contracts never reach from
  origination. That state grants the single-record transfer lookup,
  gives the ledger a counter ahead of the redemption counter, and gives
  the redemption contract an operator grant. There, a redemption at
  price 69 leaves the owner holding 68 units of the minted id and the
  buyer 1.
- One successful `redeem` raises the redemption counter by exactly 1
  (lazymint.py:113), so after the first redemption from 0 the counter
  is 1.
- The guard is `tokenId > counter`, strictly greater. Redeeming the same
  voucher again straight away fails with TOKEN ALREADY MINTED when the id
  was exactly one above the old counter, and with INVALID VOUCHER
  otherwise (`LazymintProperties.ImmediateReplay`). The replay in
  tests/lazymint_tests.py:37-41 is labelled with the first of these.
- The constructor of `LazyMint` ignores its `contractAddress`, `counter`
  and `invalidated_voucher` arguments (lazymint.py:60-65).
- `message.contractAddress` is passed on to `mint` but never checked. The
  calls go to the stored ledger address.

## Model

| member | source | states |
|---|---|---|
| `Fa2.Originated` | contracts/fa2.py:52-80 | A fresh ledger has counter 0 and the given administrator, and every id in its storage is below the counter. |
| `Fa2.Token.constructor` | contracts/fa2.py:72-80 | The object's fields hold the originated storage: empty ledger, supply and metadata, counter 0. |
| `Fa2.CheckIsAdministrator` | contracts/fa2.py:82-83 | Exactly the configured administrator passes. Every other caller is stopped with FA2_NOT_ADMIN. |
| `Fa2.CheckTokenExists` | contracts/fa2.py:85-86 | An id passes exactly when it is below the counter. Otherwise the call is stopped with FA2_TOKEN_UNDEFINED. When every id in the storage is below the counter, an id that fails the check has no supply, no metadata and a zero balance for every owner. |
| `Fa2.Minted` | contracts/fa2.py:88-105 | The definition of `mint` on the storage value: the administrator check, then the four updates. `Fa2Properties.MintEffect` characterises it. |
| `Fa2.TxApplied` | contracts/fa2.py:113-140 | The definition of one transfer leaf: the existence check, the operator check, skipping a zero amount, the balance check, then the debit and credit. `Fa2Properties.SingleTransfer` characterises it, and `TxFrame`, `TxAuthorised` and `TxConserves` state its properties. |
| `Fa2.Transferred` | contracts/fa2.py:107-140 | The definition of `transfer`: the leaves in batch order, with the first failure ending the call. `Fa2Properties.TransferConserves`, `TransferFrame`, `TransferOnlyAuthorised` and `TransferErrorHasCause` characterise it. |
| `Fa2.Token.Mint` | contracts/fa2.py:88-105 | The in-place `mint` commits exactly the storage `Minted` gives; when it fails with FA2_NOT_ADMIN, no field changes. |
| `Fa2.Token.Transfer` | contracts/fa2.py:107-140 | The nested loops over batch and txs commit exactly the storage `Transferred` gives. Any failing leaf, however late in the batch, restores the ledger the call began with. |
| `Fa2Properties.MintEffect` | contracts/fa2.py:82-105 | `mint` fails with FA2_NOT_ADMIN exactly when the sender is not the administrator. On success the new id is the old counter. The owner's balance and the supply of that id are the price, the metadata is the URI, and the counter rises by 1. Every other ledger, supply and metadata entry is unchanged, as are the administrator and the operators. |
| `Fa2Properties.MintIgnoresRequestedId` | contracts/fa2.py:95 | The `tokenId` and `contractAddress` in the mint parameter make no difference to the result. |
| `Fa2Properties.MintKeepsIdsBelowCounter` | contracts/fa2.py:95-105 | `mint` keeps every ledger, supply and metadata id below the counter. |
| `Fa2Properties.TxFrame` | contracts/fa2.py:113-140 | One leaf of a transfer changes only the ledger. |
| `Fa2Properties.TxAuthorised` | contracts/fa2.py:113-125 | A leaf that passes names an existing token, and its sender is the owner or an operator of the owner for that token. |
| `Fa2Properties.TxConserves` | contracts/fa2.py:128-140 | A leaf leaves the total units of every token id unchanged, including when it sends to its own sender. |
| `Fa2Properties.TxKeepsIdsBelowCounter` | contracts/fa2.py:114-140 | A leaf that passes writes ledger entries only for ids below the counter. |
| `Fa2Properties.TransferFrame` | contracts/fa2.py:107-140 | A successful transfer leaves the counter, supply, metadata, operators and administrator unchanged. |
| `Fa2Properties.TxsFrame` | contracts/fa2.py:112-140 | The leaves of one batch element change only the ledger. |
| `Fa2Properties.TransferConserves` | contracts/fa2.py:111-140 | Conservation: after a successful transfer, the units of each token id held by all owners together are as before. |
| `Fa2Properties.TxsConserve` | contracts/fa2.py:112-140 | The leaves of one batch element conserve every token's total. |
| `Fa2Properties.TransferKeepsIdsBelowCounter` | contracts/fa2.py:111-140 | A successful transfer keeps every ledger, supply and metadata id below the counter. |
| `Fa2Properties.TxsKeepIdsBelowCounter` | contracts/fa2.py:112-140 | The leaves of one batch element keep every id below the counter. |
| `Fa2Properties.TransferOnlyAuthorised` | contracts/fa2.py:111-125 | A transfer succeeds only if every leaf's id is below the counter and its sender is `from` or holds an operator grant. So one undefined id, or one leaf the caller may not move, fails the whole batch. |
| `Fa2Properties.TxsOnlyAuthorised` | contracts/fa2.py:112-125 | The same, for the leaves of one batch element. |
| `Fa2Properties.TransferErrorHasCause` | contracts/fa2.py:111-134 | A failed transfer's message names the cause found in one of its leaves. FA2_TOKEN_UNDEFINED means an id was never minted. FA2 OPERATOR ERROR means an existing token the caller may not move. FA2_INSUFFICIENT_BALANCE means an authorised leaf with a positive amount. It is never FA2_NOT_ADMIN. |
| `Fa2Properties.TxsErrorHasCause` | contracts/fa2.py:112-134 | The same, for the leaves of one batch element. |
| `Fa2Properties.ZeroAmountsChangeNothing` | contracts/fa2.py:127-128 | A batch whose leaves all have amount 0 either fails a check or leaves the storage exactly as it was. |
| `Fa2Properties.ZeroAmountTxsChangeNothing` | contracts/fa2.py:127-128 | The same, for the leaves of one batch element. |
| `Fa2Properties.SingleTransfer` | contracts/fa2.py:111-140 | For a one-leaf batch, each failure holds exactly when its own check fails and the earlier ones pass. A missing balance counts as 0. On success the sender loses the amount and the receiver gains it, the two cancelling when they are the same owner. Every other balance is unchanged. |
| `Lazymint.Originated` | contracts/lazymint.py:40-65 | The initial storage keeps only `admin` from the arguments. The ledger address is the constant KT1 address, the counter 0 and the spent-voucher map empty. |
| `Lazymint.LazyMint.constructor` | contracts/lazymint.py:40-65 | The object's fields hold that initial storage, whatever was passed. |
| `Lazymint.VerifySignature` | contracts/lazymint.py:68-76 | Passes exactly when `check_signature` accepts the voucher's own key and signature on the packed message. Otherwise the call is stopped with INVALID SIGNATURE. |
| `Lazymint.Redeemed` | contracts/lazymint.py:78-133 | The definition of `redeem`: the five checks, then the three lookups, then the new storage and operations. `LazymintProperties.RedeemGuards` and `RedeemEffect` characterise it. |
| `Lazymint.LazyMint.Redeem` | contracts/lazymint.py:78-133 | The in-place `redeem` commits exactly the storage and operations that `Redeemed` gives. The counter is bumped between the mint and the transfer and restored if a later lookup fails. A failure emits nothing and changes no field. |
| `LazymintProperties.RedeemGuards` | contracts/lazymint.py:68-95 | The guard chain, signature first. Each error is reported exactly when its own check fails and all earlier ones passed. A bad signature is reported whatever the caller, amount or storage. A call succeeds exactly when all five checks pass and the three entry points exist. |
| `LazymintProperties.RedeemEffect` | contracts/lazymint.py:96-133 | A successful `redeem` raises the counter by exactly 1 and records the digest, not recorded before, as `True`. No other entry changes, and neither do `admin` and `contractAddress`. It emits exactly three operations, in order: mint of the message with 0 tez to the stored ledger, transfer of 1 unit of `message.tokenId` from `tokenOwner` to the redeemer, payment of the full price to `tokenOwner`. |
| `LazymintProperties.ForeignKeySignsForAnyOwner` | contracts/lazymint.py:68-76 | A voucher naming Alice as owner, signed with Mallory's key (the only valid one), is redeemed, and the ledger is asked to mint the token to Alice. |
| `LazymintProperties.RunOnlyAddsVouchers` | contracts/lazymint.py:92-133 | Over any sequence of calls, no recorded voucher is removed or changed, and every added entry is `True`. The counter never decreases, and `admin` and `contractAddress` never change. |
| `LazymintProperties.ReplayAlwaysFails` | contracts/lazymint.py:92-95 | After a voucher has been redeemed, any later attempt to redeem it fails at one of the five checks, whatever calls came between, whoever calls and whatever is paid. |
| `LazymintProperties.ImmediateReplay` | contracts/lazymint.py:92-95 | Repeating a successful call straight away fails with TOKEN ALREADY MINTED if the id was the old counter plus 1, and with INVALID VOUCHER otherwise. |
| `LazymintProperties.RunCountsSuccesses` | contracts/lazymint.py:112-113 | After any sequence of calls, the counter equals its start plus the number of calls that succeeded. |
| `Redemption.LedgerRefusesRedeemTransfer` | contracts/lazymint.py:115-128 | If the stored ledger address exposes only the ledger's own entry points (`transfer` typed as a list of lists), every redemption passing its checks fails with `NoSuchEntryPoint` at an entry point lookup, the `transfer` one at the latest. |
| `Redemption.ExecutedRedeem` | contracts/lazymint.py:97-130 | Running the operations of a successful `redeem` is running the ledger's mint, then its transfer of one unit, then recording the payment of the price. |
| `Redemption.AtomicRedeem` | contracts/lazymint.py:96-133 | The definition of a redemption together with the operations it emits, all or nothing. `Redemption.AtomicRedeemEffect` and `AtomicRedeemSupply` characterise it. |
| `Redemption.NeedsRedeemerContractAsAdministrator` | contracts/fa2.py:82-91 | Unless the redemption contract is the ledger's administrator, every redemption that passes `redeem` fails with FA2_NOT_ADMIN. |
| `Redemption.NeedsOperatorGrant` | contracts/fa2.py:117-125 | If the redemption contract is neither the token owner nor an operator of the owner, the transfer is refused. The error is FA2 OPERATOR ERROR when the id exists after the mint, and FA2_TOKEN_UNDEFINED otherwise. |
| `Redemption.CountersInStepRefuseTransfer` | contracts/lazymint.py:92-124 | When the ledger's counter is not ahead of the redemption contract's, the voucher's id does not exist even after the mint, and the redemption fails with FA2_TOKEN_UNDEFINED. |
| `Redemption.AtomicRedeemEffect` | contracts/lazymint.py:96-133 | On success, all of the following hold. `redeem` succeeded, and the redemption contract is the ledger's administrator and the owner or an operator. The redemption counter is below the voucher's id, which is at most the ledger's counter. The ledger minted its counter's id with the price as supply and the URI as metadata. One unit moved from owner to redeemer, every other balance is unchanged, and the owner was paid the price. |
| `Redemption.AtomicRedeemSupply` | contracts/fa2.py:95-140 | From a ledger whose ids are all below its counter, a successful redemption keeps that so. It creates exactly the price's worth of units of the newly minted id and leaves every other id's total unchanged. |
| `Redemption.RedemptionCanSucceed` | contracts/lazymint.py:79-133 | All of `AtomicRedeem`'s success conditions can hold at once, but only in a state the source never produces. That state has three parts: (1) the single-record transfer lookup is granted and replaced by the one-element batch; (2) the ledger's counter is ahead of the redemption counter; (3) the redemption contract holds an operator grant. There a redemption at 69 mutez leaves the owner 68 units and the buyer 1, and pays the owner 69. |
| `Redemption.StepKeepsCountersInStep` | contracts/fa2.py:82-105 | One call, with direct ledger calls coming from others, leaves the redemption contract's storage and the ledger's administrator unchanged. It keeps the ledger's counter at or below the redemption counter while the redemption contract administers the ledger. A redemption in such a state fails. |
| `Redemption.RunKeepsCountersInStep` | contracts/lazymint.py:92-124 | Over any sequence of such calls, the counters stay in step and the redemption contract's storage does not change. |
| `Redemption.NoRedemptionEverSucceeds` | contracts/lazymint.py:79-133 | From two originated contracts, with any administrators and operator grants, after any calls, the redemption contract's storage is still its initial one, and every further redemption fails. |
| `Redemption.SystemRunOnlyAddsVouchers` | contracts/lazymint.py:92-114 | Over any run of atomic redemptions and direct ledger calls, no recorded voucher is removed or changed. |
| `Redemption.AtomicReplayAlwaysFails` | contracts/lazymint.py:92-95 | After an atomic redemption of a voucher, and any calls to either contract, a later atomic redemption of it is refused by `redeem` at one of its five checks, whoever calls and whatever is paid. |
| `Redemption.RedeemAtomically` | contracts/lazymint.py:96-133 | The saga on the two objects commits exactly what `AtomicRedeem` gives. When any step fails, both objects are put back as they were. |

## Left out

- `sp.pack` and `sp.check_signature` are not modelled. They are the two fields of a `Lazymint.Crypto` value passed into every call. Nothing is assumed about them, not even that `pack` is injective. A different message that packs to the same bytes as a spent voucher is therefore also refused.
- Whether an address has an entry point of a given type is an input of each call (`Lazymint.Env.entryPoints`), not looked up on chain. The failure of `open_some()` without a message is `NoSuchEntryPoint`, with no message text of the contract's own.
- Tez moved by `sp.send` is recorded as a `Redemption.Payment` only. No account balances are kept. Mutez amounts are natural numbers, because they are only compared and forwarded. The Michelson bound on mutez is not modelled.
- The Tezos operation queue is reduced to one rule: the emitted operations run in the order they were emitted, after `redeem` finishes, and any failure rolls back the whole call. This rule applies in `Redemption` only.
- `LazymintProperties.RunOnlyAddsVouchers`, `LazymintProperties.ReplayAlwaysFails` and `LazymintProperties.RunCountsSuccesses` cover the redemption contract on its own: a call counts as done once `redeem` returns its operations, and those operations are assumed to succeed. The same voucher properties for the atomic composition, where a failing operation undoes the call, are `Redemption.SystemRunOnlyAddsVouchers` and `Redemption.AtomicReplayAlwaysFails`.
- The operator grants are an origination input (`Fa2.Token.constructor` takes them). The source initialises them to an empty big_map, and no entry point writes them.
- `Fa2.Token.constructor`: takes the operator grants as a parameter, where the source always starts them empty.
- The unused `token_id` storage field and the unused `FA2.py` template import are not part of this model. The SmartPy typing calls (`sp.set_type`, `sp.compute`) are not modelled either.
- `Redemption.AtomicRedeem` hands the ledger the one-element batch that the single-record transfer parameter stands for. On chain, the lookup of that parameter type fails first (`Redemption.LedgerRefusesRedeemTransfer`).
- The test scenarios under tests/ are not modelled. tests/fa2_tests.py:15 constructs `Token()` without the administrator argument.
