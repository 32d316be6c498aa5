# ICHI vault indexer bookkeeping, in Dafny

This project models the bookkeeping core of an event indexer for ICHI vaults.
Each on-chain log becomes an immutable event record keyed by
`<chainId>_<blockNumber>_<logIndex>`. Vault creation writes a vault record.
Deposits and withdrawals record before-event totals. Every `Transfer` of
vault shares moves balances between per-user `VaultShare` records and keeps a
per-vault `holdersCount`.

The entity store the framework hands to each handler (`context`) is the class
`Store.Context`: a set of user ids and maps for vaults, shares and event
records, updated in place by `Set*` methods. Every handler and helper that
works on the store is an imperative method on a `Context`. Its postcondition
ties the new store to a pure function of the old one (`VaultShareUpserted`,
`UserCreated`, `VaultCreatedAfter`, `SenderLeg`, `ReceiverLeg`,
`TransferAfter`). The properties of the source are proved as lemmas about
those functions.

Modules:

- `Store`: the entities, the store as a value (`Db`), and the three-valued
  lookup `Null | Undefined | Found`. The two helpers test absence
  differently, so the lookup keeps both absent values.
- `Ids`: decimal rendering of integers, the event-record key, the share key,
  and their injectivity.
- `Helpers`: `src/helpers.ts`. The constants, `exponentToBigDecimal` and
  `convertTokenToDecimal` on JavaScript `BigInt` (division truncates toward
  zero), `createUser`, and `createVaultShare`.
- `EventHandlers`: `src/EventHandlers.ts`. The vault-creation handler,
  Approval (one representative of the handlers that only copy fields),
  Deposit, Withdraw, Rebalance, and Transfer.
- `LedgerProofs`: one transfer leg at a time. Covers balances, zero/non-zero
  flips, the holder count and the store's keying invariants.
- `TransferProofs`: the Transfer handler as a whole.
- `ShareUnits`: the token's own ledger, replaying a history of transfers
  through the handler, and the truncation finding.

The contract reads of Deposit (five sequential calls through `viem`) are
inputs. `readsCompleted` says how many of them returned before the first
failure. In Withdraw and Rebalance the reads are commented out in the source.
Withdraw's only failure point is loading `ethers` (`ethersLoaded`).
`createVaultShare`'s `catch` is the input `fails`.

The Transfer handler's steps are the function `TransferMoving`, which takes
the amount its legs move on the balances as a parameter. `TransferAfter` is
the handler as written: it moves the raw amount truncated to whole shares
(`TransferredShares`). The lemmas of `TransferProofs` hold for any moved
amount, so they hold for the handler. `ShareUnits` uses the same steps to
show what the truncation does to a valid token history (see Findings).

## Model

| member | source | states |
|---|---|---|
| Ids.Decimal | src/EventHandlers.ts:31 | the rendering of a number in an id is a non-empty digit string with no leading zero |
| Ids.DecimalRoundTrip | src/EventHandlers.ts:31 | reading the rendered digits back gives the number |
| Ids.EventId | src/EventHandlers.ts:31 | an event id holds only digits and exactly two `_` |
| Ids.EventIdParts | src/EventHandlers.ts:366 | an event id is decimal(chainId) `_` decimal(block) `_` decimal(logIndex) |
| Ids.EventIdInjective | src/EventHandlers.ts:233 | distinct (chain, block, log index) triples never share a record id |
| Ids.ShareIdParts | src/helpers.ts:34 | a share id is the vault, then `-`, then the user |
| Ids.ShareIdInjective | src/helpers.ts:34 | when vault addresses contain no `-`, a share id determines its (vault, user) pair |
| Store.Get | src/helpers.ts:38-39 | a lookup finds a record exactly when the key is stored, and returns the stored record |
| Store.GetUser | src/helpers.ts:24 | a user lookup finds a record exactly when the id is stored |
| Store.Context.SetVault | src/EventHandlers.ts:58 | `set` stores the record under its own `id`, nothing else changes |
| Store.Context.SetShare | src/EventHandlers.ts:413 | `set` stores the share under its own `id`, nothing else changes |
| Store.Context.SetEvent | src/EventHandlers.ts:42 | `set` stores the event record under its own `id`, nothing else changes |
| Helpers.ExponentToBigDecimal | src/helpers.ts:15-21 | the loop returns 10^d for d ≥ 0 and 1 for d ≤ 0 (invariant `bd == 10^i`) |
| Helpers.BigIntDiv | src/helpers.ts:12 | `BigInt` division truncates toward zero: exact lower/upper bounds for either sign of the dividend |
| Helpers.TokenToDecimal | src/helpers.ts:8-13 | decimals 0 returns the amount unchanged; for d > 0 and a ≥ 0, r·10^d ≤ a < (r+1)·10^d (and the mirrored bound for a < 0) |
| Helpers.ConvertTokenToDecimal | src/helpers.ts:8-13 | the method computes `TokenToDecimal` through the loop |
| Helpers.SubUnitAmountIsZero | src/helpers.ts:12 | with 18 decimals every raw amount below 10^18 converts to 0 |
| Helpers.UserCreated | src/helpers.ts:23-31 | only the user table changes, by at most `address`; `address` is present afterwards iff it was before or the lookup returned `null` |
| Helpers.CreateUser | src/helpers.ts:23-31 | the in-place helper leaves the store as `UserCreated` says |
| Helpers.UserCreatedKeepsExisting | src/helpers.ts:25 | an existing user makes `createUser` a no-op |
| Helpers.UserCreatedIdempotent | src/helpers.ts:23-31 | calling `createUser` twice has the effect of calling it once |
| Helpers.VaultShareUpsertedCases | src/helpers.ts:33-92 | on failure it returns `null` and writes nothing; an existing share is returned and nothing is written; a missing share is created with balance 0, the vault and user ids, after the user and (only when no vault exists) the placeholder vault, with event records unchanged |
| Helpers.CreateVaultShare | src/helpers.ts:33-92 | the in-place helper returns the share and leaves the store as `VaultShareUpserted` says |
| Helpers.UpsertReturnsPairShare | src/helpers.ts:34-39 | on a well-keyed store the share returned is the one for this (vault, user) pair |
| Helpers.UpsertKeepsKeyed | src/helpers.ts:42-75 | get-or-create keeps every vault and share stored under its own id |
| Helpers.UpsertIdempotent | src/helpers.ts:33-92 | a second call with the same arguments returns the same share and leaves the store unchanged |
| EventHandlers.VaultCreatedAfter | src/EventHandlers.ts:29-59 | vault creation writes the full metadata with `holdersCount` 0 over whatever was stored, writes its event record, and leaves users and shares alone |
| EventHandlers.HandleVaultCreated | src/EventHandlers.ts:29-59 | the handler leaves the store as `VaultCreatedAfter` says |
| EventHandlers.HandleApproval | src/EventHandlers.ts:88-98 | the approval record copies the event's fields under the log's id, and it is the only write |
| EventHandlers.BuildDeposit | src/EventHandlers.ts:115-248 | each field holds the value read if that read returned, otherwise its zero default; on both the success and the failure path, before-event total plus amount equals total, with no clamping |
| EventHandlers.HandleDeposit | src/EventHandlers.ts:115-251 | the stored deposit record copies the log's id, vault, timestamp and params; tick, totals, supply and price are the values read if those reads returned, else zero; before-event total plus amount equals total; it is the only write |
| EventHandlers.BuildWithdraw | src/EventHandlers.ts:482-556 | tick, price, supply and totals stay 0; when `ethers` loads, before = total + amount, otherwise 0 |
| EventHandlers.HandleWithdraw | src/EventHandlers.ts:482-559 | the stored withdraw record copies the log's id, vault, timestamp and params; tick, price, supply and totals are zero; before-event totals are total plus amount when `ethers` loads, else zero; it is the only write |
| EventHandlers.RebalanceRecord | src/EventHandlers.ts:298-349 | the rebalance record stores the event's own tick and price 0, and copies the event's totals, fees and supply |
| EventHandlers.HandleRebalance | src/EventHandlers.ts:298-351 | the rebalance record is the only write |
| EventHandlers.SenderLeg | src/EventHandlers.ts:400-415 | a sender leg whose party is the zero address or the vault, or whose share lookup fails, changes nothing |
| EventHandlers.ReceiverLeg | src/EventHandlers.ts:417-432 | a receiver leg whose party is the zero address or the vault, or whose share lookup fails, changes nothing |
| EventHandlers.ApplySenderLeg | src/EventHandlers.ts:400-415 | the in-place leg returns the count and leaves the store as `SenderLeg` says |
| EventHandlers.ApplyReceiverLeg | src/EventHandlers.ts:417-432 | the in-place leg returns the count and leaves the store as `ReceiverLeg` says |
| EventHandlers.StoreHoldersCount | src/EventHandlers.ts:434-471 | the vault is written with the new count, then re-read and written again with the same count |
| EventHandlers.CreateUserUnlessZero | src/EventHandlers.ts:474-479 | `createUser` runs for a party unless it is the zero address |
| EventHandlers.HandleTransfer | src/EventHandlers.ts:364-480 | the Transfer handler leaves the store as `TransferAfter` says |
| LedgerProofs.SenderLegEffect | src/EventHandlers.ts:407-412 | the sender's balance drops by exactly the value; the count drops by one iff that balance went from non-zero to zero, and otherwise stays; a skipped leg changes nothing |
| LedgerProofs.ReceiverLegEffect | src/EventHandlers.ts:424-429 | the receiver's balance rises by exactly the value; the count rises by one iff that balance went from zero to non-zero, and otherwise stays; a skipped leg changes nothing |
| LedgerProofs.SenderLegFrame | src/EventHandlers.ts:402-413 | the sender's leg changes no share but the sender's own |
| LedgerProofs.ReceiverLegFrame | src/EventHandlers.ts:419-430 | the receiver's leg changes no share but the receiver's own |
| LedgerProofs.SenderLegBalance | src/EventHandlers.ts:408 | after the sender's leg, every user's balance equals the old one, minus the value for the sender when the leg applies |
| LedgerProofs.ReceiverLegBalance | src/EventHandlers.ts:425 | after the receiver's leg, every user's balance equals the old one, plus the value for the receiver when the leg applies |
| LedgerProofs.HoldersAfterPut | src/EventHandlers.ts:413 | writing one share moves the vault's number of non-zero shares by exactly that share's zero/non-zero flip |
| LedgerProofs.UpsertKeepsHolders | src/helpers.ts:68-74 | a created share holds zero, so get-or-create changes no vault's set of holders |
| LedgerProofs.SenderLegKeepsCount | src/EventHandlers.ts:398-413 | with non-negative balances and a sender who covers the value, the running count still equals the number of holders after the sender's leg |
| LedgerProofs.ReceiverLegKeepsCount | src/EventHandlers.ts:398-430 | with non-negative balances and value, the running count still equals the number of holders after the receiver's leg |
| LedgerProofs.SenderLegKeepsKeyed | src/EventHandlers.ts:402-413 | the sender's leg keeps every record stored under its own id |
| LedgerProofs.ReceiverLegKeepsKeyed | src/EventHandlers.ts:419-430 | the receiver's leg keeps every record stored under its own id |
| LedgerProofs.SenderLegKeepsOtherVaults | src/EventHandlers.ts:402-413 | the sender's leg leaves every other vault's holders alone |
| LedgerProofs.ReceiverLegKeepsOtherVaults | src/EventHandlers.ts:419-430 | the receiver's leg leaves every other vault's holders alone |
| LedgerProofs.SenderLegKeepsNonNegative | src/EventHandlers.ts:408 | a sender who covers the value leaves the vault's balances non-negative |
| LedgerProofs.ReceiverLegKeepsNonNegative | src/EventHandlers.ts:425 | adding a non-negative value keeps the vault's balances non-negative |
| EventHandlers.TransferredShares | src/EventHandlers.ts:380 | the amount the handler moves is the raw amount truncated to whole shares: value·10^18 ≤ raw < (value+1)·10^18 |
| TransferProofs.TransferWritesBack | src/EventHandlers.ts:383-471 | the legs start from the stored shares and vaults; the handler ends by storing the vault it read (or the placeholder) with the legs' count, and the re-read and second write change nothing further |
| TransferProofs.TransferBalance | src/EventHandlers.ts:380-432 | for any amount the legs move, a transfer changes each user's balance by exactly the amount received minus the amount sent, counting only legs that apply; every other balance is unchanged, and one leg applies even when the other is skipped |
| TransferProofs.TransferTouchesOnlyPartyShares | src/EventHandlers.ts:400-432 | no share other than the sender's and the receiver's in this vault is created or changed |
| TransferProofs.TransferKeepsKeyed | src/EventHandlers.ts:364-480 | a transfer keeps every vault and share stored under its own id |
| TransferProofs.TransferKeepsHoldersCount | src/EventHandlers.ts:398-447 | if balances are non-negative, the sender covers the value, and the stored `holdersCount` equals the vault's number of non-zero shares, the equality still holds after the transfer |
| TransferProofs.TransferKeepsNonNegative | src/EventHandlers.ts:407-430 | a transfer whose sender covers the value keeps the vault's balances non-negative |
| TransferProofs.TransferKeepsOtherVaults | src/EventHandlers.ts:364-480 | another vault's record, holders and count invariant are untouched by a transfer |
| TransferProofs.SelfTransferNeutral | src/EventHandlers.ts:400-432 | a transfer from a user to itself leaves that balance and the stored `holdersCount` unchanged, because the receiver's leg re-reads the share the sender's leg wrote |
| TransferProofs.SubUnitTransferKeepsBalances | src/EventHandlers.ts:380 | a transfer of less than 10^18 raw units changes no balance |
| TransferProofs.SubUnitTransferKeepsHoldersCount | src/EventHandlers.ts:380 | a transfer of less than 10^18 raw units leaves the stored `holdersCount` unchanged |
| TransferProofs.TransferKeepsVaultMetadata | src/EventHandlers.ts:383-458 | afterwards the vault exists and equals the stored vault (or the empty placeholder) with only `holdersCount` replaced |
| TransferProofs.CreatedMetadataSurvivesTransfer | src/EventHandlers.ts:45-58 | the metadata written at vault creation survives a later transfer, and only `holdersCount` changes |
| TransferProofs.TransferRecordsEventAndUsers | src/EventHandlers.ts:365-377 | a transfer writes its event record under the log's id and adds at most the two parties as users, both present afterwards when lookups return `null` |
| ShareUnits.LedgerAfter | src/EventHandlers.ts:364-480 | the token's ledger after a transfer: the sender loses the raw amount unless minting, the receiver gains it unless burning, nobody else changes |
| ShareUnits.OverdraftMiscounts | src/EventHandlers.ts:398-432 | a transfer of at least one share between two tracked parties holding nothing drives the sender negative, raises the stored count by one, and leaves two non-zero shares |
| ShareUnits.SubUnitStepMovesNothing | src/EventHandlers.ts:380 | as written, a transfer below one share keeps the store keyed and changes no balance and no stored count |
| ShareUnits.SubUnitThenOverdraft | src/EventHandlers.ts:380-447 | two sub-share transfers followed by a whole-share transfer from an empty party, in a vault with count zero, leave the sender negative and the count wrong |
| ShareUnits.TruncatedHistoryBreaksHoldersCount | src/EventHandlers.ts:380-447 | the valid history "mint 0.6, mint 0.6, send 1.2" from an empty store leaves the sender at −1 and the stored count unequal to the number of holders |
| ShareUnits.ExactTransferKeepsHoldersCount | src/EventHandlers.ts:398-447 | with balances in base units, a transfer the token allows keeps the store keyed, its balances non-negative and its count exact |
| ShareUnits.ExactTransferMirrorsLedger | src/EventHandlers.ts:400-432 | with balances in base units, the store's balances move exactly as the token's ledger |
| ShareUnits.ExactReplayKeepsHoldersCount | src/EventHandlers.ts:364-480 | with balances in base units, every valid token history of a vault keeps the stored count equal to its number of holders and the balances equal to the token's |
| ShareUnits.ExactReplayOfTruncatedHistory | src/EventHandlers.ts:380-447 | the history that breaks the handler as written keeps the count exact in base units |

## Left out

- Network reads: the `viem` calls of Deposit and the (commented-out) `ethers` calls of Withdraw and Rebalance are not modelled. Their results and their failure point are inputs.
- `contractRegister` / `addICHIVault`: they change what the framework watches, not the store.
- Logging (`console.*`, `context.log.*`), including the "became active/inactive" branch of Transfer, which only logs.
- The other handlers that only copy fields (Affiliate, DeployICHIVault, DepositMax, Hysteresis, MaxTotalSupply, both OwnershipTransferred, SetTwapPeriod): each copies its own event parameters (and `vault: srcAddress` for the vault events) into a record under the same key. Approval is modelled as the representative.
- The ABI literals and `src/abis/vaultAbi.ts`: constant data.
- `async`/`await`: handlers run one at a time, so each awaited `get`/`set` is an ordinary read or write.
- One event-record table per event type: the model keeps a single map of event records keyed by id. Distinct logs have distinct ids, so no record is lost.
- The JavaScript number type of `holdersCount`: the model uses unbounded integers, with no floating-point limit.
- Helpers.VaultShareUpserted: a store exception is modelled only before any write (`fails`); an exception after the user or placeholder vault was written would keep those writes, which the model does not capture.
- Ids.ShareIdInjective: holds only for vault addresses without `-`; the model assumes that of every vault address (`SeparatorFree`), as hexadecimal addresses are.
- TransferProofs.TransferKeepsHoldersCount: proved only for transfers whose sender's tracked balance covers the moved amount, in vaults whose balances are non-negative. The handler checks neither. Because each transfer is truncated to whole shares on its own (src/EventHandlers.ts:380), ordinary valid token histories break the cover condition: a sender's tracked balance turns negative and the count misses a holder (see Findings).
- Reorganisations: the code has no rollback handling, and neither does the model.
- Clamping of negative before-amounts: the code has none (src/EventHandlers.ts:219-228), so a deposit larger than the reported total records a negative before-amount.
- A per-chain RPC table: the code always reads through the `mainnet` chain definition (src/EventHandlers.ts:128-133).

## Findings

| source | as written | input that shows it | evidently intended | confidence | as-written member | corrected member |
|---|---|---|---|---|---|---|
| src/EventHandlers.ts:380 | each transfer's raw amount is truncated to whole shares before it is added to or subtracted from the stored balances | mint 0.6·10^18 to A twice, then A sends 1.2·10^18 to B: A's stored balance is −1, B's is 1, the stored `holdersCount` is 1 while two shares are non-zero | balances track the token exactly (base units, or an exact decimal division), so they mirror the token's ledger and the count matches the holders along every valid history | high, from the proof; not executed | ShareUnits.TruncatedHistoryBreaksHoldersCount | ShareUnits.ExactReplayKeepsHoldersCount |
