/**
 * The event handlers: each builds the record for one log, keyed by the
 * log's event id, and writes it; vault creation also writes the vault, and
 * `Transfer` also moves share balances and keeps each vault's holder count.
 *
 * The contract reads of Deposit, Rebalance and Withdraw are network calls;
 * here their outcomes are inputs.
 */
module EventHandlers {
  import opened Store
  import opened Ids
  import opened Helpers

  /** The part of a delivered log every handler uses. */
  datatype Log = Log(chainId: nat, blockNumber: nat, blockTimestamp: nat, logIndex: nat, srcAddress: string)

  function LogId(log: Log): string {
    EventId(log.chainId, log.blockNumber, log.logIndex)
  }

  // ---------------------------------------------------------------------
  // ICHIVaultFactory.ICHIVaultCreated
  // ---------------------------------------------------------------------

  datatype VaultCreatedParams = VaultCreatedParams(
    sender: string, ichiVault: string,
    tokenA: string, allowTokenA: bool, tokenB: string, allowTokenB: bool,
    fee: nat, count: nat)

  /** The vault written on creation: full metadata, no holders yet. */
  function CreatedVault(log: Log, p: VaultCreatedParams): Vault {
    Vault(p.ichiVault, p.sender, p.tokenA, p.allowTokenA, p.tokenB, p.allowTokenB,
          p.count, p.fee, log.blockTimestamp, 0)
  }

  /** The store after the creation handler: its event record, then the vault, written over whatever was there. */
  function VaultCreatedAfter(db: Db, log: Log, p: VaultCreatedParams): (r: Db)
    ensures r.vaults == db.vaults[p.ichiVault := CreatedVault(log, p)]
    ensures r.users == db.users && r.shares == db.shares
    ensures LogId(log) in r.events && r.events[LogId(log)].FactoryVaultCreated?
  {
    var entity := FactoryVaultCreated(LogId(log), p.sender, p.ichiVault, p.tokenA, p.allowTokenA,
                                      p.tokenB, p.allowTokenB, p.fee, p.count);
    PutVault(PutEvent(db, entity), CreatedVault(log, p))
  }

  method HandleVaultCreated(ctx: Context, log: Log, p: VaultCreatedParams)
    modifies ctx
    ensures ctx.Snapshot() == VaultCreatedAfter(old(ctx.Snapshot()), log, p)
  {
    var entity := FactoryVaultCreated(LogId(log), p.sender, p.ichiVault, p.tokenA, p.allowTokenA,
                                      p.tokenB, p.allowTokenB, p.fee, p.count);
    ctx.SetEvent(entity);
    var ichiVault := Vault(p.ichiVault, p.sender, p.tokenA, p.allowTokenA, p.tokenB, p.allowTokenB,
                           p.count, p.fee, log.blockTimestamp, 0);
    ctx.SetVault(ichiVault);
  }

  // ---------------------------------------------------------------------
  // ICHIVault.Approval (one of the handlers that only copy fields)
  // ---------------------------------------------------------------------

  method HandleApproval(ctx: Context, log: Log, owner: string, spender: string, value: nat)
    returns (entity: EventRecord)
    modifies ctx
    ensures entity == VaultApproval(LogId(log), log.srcAddress, owner, spender, value)
    ensures ctx.Snapshot() == PutEvent(old(ctx.Snapshot()), entity)
  {
    entity := VaultApproval(LogId(log), log.srcAddress, owner, spender, value);
    ctx.SetEvent(entity);
  }

  // ---------------------------------------------------------------------
  // ICHIVault.Deposit and ICHIVault.Withdraw
  // ---------------------------------------------------------------------

  datatype AmountParams = AmountParams(sender: string, to: string, shares: nat, amount0: nat, amount1: nat)

  /** What the vault and its pool would report: `currentTick`, `getTotalAmounts`, `totalSupply`, `slot0`. */
  datatype VaultReads = VaultReads(tick: int, total0: nat, total1: nat, totalSupply: nat, sqrtPriceX96: nat)

  /**
   * The Deposit handler's record. The five contract reads (`currentTick`,
   * `getTotalAmounts`, `totalSupply`, `pool`, `slot0`) run in order and the
   * first failure jumps to the catch block; `readsCompleted` is how many
   * returned (five or more: all of them). Whatever was read by then stays
   * in the record, the rest keeps its zero default, and the before-event
   * totals are the totals minus the deposited amounts on both paths, with
   * no clamping.
   */
  method BuildDeposit(log: Log, p: AmountParams, fetched: VaultReads, readsCompleted: nat)
    returns (entity: EventRecord)
    ensures entity.VaultDeposit?
    ensures entity.id == LogId(log) && entity.vault == log.srcAddress
    ensures entity.sender == p.sender && entity.to == p.to && entity.shares == p.shares
    ensures entity.amount0 == p.amount0 && entity.amount1 == p.amount1
    ensures entity.createdAtTimestamp == log.blockTimestamp
    ensures entity.tick == (if readsCompleted >= 1 then fetched.tick else 0)
    ensures entity.totalAmount0 == (if readsCompleted >= 2 then fetched.total0 else 0)
    ensures entity.totalAmount1 == (if readsCompleted >= 2 then fetched.total1 else 0)
    ensures entity.totalSupply == (if readsCompleted >= 3 then fetched.totalSupply else 0)
    ensures entity.sqrtPrice == (if readsCompleted >= 5 then fetched.sqrtPriceX96 else 0)
    ensures entity.totalAmount0BeforeEvent + p.amount0 == entity.totalAmount0
    ensures entity.totalAmount1BeforeEvent + p.amount1 == entity.totalAmount1
  {
    var tick := 0;
    var sqrtPrice := 0;
    var totalAmount0 := 0;
    var totalAmount1 := 0;
    var totalAmount0BeforeEvent := 0;
    var totalAmount1BeforeEvent := 0;
    var totalSupply := 0;

    if readsCompleted >= 1 {
      tick := fetched.tick;
    }
    if readsCompleted >= 2 {
      totalAmount0 := fetched.total0;
      totalAmount1 := fetched.total1;
    }
    if readsCompleted >= 3 {
      totalSupply := fetched.totalSupply;
    }
    if readsCompleted >= 5 {
      sqrtPrice := fetched.sqrtPriceX96;
      totalAmount0BeforeEvent := totalAmount0 - p.amount0;
      totalAmount1BeforeEvent := totalAmount1 - p.amount1;
    } else {
      totalAmount0BeforeEvent := totalAmount0 - p.amount0;
      totalAmount1BeforeEvent := totalAmount1 - p.amount1;
    }

    entity := VaultDeposit(LogId(log), log.srcAddress, p.sender, p.to, p.shares,
                           p.amount0, p.amount1, tick, log.blockTimestamp, sqrtPrice,
                           totalAmount0, totalAmount1,
                           totalAmount0BeforeEvent, totalAmount1BeforeEvent, totalSupply);
  }

  method HandleDeposit(ctx: Context, log: Log, p: AmountParams, fetched: VaultReads, readsCompleted: nat)
    returns (entity: EventRecord)
    modifies ctx
    ensures entity.VaultDeposit?
    ensures entity.id == LogId(log) && entity.vault == log.srcAddress
    ensures entity.sender == p.sender && entity.to == p.to && entity.shares == p.shares
    ensures entity.amount0 == p.amount0 && entity.amount1 == p.amount1
    ensures entity.createdAtTimestamp == log.blockTimestamp
    ensures entity.tick == (if readsCompleted >= 1 then fetched.tick else 0)
    ensures entity.totalAmount0 == (if readsCompleted >= 2 then fetched.total0 else 0)
    ensures entity.totalAmount1 == (if readsCompleted >= 2 then fetched.total1 else 0)
    ensures entity.totalSupply == (if readsCompleted >= 3 then fetched.totalSupply else 0)
    ensures entity.sqrtPrice == (if readsCompleted >= 5 then fetched.sqrtPriceX96 else 0)
    ensures entity.totalAmount0BeforeEvent + p.amount0 == entity.totalAmount0
    ensures entity.totalAmount1BeforeEvent + p.amount1 == entity.totalAmount1
    ensures ctx.Snapshot() == PutEvent(old(ctx.Snapshot()), entity)
  {
    entity := BuildDeposit(log, p, fetched, readsCompleted);
    ctx.SetEvent(entity);
  }

  /**
   * The Withdraw handler's record. Its contract reads are all commented
   * out, so the totals, tick, price and supply keep their zero defaults;
   * the only step that can fail is loading the `ethers` module
   * (`ethersLoaded`), and only on success are the before-event totals set,
   * to the totals plus the withdrawn amounts.
   */
  method BuildWithdraw(log: Log, p: AmountParams, ethersLoaded: bool)
    returns (entity: EventRecord)
    ensures entity.VaultWithdraw?
    ensures entity.id == LogId(log) && entity.vault == log.srcAddress
    ensures entity.sender == p.sender && entity.to == p.to && entity.shares == p.shares
    ensures entity.amount0 == p.amount0 && entity.amount1 == p.amount1
    ensures entity.createdAtTimestamp == log.blockTimestamp
    ensures entity.tick == 0 && entity.sqrtPrice == 0 && entity.totalSupply == 0
    ensures entity.totalAmount0 == 0 && entity.totalAmount1 == 0
    ensures ethersLoaded ==> entity.totalAmount0BeforeEvent - p.amount0 == entity.totalAmount0
    ensures ethersLoaded ==> entity.totalAmount1BeforeEvent - p.amount1 == entity.totalAmount1
    ensures !ethersLoaded ==> entity.totalAmount0BeforeEvent == 0 && entity.totalAmount1BeforeEvent == 0
  {
    var tick := 0;
    var sqrtPrice := 0;
    var totalAmount0 := 0;
    var totalAmount1 := 0;
    var totalAmount0BeforeEvent := 0;
    var totalAmount1BeforeEvent := 0;
    var totalSupply := 0;

    if ethersLoaded {
      totalAmount0BeforeEvent := totalAmount0 + p.amount0;
      totalAmount1BeforeEvent := totalAmount1 + p.amount1;
    }

    entity := VaultWithdraw(LogId(log), log.srcAddress, p.sender, p.to, p.shares,
                            p.amount0, p.amount1, tick, log.blockTimestamp, sqrtPrice,
                            totalAmount0, totalAmount1,
                            totalAmount0BeforeEvent, totalAmount1BeforeEvent, totalSupply);
  }

  method HandleWithdraw(ctx: Context, log: Log, p: AmountParams, ethersLoaded: bool)
    returns (entity: EventRecord)
    modifies ctx
    ensures entity.VaultWithdraw?
    ensures entity.id == LogId(log) && entity.vault == log.srcAddress
    ensures entity.sender == p.sender && entity.to == p.to && entity.shares == p.shares
    ensures entity.amount0 == p.amount0 && entity.amount1 == p.amount1
    ensures entity.createdAtTimestamp == log.blockTimestamp
    ensures entity.tick == 0 && entity.sqrtPrice == 0 && entity.totalSupply == 0
    ensures entity.totalAmount0 == 0 && entity.totalAmount1 == 0
    ensures ethersLoaded ==> entity.totalAmount0BeforeEvent - p.amount0 == entity.totalAmount0
    ensures ethersLoaded ==> entity.totalAmount1BeforeEvent - p.amount1 == entity.totalAmount1
    ensures !ethersLoaded ==> entity.totalAmount0BeforeEvent == 0 && entity.totalAmount1BeforeEvent == 0
    ensures ctx.Snapshot() == PutEvent(old(ctx.Snapshot()), entity)
  {
    entity := BuildWithdraw(log, p, ethersLoaded);
    ctx.SetEvent(entity);
  }

  // ---------------------------------------------------------------------
  // ICHIVault.Rebalance
  // ---------------------------------------------------------------------

  datatype RebalanceParams = RebalanceParams(
    tick: int, totalAmount0: nat, totalAmount1: nat,
    feeAmount0: nat, feeAmount1: nat, totalSupply: nat)

  /**
   * The Rebalance record. Its contract reads are commented out, so the
   * tick is the event's own and the price stays zero whether or not the
   * surrounding `try` fails.
   */
  function RebalanceRecord(log: Log, p: RebalanceParams): (entity: EventRecord)
    ensures entity.VaultRebalance? && entity.id == LogId(log) && entity.vault == log.srcAddress
    ensures entity.tick == p.tick && entity.sqrtPrice == 0
    ensures entity.totalAmount0 == p.totalAmount0 && entity.totalAmount1 == p.totalAmount1
    ensures entity.feeAmount0 == p.feeAmount0 && entity.feeAmount1 == p.feeAmount1
    ensures entity.totalSupply == p.totalSupply
  {
    VaultRebalance(LogId(log), log.srcAddress, p.tick, log.blockTimestamp, 0,
                   p.totalAmount0, p.totalAmount1, p.feeAmount0, p.feeAmount1, p.totalSupply)
  }

  method HandleRebalance(ctx: Context, log: Log, p: RebalanceParams)
    modifies ctx
    ensures ctx.Snapshot() == PutEvent(old(ctx.Snapshot()), RebalanceRecord(log, p))
  {
    var currentTick := p.tick;
    var sqrtPrice := 0;
    var entity := VaultRebalance(LogId(log), log.srcAddress, currentTick, log.blockTimestamp, sqrtPrice,
                                 p.totalAmount0, p.totalAmount1, p.feeAmount0, p.feeAmount1, p.totalSupply);
    ctx.SetEvent(entity);
  }

  // ---------------------------------------------------------------------
  // ICHIVault.Transfer
  // ---------------------------------------------------------------------

  /** A transfer party whose share is touched: neither the zero address nor the vault itself. */
  predicate Qualifies(party: string, vault: string) {
    party != ADDRESS_ZERO && party != vault
  }

  /** The vault the handler read, or the placeholder it builds in memory when there is none. */
  function VaultOrPlaceholder(db: Db, absent: Absent, vault: string): Vault {
    match Get(db.vaults, vault, absent)
    case Found(r) => r
    case _ => PlaceholderVault(vault)
  }

  /** The store and the running holder count after one leg of a transfer. */
  datatype Leg = Leg(db: Db, holdersCount: int)

  /**
   * The sender's leg: fetch or create the share, subtract the value, write
   * the share back, and drop the count by one when the balance went from
   * non-zero to zero.
   */
  function SenderLeg(db: Db, absent: Absent, vault: string, from: string, value: int, fails: bool, count: int): (r: Leg)
    ensures !Qualifies(from, vault) || fails ==> r == Leg(db, count)
  {
    if !Qualifies(from, vault) then Leg(db, count)
    else
      var got := VaultShareUpserted(db, absent, vault, from, fails);
      match got.share
      case None => Leg(got.db, count)
      case Some(share) =>
        var wasHolder := share.vaultShareBalance != ZERO_BD;
        var updated := share.(vaultShareBalance := share.vaultShareBalance - value);
        var isHolder := updated.vaultShareBalance != ZERO_BD;
        Leg(PutShare(got.db, updated), if wasHolder && !isHolder then count - 1 else count)
  }

  /**
   * The receiver's leg: fetch or create the share, add the value, write the
   * share back, and raise the count by one when the balance went from zero
   * to non-zero.
   */
  function ReceiverLeg(db: Db, absent: Absent, vault: string, to: string, value: int, fails: bool, count: int): (r: Leg)
    ensures !Qualifies(to, vault) || fails ==> r == Leg(db, count)
  {
    if !Qualifies(to, vault) then Leg(db, count)
    else
      var got := VaultShareUpserted(db, absent, vault, to, fails);
      match got.share
      case None => Leg(got.db, count)
      case Some(share) =>
        var wasHolder := share.vaultShareBalance != ZERO_BD;
        var updated := share.(vaultShareBalance := share.vaultShareBalance + value);
        var isHolder := updated.vaultShareBalance != ZERO_BD;
        Leg(PutShare(got.db, updated), if !wasHolder && isHolder then count + 1 else count)
  }

  /** The second read-modify-write of the vault: re-read it and store it again with the count. */
  function RestateHoldersCount(db: Db, absent: Absent, vault: string, count: int): Db {
    match Get(db.vaults, vault, absent)
    case Found(stats) => PutVault(db, stats.(holdersCount := count))
    case _ => db
  }

  function UserCreatedUnlessZero(db: Db, absent: Absent, address: string): Db {
    if address != ADDRESS_ZERO then UserCreated(db, absent, address) else db
  }

  /** What the legs of a transfer compute before the vault is written back. */
  datatype TransferLegs = TransferLegs(
    start: Db,       // the store after the event record and the two users are written
    vault: Vault,    // the vault as read (or the in-memory placeholder)
    afterFrom: Leg,
    afterTo: Leg)

  /** The legs of a transfer of `rawValue` base units whose legs move `value` on the balances. */
  function TransferLegsOf(db: Db, absent: Absent, log: Log, from: string, to: string, rawValue: nat, value: nat,
                          fromFails: bool, toFails: bool): TransferLegs
  {
    var entity := VaultTransfer(LogId(log), log.srcAddress, from, to, rawValue);
    var start := UserCreated(UserCreated(PutEvent(db, entity), absent, from), absent, to);
    var vault := VaultOrPlaceholder(start, absent, log.srcAddress);
    var afterFrom := SenderLeg(start, absent, log.srcAddress, from, value, fromFails, vault.holdersCount);
    var afterTo := ReceiverLeg(afterFrom.db, absent, log.srcAddress, to, value, toFails, afterFrom.holdersCount);
    TransferLegs(start, vault, afterFrom, afterTo)
  }

  /**
   * The handler's closing writes: the vault with the new count, the
   * re-read-and-write of the same count, and the two users once more.
   */
  function TransferFinished(db: Db, absent: Absent, vaultId: string, vault: Vault, count: int,
                            from: string, to: string): Db
  {
    var written := PutVault(db, vault.(holdersCount := count));
    var restated := RestateHoldersCount(written, absent, vaultId, count);
    UserCreatedUnlessZero(UserCreatedUnlessZero(restated, absent, from), absent, to)
  }

  /**
   * The store after the Transfer handler's steps, for a transfer of
   * `rawValue` base units whose legs move `value` on the balances.
   */
  function TransferMoving(db: Db, absent: Absent, log: Log, from: string, to: string, rawValue: nat, value: nat,
                          fromFails: bool, toFails: bool): Db
  {
    var legs := TransferLegsOf(db, absent, log, from, to, rawValue, value, fromFails, toFails);
    TransferFinished(legs.afterTo.db, absent, log.srcAddress, legs.vault, legs.afterTo.holdersCount, from, to)
  }

  /** The amount the handler moves: the raw amount truncated to whole shares. */
  function TransferredShares(rawValue: nat): (value: nat)
    ensures value * Pow10(BI_18) <= rawValue < (value + 1) * Pow10(BI_18)
  {
    TokenToDecimal(rawValue, BI_18)
  }

  /** The store after the Transfer handler. */
  function TransferAfter(db: Db, absent: Absent, log: Log, from: string, to: string, rawValue: nat,
                         fromFails: bool, toFails: bool): Db
  {
    TransferMoving(db, absent, log, from, to, rawValue, TransferredShares(rawValue), fromFails, toFails)
  }

  /** The sender's leg of the Transfer handler, on the store in place. */
  method ApplySenderLeg(ctx: Context, vault: string, from: string, value: int, fails: bool, count: int)
    returns (holdersCount: int)
    modifies ctx
    ensures Leg(ctx.Snapshot(), holdersCount) == SenderLeg(old(ctx.Snapshot()), ctx.absent, vault, from, value, fails, count)
  {
    holdersCount := count;
    if from != ADDRESS_ZERO && from != vault {
      var fromUserVaultShare := CreateVaultShare(ctx, vault, from, fails);
      if fromUserVaultShare.Some? {
        var share := fromUserVaultShare.value;
        var wasHolder := share.vaultShareBalance != ZERO_BD;
        share := share.(vaultShareBalance := share.vaultShareBalance - value);
        var isHolder := share.vaultShareBalance != ZERO_BD;
        if wasHolder && !isHolder {
          holdersCount := holdersCount - 1;
        }
        ctx.SetShare(share);
      }
    }
  }

  /** The receiver's leg of the Transfer handler, on the store in place. */
  method ApplyReceiverLeg(ctx: Context, vault: string, to: string, value: int, fails: bool, count: int)
    returns (holdersCount: int)
    modifies ctx
    ensures Leg(ctx.Snapshot(), holdersCount) == ReceiverLeg(old(ctx.Snapshot()), ctx.absent, vault, to, value, fails, count)
  {
    holdersCount := count;
    if to != ADDRESS_ZERO && to != vault {
      var toUserVaultShare := CreateVaultShare(ctx, vault, to, fails);
      if toUserVaultShare.Some? {
        var share := toUserVaultShare.value;
        var wasHolder := share.vaultShareBalance != ZERO_BD;
        share := share.(vaultShareBalance := share.vaultShareBalance + value);
        var isHolder := share.vaultShareBalance != ZERO_BD;
        if !wasHolder && isHolder {
          holdersCount := holdersCount + 1;
        }
        ctx.SetShare(share);
      }
    }
  }

  /** Writes the vault back with the new count, then re-reads it and writes it once more. */
  method StoreHoldersCount(ctx: Context, vault: Vault, vaultId: string, holdersCount: int)
    modifies ctx
    ensures ctx.Snapshot() ==
      RestateHoldersCount(PutVault(old(ctx.Snapshot()), vault.(holdersCount := holdersCount)), ctx.absent, vaultId, holdersCount)
  {
    var updatedVault := vault.(holdersCount := holdersCount);
    ctx.SetVault(updatedVault);

    var vaultForStats := ctx.GetVault(vaultId);
    if !vaultForStats.IsFalsy() {
      var updatedVaultStats := vaultForStats.value.(holdersCount := holdersCount);
      ctx.SetVault(updatedVaultStats);
    }
  }

  method CreateUserUnlessZero(ctx: Context, address: string)
    modifies ctx
    ensures ctx.Snapshot() == UserCreatedUnlessZero(old(ctx.Snapshot()), ctx.absent, address)
  {
    if address != ADDRESS_ZERO {
      CreateUser(ctx, address);
    }
  }

  /**
   * The Transfer handler. `fromFails` and `toFails` stand for a store
   * exception inside `createVaultShare` for that leg, which makes it return
   * `null` so that the leg is skipped.
   */
  method HandleTransfer(ctx: Context, log: Log, from: string, to: string, rawValue: nat,
                        fromFails: bool, toFails: bool)
    modifies ctx
    ensures ctx.Snapshot() == TransferAfter(old(ctx.Snapshot()), ctx.absent, log, from, to, rawValue, fromFails, toFails)
  {
    ghost var legs := TransferLegsOf(ctx.Snapshot(), ctx.absent, log, from, to, rawValue, TransferredShares(rawValue), fromFails, toFails);

    var entity := VaultTransfer(LogId(log), log.srcAddress, from, to, rawValue);
    ctx.SetEvent(entity);
    CreateUser(ctx, from);
    CreateUser(ctx, to);

    var ichiVaultId := log.srcAddress;
    var value := ConvertTokenToDecimal(rawValue, BI_18);
    var found := ctx.GetVault(ichiVaultId);
    var vault := if found.IsFalsy() then PlaceholderVault(ichiVaultId) else found.value;

    var holdersCount := vault.holdersCount;
    holdersCount := ApplySenderLeg(ctx, ichiVaultId, from, value, fromFails, holdersCount);
    holdersCount := ApplyReceiverLeg(ctx, ichiVaultId, to, value, toFails, holdersCount);
    assert ctx.Snapshot() == legs.afterTo.db && holdersCount == legs.afterTo.holdersCount;

    StoreHoldersCount(ctx, vault, log.srcAddress, holdersCount);
    CreateUserUnlessZero(ctx, from);
    CreateUserUnlessZero(ctx, to);
  }
}
