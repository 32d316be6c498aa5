/**
 * The Transfer handler as a whole: what its steps (`TransferMoving`) do to
 * the vault's stored holder count, to balances and to the vault's metadata,
 * for any amount the legs move. The handler as written, `TransferAfter`,
 * moves the raw amount truncated to whole shares.
 */
module TransferProofs {
  import opened Store
  import opened Ids
  import opened Helpers
  import opened EventHandlers
  import opened LedgerProofs

  /** A leg adds at most the placeholder of its own vault to the vault table. */
  lemma SenderLegVaults(db: Db, absent: Absent, vault: string, from: string, value: int, fails: bool, count: int)
    ensures var r := SenderLeg(db, absent, vault, from, value, fails, count);
      r.db.vaults == db.vaults || r.db.vaults == db.vaults[vault := PlaceholderVault(vault)]
  {
  }

  lemma ReceiverLegVaults(db: Db, absent: Absent, vault: string, to: string, value: int, fails: bool, count: int)
    ensures var r := ReceiverLeg(db, absent, vault, to, value, fails, count);
      r.db.vaults == db.vaults || r.db.vaults == db.vaults[vault := PlaceholderVault(vault)]
  {
  }

  /** The legs start from the input's shares and vaults, and from the vault the store holds or the placeholder. */
  lemma TransferLegsStart(db: Db, absent: Absent, log: Log, from: string, to: string, rawValue: nat, value: nat,
                          fromFails: bool, toFails: bool)
    ensures var legs := TransferLegsOf(db, absent, log, from, to, rawValue, value, fromFails, toFails);
      && legs.start.shares == db.shares && legs.start.vaults == db.vaults
      && legs.vault == VaultOrPlaceholder(db, absent, log.srcAddress)
  {
  }

  /**
   * The closing writes store the vault under its address with the count
   * the legs computed; the re-read and second write change nothing further,
   * and the shares are left alone.
   */
  lemma TransferFinishedStores(db: Db, absent: Absent, vaultId: string, vault: Vault, count: int,
                               from: string, to: string)
    requires vault.id == vaultId
    ensures var t := TransferFinished(db, absent, vaultId, vault, count, from, to);
      t.shares == db.shares && t.vaults == db.vaults[vaultId := vault.(holdersCount := count)]
  {
    var written := PutVault(db, vault.(holdersCount := count));
    assert RestateHoldersCount(written, absent, vaultId, count) == written;
  }

  /** The legs start from the input's shares and the handler's closing writes leave the shares alone. */
  lemma TransferShares(db: Db, absent: Absent, log: Log, from: string, to: string, rawValue: nat, value: nat,
                       fromFails: bool, toFails: bool)
    ensures var legs := TransferLegsOf(db, absent, log, from, to, rawValue, value, fromFails, toFails);
      var t := TransferMoving(db, absent, log, from, to, rawValue, value, fromFails, toFails);
      legs.start.shares == db.shares && t.shares == legs.afterTo.db.shares
  {
    var legs := TransferLegsOf(db, absent, log, from, to, rawValue, value, fromFails, toFails);
    TransferLegsStart(db, absent, log, from, to, rawValue, value, fromFails, toFails);
    TransferFinishedShares(legs.afterTo.db, absent, log.srcAddress, legs.vault, legs.afterTo.holdersCount, from, to);
  }

  lemma TransferFinishedShares(db: Db, absent: Absent, vaultId: string, vault: Vault, count: int,
                               from: string, to: string)
    ensures TransferFinished(db, absent, vaultId, vault, count, from, to).shares == db.shares
  {
  }

  /**
   * A transfer changes a user's balance in the vault by exactly the value
   * the user received minus the value the user sent, counting only the legs
   * that apply; every other user's balance stays as it was.
   */
  lemma TransferBalance(db: Db, absent: Absent, log: Log, from: string, to: string, rawValue: nat, value: nat,
                        fromFails: bool, toFails: bool, user: string)
    requires VaultsKeyed(db) && SharesKeyed(db) && SeparatorFree(log.srcAddress)
    ensures var t := TransferMoving(db, absent, log, from, to, rawValue, value, fromFails, toFails);
      var v := log.srcAddress;
      Balance(t, v, user) == Balance(db, v, user)
        - (if user == from && Qualifies(from, v) && !fromFails then value else 0)
        + (if user == to && Qualifies(to, v) && !toFails then value else 0)
  {
    var v := log.srcAddress;
    var legs := TransferLegsOf(db, absent, log, from, to, rawValue, value, fromFails, toFails);
    TransferShares(db, absent, log, from, to, rawValue, value, fromFails, toFails);
    SenderLegBalance(legs.start, absent, v, from, value, fromFails, legs.vault.holdersCount, user);
    SenderLegKeepsKeyed(legs.start, absent, v, from, value, fromFails, legs.vault.holdersCount);
    ReceiverLegBalance(legs.afterFrom.db, absent, v, to, value, toFails, legs.afterFrom.holdersCount, user);
  }

  /** How the handler's pieces fit, for a store whose vaults are keyed by their ids. */
  lemma TransferWritesBack(db: Db, absent: Absent, log: Log, from: string, to: string, rawValue: nat, value: nat,
                           fromFails: bool, toFails: bool)
    requires VaultsKeyed(db)
    ensures var legs := TransferLegsOf(db, absent, log, from, to, rawValue, value, fromFails, toFails);
      var t := TransferMoving(db, absent, log, from, to, rawValue, value, fromFails, toFails);
      && legs.start.shares == db.shares && legs.start.vaults == db.vaults
      && legs.vault == VaultOrPlaceholder(db, absent, log.srcAddress)
      && t.shares == legs.afterTo.db.shares
      && t.vaults == legs.afterTo.db.vaults[log.srcAddress := legs.vault.(holdersCount := legs.afterTo.holdersCount)]
  {
    var legs := TransferLegsOf(db, absent, log, from, to, rawValue, value, fromFails, toFails);
    TransferLegsStart(db, absent, log, from, to, rawValue, value, fromFails, toFails);
    TransferFinishedStores(legs.afterTo.db, absent, log.srcAddress, legs.vault, legs.afterTo.holdersCount, from, to);
  }

  /** The Transfer handler keeps every vault and every share stored under its own key. */
  lemma TransferKeepsKeyed(db: Db, absent: Absent, log: Log, from: string, to: string, rawValue: nat, value: nat,
                           fromFails: bool, toFails: bool)
    requires VaultsKeyed(db) && SharesKeyed(db) && SeparatorFree(log.srcAddress)
    ensures var t := TransferMoving(db, absent, log, from, to, rawValue, value, fromFails, toFails);
      VaultsKeyed(t) && SharesKeyed(t)
  {
    var v := log.srcAddress;
    var legs := TransferLegsOf(db, absent, log, from, to, rawValue, value, fromFails, toFails);
    TransferWritesBack(db, absent, log, from, to, rawValue, value, fromFails, toFails);
    SenderLegKeepsKeyed(legs.start, absent, v, from, value, fromFails, legs.vault.holdersCount);
    ReceiverLegKeepsKeyed(legs.afterFrom.db, absent, v, to, value, toFails, legs.afterFrom.holdersCount);
  }

  /**
   * The Transfer handler keeps the vault's stored holder count equal to the
   * number of its shares with a non-zero balance, provided balances are
   * non-negative and a sender holding shares covers the value it sends.
   */
  lemma TransferKeepsHoldersCount(db: Db, absent: Absent, log: Log, from: string, to: string, rawValue: nat, value: nat,
                                  fromFails: bool, toFails: bool)
    requires VaultsKeyed(db) && SharesKeyed(db) && SeparatorFree(log.srcAddress)
    requires NonNegativeBalances(db, log.srcAddress) && CountsHolders(db, log.srcAddress)
    requires Qualifies(from, log.srcAddress) && !fromFails ==>
      Balance(db, log.srcAddress, from) >= value
    ensures var t := TransferMoving(db, absent, log, from, to, rawValue, value, fromFails, toFails);
      CountsHolders(t, log.srcAddress)
  {
    var v := log.srcAddress;
    var legs := TransferLegsOf(db, absent, log, from, to, rawValue, value, fromFails, toFails);
    TransferWritesBack(db, absent, log, from, to, rawValue, value, fromFails, toFails);
    assert legs.vault.holdersCount == HoldersCount(db, v);
    SenderLegKeepsKeyed(legs.start, absent, v, from, value, fromFails, legs.vault.holdersCount);
    SenderLegKeepsNonNegative(legs.start, absent, v, from, value, fromFails, legs.vault.holdersCount);
    SenderLegKeepsCount(legs.start, absent, v, from, value, fromFails, legs.vault.holdersCount);
    ReceiverLegKeepsCount(legs.afterFrom.db, absent, v, to, value, toFails, legs.afterFrom.holdersCount);
  }

  /** The Transfer handler keeps the vault's balances non-negative when a sender holding shares covers the value. */
  lemma TransferKeepsNonNegative(db: Db, absent: Absent, log: Log, from: string, to: string, rawValue: nat, value: nat,
                                 fromFails: bool, toFails: bool)
    requires VaultsKeyed(db) && SharesKeyed(db) && SeparatorFree(log.srcAddress)
    requires NonNegativeBalances(db, log.srcAddress)
    requires Qualifies(from, log.srcAddress) && !fromFails ==>
      Balance(db, log.srcAddress, from) >= value
    ensures var t := TransferMoving(db, absent, log, from, to, rawValue, value, fromFails, toFails);
      NonNegativeBalances(t, log.srcAddress)
  {
    var v := log.srcAddress;
    var legs := TransferLegsOf(db, absent, log, from, to, rawValue, value, fromFails, toFails);
    TransferWritesBack(db, absent, log, from, to, rawValue, value, fromFails, toFails);
    SenderLegKeepsKeyed(legs.start, absent, v, from, value, fromFails, legs.vault.holdersCount);
    SenderLegKeepsNonNegative(legs.start, absent, v, from, value, fromFails, legs.vault.holdersCount);
    ReceiverLegKeepsNonNegative(legs.afterFrom.db, absent, v, to, value, toFails, legs.afterFrom.holdersCount);
  }

  /** A transfer in one vault leaves every other vault's record and holders, hence its count, as they were. */
  lemma TransferKeepsOtherVaults(db: Db, absent: Absent, log: Log, from: string, to: string, rawValue: nat, value: nat,
                                 fromFails: bool, toFails: bool, w: string)
    requires VaultsKeyed(db) && SharesKeyed(db) && SeparatorFree(log.srcAddress)
    requires w != log.srcAddress
    ensures var t := TransferMoving(db, absent, log, from, to, rawValue, value, fromFails, toFails);
      && (w in t.vaults <==> w in db.vaults)
      && (w in db.vaults ==> t.vaults[w] == db.vaults[w])
      && Holders(t.shares, w) == Holders(db.shares, w)
      && (CountsHolders(db, w) ==> CountsHolders(t, w))
  {
    var v := log.srcAddress;
    var legs := TransferLegsOf(db, absent, log, from, to, rawValue, value, fromFails, toFails);
    TransferWritesBack(db, absent, log, from, to, rawValue, value, fromFails, toFails);
    SenderLegVaults(legs.start, absent, v, from, value, fromFails, legs.vault.holdersCount);
    SenderLegKeepsKeyed(legs.start, absent, v, from, value, fromFails, legs.vault.holdersCount);
    SenderLegKeepsOtherVaults(legs.start, absent, v, from, value, fromFails, legs.vault.holdersCount);
    ReceiverLegVaults(legs.afterFrom.db, absent, v, to, value, toFails, legs.afterFrom.holdersCount);
    ReceiverLegKeepsOtherVaults(legs.afterFrom.db, absent, v, to, value, toFails, legs.afterFrom.holdersCount);
  }

  /** A transfer touches no share but the sender's and the receiver's in its own vault. */
  lemma TransferTouchesOnlyPartyShares(db: Db, absent: Absent, log: Log, from: string, to: string, rawValue: nat, value: nat,
                                       fromFails: bool, toFails: bool, k: string)
    requires VaultsKeyed(db) && SharesKeyed(db) && SeparatorFree(log.srcAddress)
    requires k != ShareId(log.srcAddress, from) && k != ShareId(log.srcAddress, to)
    ensures var t := TransferMoving(db, absent, log, from, to, rawValue, value, fromFails, toFails);
      (k in t.shares <==> k in db.shares) && (k in db.shares ==> t.shares[k] == db.shares[k])
  {
    var v := log.srcAddress;
    var legs := TransferLegsOf(db, absent, log, from, to, rawValue, value, fromFails, toFails);
    TransferShares(db, absent, log, from, to, rawValue, value, fromFails, toFails);
    SenderLegFrame(legs.start, absent, v, from, value, fromFails, legs.vault.holdersCount, k);
    SenderLegKeepsKeyed(legs.start, absent, v, from, value, fromFails, legs.vault.holdersCount);
    ReceiverLegFrame(legs.afterFrom.db, absent, v, to, value, toFails, legs.afterFrom.holdersCount, k);
  }

  /**
   * A transfer from a user to itself leaves that user's balance and the
   * vault's stored holder count as they were, when neither leg fails.
   */
  lemma SelfTransferNeutral(db: Db, absent: Absent, log: Log, user: string, rawValue: nat, value: nat)
    requires VaultsKeyed(db) && SharesKeyed(db) && SeparatorFree(log.srcAddress)
    ensures var t := TransferMoving(db, absent, log, user, user, rawValue, value, false, false);
      && Balance(t, log.srcAddress, user) == Balance(db, log.srcAddress, user)
      && HoldersCount(t, log.srcAddress) == HoldersCount(db, log.srcAddress)
  {
    var v := log.srcAddress;
    var legs := TransferLegsOf(db, absent, log, user, user, rawValue, value, false, false);
    TransferBalance(db, absent, log, user, user, rawValue, value, false, false, user);
    TransferWritesBack(db, absent, log, user, user, rawValue, value, false, false);
    SenderLegEffect(legs.start, absent, v, user, value, false, legs.vault.holdersCount);
    SenderLegKeepsKeyed(legs.start, absent, v, user, value, false, legs.vault.holdersCount);
    ReceiverLegEffect(legs.afterFrom.db, absent, v, user, value, false, legs.afterFrom.holdersCount);
  }

  /**
   * Balances count whole vault shares: a transfer of less than one share
   * (10^18 base units) changes no balance.
   */
  lemma SubUnitTransferKeepsBalances(db: Db, absent: Absent, log: Log, from: string, to: string, rawValue: nat,
                                     fromFails: bool, toFails: bool, user: string)
    requires VaultsKeyed(db) && SharesKeyed(db) && SeparatorFree(log.srcAddress)
    requires rawValue < Pow10(BI_18)
    ensures var t := TransferAfter(db, absent, log, from, to, rawValue, fromFails, toFails);
      Balance(t, log.srcAddress, user) == Balance(db, log.srcAddress, user)
  {
    SubUnitAmountIsZero(rawValue);
    TransferBalance(db, absent, log, from, to, rawValue, TransferredShares(rawValue), fromFails, toFails, user);
  }

  /** A transfer of less than one share leaves the vault's stored holder count as it was. */
  lemma SubUnitTransferKeepsHoldersCount(db: Db, absent: Absent, log: Log, from: string, to: string, rawValue: nat,
                                         fromFails: bool, toFails: bool)
    requires VaultsKeyed(db) && SharesKeyed(db) && SeparatorFree(log.srcAddress)
    requires rawValue < Pow10(BI_18)
    ensures var t := TransferAfter(db, absent, log, from, to, rawValue, fromFails, toFails);
      HoldersCount(t, log.srcAddress) == HoldersCount(db, log.srcAddress)
  {
    var v := log.srcAddress;
    var value := TransferredShares(rawValue);
    var legs := TransferLegsOf(db, absent, log, from, to, rawValue, value, fromFails, toFails);
    SubUnitAmountIsZero(rawValue);
    TransferWritesBack(db, absent, log, from, to, rawValue, value, fromFails, toFails);
    SenderLegEffect(legs.start, absent, v, from, value, fromFails, legs.vault.holdersCount);
    SenderLegKeepsKeyed(legs.start, absent, v, from, value, fromFails, legs.vault.holdersCount);
    ReceiverLegEffect(legs.afterFrom.db, absent, v, to, value, toFails, legs.afterFrom.holdersCount);
  }

  /**
   * A transfer keeps the vault's metadata: afterwards the store holds the
   * vault it held before (or the placeholder) with only the holder count
   * replaced.
   */
  lemma TransferKeepsVaultMetadata(db: Db, absent: Absent, log: Log, from: string, to: string, rawValue: nat, value: nat,
                                   fromFails: bool, toFails: bool)
    requires VaultsKeyed(db)
    ensures var t := TransferMoving(db, absent, log, from, to, rawValue, value, fromFails, toFails);
      && log.srcAddress in t.vaults
      && t.vaults[log.srcAddress] == VaultOrPlaceholder(db, absent, log.srcAddress).(holdersCount := HoldersCount(t, log.srcAddress))
  {
    TransferWritesBack(db, absent, log, from, to, rawValue, value, fromFails, toFails);
  }

  /**
   * The metadata written when a vault is created survives any later
   * transfer in that vault: only the holder count is replaced.
   */
  lemma CreatedMetadataSurvivesTransfer(db: Db, created: Log, p: VaultCreatedParams,
                                        absent: Absent, log: Log, from: string, to: string, rawValue: nat, value: nat,
                                        fromFails: bool, toFails: bool)
    requires VaultsKeyed(db) && log.srcAddress == p.ichiVault
    ensures var t := TransferMoving(VaultCreatedAfter(db, created, p), absent, log, from, to, rawValue, value, fromFails, toFails);
      && p.ichiVault in t.vaults
      && t.vaults[p.ichiVault] == CreatedVault(created, p).(holdersCount := HoldersCount(t, p.ichiVault))
  {
    var mid := VaultCreatedAfter(db, created, p);
    assert VaultsKeyed(mid);
    TransferKeepsVaultMetadata(mid, absent, log, from, to, rawValue, value, fromFails, toFails);
  }

  /**
   * Besides shares and vaults, a transfer writes its event record under the
   * log's key and adds at most the two parties as users; a party other than
   * the zero address is a user afterwards whenever missing users read as
   * `null`.
   */
  lemma TransferRecordsEventAndUsers(db: Db, absent: Absent, log: Log, from: string, to: string, rawValue: nat, value: nat,
                                     fromFails: bool, toFails: bool)
    ensures var t := TransferMoving(db, absent, log, from, to, rawValue, value, fromFails, toFails);
      && t.events == db.events[LogId(log) := VaultTransfer(LogId(log), log.srcAddress, from, to, rawValue)]
      && db.users <= t.users <= db.users + {from, to}
      && (absent == AbsentIsNull ==> from in t.users && to in t.users)
  {
    var legs := TransferLegsOf(db, absent, log, from, to, rawValue, value, fromFails, toFails);
    assert legs.start.users <= db.users + {from, to};
    SenderLegUsers(legs.start, absent, log.srcAddress, from, value, fromFails, legs.vault.holdersCount);
    ReceiverLegUsers(legs.afterFrom.db, absent, log.srcAddress, to, value, toFails, legs.afterFrom.holdersCount);
    TransferFinishedUsers(legs.afterTo.db, absent, log.srcAddress, legs.vault, legs.afterTo.holdersCount, from, to);
  }

  /** The closing writes leave the event records alone and add at most the two parties as users. */
  lemma TransferFinishedUsers(db: Db, absent: Absent, vaultId: string, vault: Vault, count: int,
                              from: string, to: string)
    ensures var t := TransferFinished(db, absent, vaultId, vault, count, from, to);
      t.events == db.events && db.users <= t.users <= db.users + {from, to}
  {
  }

  /** A leg adds at most its own party as a user, and leaves the event records alone. */
  lemma SenderLegUsers(db: Db, absent: Absent, vault: string, from: string, value: int, fails: bool, count: int)
    ensures var r := SenderLeg(db, absent, vault, from, value, fails, count);
      db.users <= r.db.users <= db.users + {from} && r.db.events == db.events
  {
  }

  lemma ReceiverLegUsers(db: Db, absent: Absent, vault: string, to: string, value: int, fails: bool, count: int)
    ensures var r := ReceiverLeg(db, absent, vault, to, value, fails, count);
      db.users <= r.db.users <= db.users + {to} && r.db.events == db.events
  {
  }
}
