/**
 * What the Transfer handler does to balances, holder counts and vault
 * metadata, proved about its specification `TransferAfter`.
 */
module LedgerProofs {
  import opened Store
  import opened Ids
  import opened Helpers
  import opened EventHandlers

  /** A user's balance in a vault; a missing share reads as the zero balance it would be created with. */
  function Balance(db: Db, vault: string, user: string): int {
    var id := ShareId(vault, user);
    if id in db.shares then db.shares[id].vaultShareBalance else ZERO_BD
  }

  /** The stored holder count of a vault; a missing vault reads as the placeholder's zero. */
  function HoldersCount(db: Db, vault: string): int {
    if vault in db.vaults then db.vaults[vault].holdersCount else 0
  }

  /** The shares of `vault` with a non-zero balance. */
  ghost function Holders(shares: map<string, VaultShare>, vault: string): set<string> {
    set k | k in shares && shares[k].vaultId == vault && shares[k].vaultShareBalance != ZERO_BD
  }

  ghost predicate CountsHolders(db: Db, vault: string) {
    HoldersCount(db, vault) == |Holders(db.shares, vault)|
  }

  ghost predicate NonNegativeBalances(db: Db, vault: string) {
    forall k :: k in db.shares && db.shares[k].vaultId == vault ==> db.shares[k].vaultShareBalance >= 0
  }

  // ---------------------------------------------------------------------
  // Set bookkeeping
  // ---------------------------------------------------------------------

  lemma CardRemove(a: set<string>, x: string)
    requires x in a
    ensures |a - {x}| == |a| - 1
  {
    assert a == (a - {x}) + {x};
  }

  /** Writing one share of `vault` replaces its key in the holder set by the key when the new balance is non-zero. */
  lemma HoldersSetAfterPut(shares: map<string, VaultShare>, vault: string, s: VaultShare)
    requires s.vaultId == vault
    ensures Holders(shares[s.id := s], vault) ==
      (Holders(shares, vault) - {s.id}) + (if s.vaultShareBalance != ZERO_BD then {s.id} else {})
  {
    var m := shares[s.id := s];
    var added: set<string> := if s.vaultShareBalance != ZERO_BD then {s.id} else {};
    forall k ensures k in Holders(m, vault) <==> k in (Holders(shares, vault) - {s.id}) + added {
      if k != s.id {
        assert (k in m) == (k in shares);
        assert k in m ==> m[k] == shares[k];
      }
    }
  }

  /** Writing one share of `vault` moves that vault's holder count by at most that share's key. */
  lemma HoldersAfterPut(shares: map<string, VaultShare>, vault: string, s: VaultShare)
    requires s.vaultId == vault
    requires s.id in shares ==> shares[s.id].vaultId == vault
    ensures var was := s.id in shares && shares[s.id].vaultShareBalance != ZERO_BD;
      var now := s.vaultShareBalance != ZERO_BD;
      |Holders(shares[s.id := s], vault)| == |Holders(shares, vault)| - (if was then 1 else 0) + (if now then 1 else 0)
  {
    var before := Holders(shares, vault);
    var rest := before - {s.id};
    var added: set<string> := if s.vaultShareBalance != ZERO_BD then {s.id} else {};
    HoldersSetAfterPut(shares, vault, s);
    assert rest !! added;
    if s.id in before {
      CardRemove(before, s.id);
    } else {
      assert rest == before;
    }
  }

  /** Writing a share of `vault` leaves every other vault's holder set alone. */
  lemma HoldersElsewhereAfterPut(shares: map<string, VaultShare>, vault: string, s: VaultShare)
    requires s.vaultId == vault
    requires s.id in shares ==> shares[s.id].vaultId == vault
    ensures forall w {:trigger Holders(shares, w)} :: w != vault ==> Holders(shares[s.id := s], w) == Holders(shares, w)
  {
  }

  /** Fetching or creating a share never changes any holder set: a created share holds zero. */
  lemma UpsertKeepsHolders(db: Db, absent: Absent, vault: string, user: string, fails: bool)
    ensures var r := VaultShareUpserted(db, absent, vault, user, fails);
      forall w {:trigger Holders(db.shares, w)} :: Holders(r.db.shares, w) == Holders(db.shares, w)
  {
    var r := VaultShareUpserted(db, absent, vault, user, fails);
    forall w ensures Holders(r.db.shares, w) == Holders(db.shares, w) {
    }
  }

  // ---------------------------------------------------------------------
  // One leg at a time
  // ---------------------------------------------------------------------

  /**
   * The sender's leg takes exactly the value off the sender's balance, and
   * the count drops by one exactly when that balance went from non-zero to
   * zero; a skipped leg changes nothing.
   */
  lemma SenderLegEffect(db: Db, absent: Absent, vault: string, from: string, value: int, fails: bool, count: int)
    requires SharesKeyed(db)
    ensures var r := SenderLeg(db, absent, vault, from, value, fails, count);
      var applied := Qualifies(from, vault) && !fails;
      && Balance(r.db, vault, from) == (if applied then Balance(db, vault, from) - value else Balance(db, vault, from))
      && (r.holdersCount == count - 1 <==>
            applied && Balance(db, vault, from) != ZERO_BD && Balance(db, vault, from) - value == ZERO_BD)
      && (r.holdersCount == count || r.holdersCount == count - 1)
      && (!applied ==> r.db == db)
  {
    if Qualifies(from, vault) && !fails {
      var got := VaultShareUpserted(db, absent, vault, from, fails);
      assert got.share.value.id == ShareId(vault, from);
    }
  }

  /**
   * The receiver's leg adds exactly the value to the receiver's balance,
   * and the count rises by one exactly when that balance went from zero to
   * non-zero; a skipped leg changes nothing.
   */
  lemma ReceiverLegEffect(db: Db, absent: Absent, vault: string, to: string, value: int, fails: bool, count: int)
    requires SharesKeyed(db)
    ensures var r := ReceiverLeg(db, absent, vault, to, value, fails, count);
      var applied := Qualifies(to, vault) && !fails;
      && Balance(r.db, vault, to) == (if applied then Balance(db, vault, to) + value else Balance(db, vault, to))
      && (r.holdersCount == count + 1 <==>
            applied && Balance(db, vault, to) == ZERO_BD && Balance(db, vault, to) + value != ZERO_BD)
      && (r.holdersCount == count || r.holdersCount == count + 1)
      && (!applied ==> r.db == db)
  {
    if Qualifies(to, vault) && !fails {
      var got := VaultShareUpserted(db, absent, vault, to, fails);
      assert got.share.value.id == ShareId(vault, to);
    }
  }

  /** Only the leg's own share changes; every other share is left as it was. */
  lemma SenderLegFrame(db: Db, absent: Absent, vault: string, from: string, value: int, fails: bool, count: int, k: string)
    requires SharesKeyed(db)
    requires k != ShareId(vault, from)
    ensures var r := SenderLeg(db, absent, vault, from, value, fails, count);
      (k in r.db.shares <==> k in db.shares) && (k in db.shares ==> r.db.shares[k] == db.shares[k])
  {
    if Qualifies(from, vault) && !fails {
      var got := VaultShareUpserted(db, absent, vault, from, fails);
      assert got.share.value.id == ShareId(vault, from);
    }
  }

  lemma ReceiverLegFrame(db: Db, absent: Absent, vault: string, to: string, value: int, fails: bool, count: int, k: string)
    requires SharesKeyed(db)
    requires k != ShareId(vault, to)
    ensures var r := ReceiverLeg(db, absent, vault, to, value, fails, count);
      (k in r.db.shares <==> k in db.shares) && (k in db.shares ==> r.db.shares[k] == db.shares[k])
  {
    if Qualifies(to, vault) && !fails {
      var got := VaultShareUpserted(db, absent, vault, to, fails);
      assert got.share.value.id == ShareId(vault, to);
    }
  }

  /** Distinct users of one vault hold distinct shares. */
  lemma ShareIdsDiffer(vault: string, u1: string, u2: string)
    requires u1 != u2
    ensures ShareId(vault, u1) != ShareId(vault, u2)
  {
    ShareIdParts(vault, u1);
    ShareIdParts(vault, u2);
  }

  /** The sender's leg changes no balance but the sender's, and that one by exactly the value. */
  lemma SenderLegBalance(db: Db, absent: Absent, vault: string, from: string, value: int, fails: bool, count: int, user: string)
    requires SharesKeyed(db)
    ensures var r := SenderLeg(db, absent, vault, from, value, fails, count);
      Balance(r.db, vault, user) ==
        Balance(db, vault, user) - (if user == from && Qualifies(from, vault) && !fails then value else 0)
  {
    if user == from {
      SenderLegEffect(db, absent, vault, from, value, fails, count);
    } else {
      ShareIdsDiffer(vault, from, user);
      SenderLegFrame(db, absent, vault, from, value, fails, count, ShareId(vault, user));
    }
  }

  /** The receiver's leg changes no balance but the receiver's, and that one by exactly the value. */
  lemma ReceiverLegBalance(db: Db, absent: Absent, vault: string, to: string, value: int, fails: bool, count: int, user: string)
    requires SharesKeyed(db)
    ensures var r := ReceiverLeg(db, absent, vault, to, value, fails, count);
      Balance(r.db, vault, user) ==
        Balance(db, vault, user) + (if user == to && Qualifies(to, vault) && !fails then value else 0)
  {
    if user == to {
      ReceiverLegEffect(db, absent, vault, to, value, fails, count);
    } else {
      ShareIdsDiffer(vault, to, user);
      ReceiverLegFrame(db, absent, vault, to, value, fails, count, ShareId(vault, user));
    }
  }

  /**
   * Writing back a stored share of `vault` with a new balance keeps the
   * store well keyed, moves the vault's holder count by the share's own
   * zero/non-zero flip, and leaves every other vault's holders alone; a
   * non-negative balance keeps the vault's balances non-negative.
   */
  lemma WriteBackKeeps(db: Db, vault: string, share: VaultShare, balance: int)
    requires VaultsKeyed(db) && SharesKeyed(db)
    requires share.id in db.shares && db.shares[share.id] == share && share.vaultId == vault
    ensures var t := PutShare(db, share.(vaultShareBalance := balance));
      && VaultsKeyed(t) && SharesKeyed(t)
      && (NonNegativeBalances(db, vault) && balance >= 0 ==> NonNegativeBalances(t, vault))
      && |Holders(t.shares, vault)| == |Holders(db.shares, vault)|
           - (if share.vaultShareBalance != ZERO_BD then 1 else 0) + (if balance != ZERO_BD then 1 else 0)
      && (forall w {:trigger Holders(db.shares, w)} :: w != vault ==> Holders(t.shares, w) == Holders(db.shares, w))
  {
    var updated := share.(vaultShareBalance := balance);
    HoldersAfterPut(db.shares, vault, updated);
    HoldersElsewhereAfterPut(db.shares, vault, updated);
  }

  /**
   * What a successful fetch-or-create hands the leg: a well-keyed store with
   * the same holders, in which the returned share is stored under its key,
   * belongs to the vault and carries the user's balance.
   */
  lemma UpsertReady(db: Db, absent: Absent, vault: string, user: string)
    requires VaultsKeyed(db) && SharesKeyed(db) && SeparatorFree(vault)
    ensures var got := VaultShareUpserted(db, absent, vault, user, false);
      && got.share.Some?
      && VaultsKeyed(got.db) && SharesKeyed(got.db)
      && (NonNegativeBalances(db, vault) ==> NonNegativeBalances(got.db, vault))
      && got.share.value.id in got.db.shares && got.db.shares[got.share.value.id] == got.share.value
      && got.share.value.id == ShareId(vault, user)
      && got.share.value.vaultId == vault
      && got.share.value.vaultShareBalance == Balance(db, vault, user)
      && (forall w {:trigger Holders(db.shares, w)} :: Holders(got.db.shares, w) == Holders(db.shares, w))
  {
    UpsertReturnsPairShare(db, absent, vault, user, false);
    UpsertKeepsKeyed(db, absent, vault, user, false);
    UpsertKeepsHolders(db, absent, vault, user, false);
  }

  /** The sender's leg keeps every vault and every share stored under its own key. */
  lemma SenderLegKeepsKeyed(db: Db, absent: Absent, vault: string, from: string, value: int, fails: bool, count: int)
    requires VaultsKeyed(db) && SharesKeyed(db) && SeparatorFree(vault)
    ensures var r := SenderLeg(db, absent, vault, from, value, fails, count);
      VaultsKeyed(r.db) && SharesKeyed(r.db)
  {
    if Qualifies(from, vault) && !fails {
      var got := VaultShareUpserted(db, absent, vault, from, fails);
      UpsertReady(db, absent, vault, from);
      var share := got.share.value;
      WriteBackKeeps(got.db, vault, share, share.vaultShareBalance - value);
    }
  }

  /**
   * The sender's leg keeps the running count equal to the number of holders
   * of the vault, provided balances are non-negative and the sender covers
   * the value (otherwise a zero balance can turn negative uncounted).
   */
  lemma SenderLegKeepsCount(db: Db, absent: Absent, vault: string, from: string, value: int, fails: bool, count: int)
    requires VaultsKeyed(db) && SharesKeyed(db) && SeparatorFree(vault)
    requires value >= 0 && NonNegativeBalances(db, vault)
    requires Qualifies(from, vault) && !fails ==> Balance(db, vault, from) >= value
    requires count == |Holders(db.shares, vault)|
    ensures var r := SenderLeg(db, absent, vault, from, value, fails, count);
      r.holdersCount == |Holders(r.db.shares, vault)|
  {
    if Qualifies(from, vault) && !fails {
      var got := VaultShareUpserted(db, absent, vault, from, fails);
      UpsertReady(db, absent, vault, from);
      var share := got.share.value;
      WriteBackKeeps(got.db, vault, share, share.vaultShareBalance - value);
    }
  }

  /** The sender's leg leaves the holders of every other vault alone. */
  lemma SenderLegKeepsOtherVaults(db: Db, absent: Absent, vault: string, from: string, value: int, fails: bool, count: int)
    requires VaultsKeyed(db) && SharesKeyed(db) && SeparatorFree(vault)
    ensures var r := SenderLeg(db, absent, vault, from, value, fails, count);
      forall w {:trigger Holders(db.shares, w)} :: w != vault ==> Holders(r.db.shares, w) == Holders(db.shares, w)
  {
    if Qualifies(from, vault) && !fails {
      var got := VaultShareUpserted(db, absent, vault, from, fails);
      UpsertReady(db, absent, vault, from);
      var share := got.share.value;
      WriteBackKeeps(got.db, vault, share, share.vaultShareBalance - value);
    }
  }

  /** The sender's leg keeps the vault's balances non-negative when the sender covers the value. */
  lemma SenderLegKeepsNonNegative(db: Db, absent: Absent, vault: string, from: string, value: int, fails: bool, count: int)
    requires VaultsKeyed(db) && SharesKeyed(db) && SeparatorFree(vault)
    requires value >= 0 && NonNegativeBalances(db, vault)
    requires Qualifies(from, vault) && !fails ==> Balance(db, vault, from) >= value
    ensures var r := SenderLeg(db, absent, vault, from, value, fails, count);
      NonNegativeBalances(r.db, vault)
  {
    if Qualifies(from, vault) && !fails {
      var got := VaultShareUpserted(db, absent, vault, from, fails);
      UpsertReady(db, absent, vault, from);
      var share := got.share.value;
      WriteBackKeeps(got.db, vault, share, share.vaultShareBalance - value);
    }
  }

  /** The receiver's leg keeps every vault and every share stored under its own key. */
  lemma ReceiverLegKeepsKeyed(db: Db, absent: Absent, vault: string, to: string, value: int, fails: bool, count: int)
    requires VaultsKeyed(db) && SharesKeyed(db) && SeparatorFree(vault)
    ensures var r := ReceiverLeg(db, absent, vault, to, value, fails, count);
      VaultsKeyed(r.db) && SharesKeyed(r.db)
  {
    if Qualifies(to, vault) && !fails {
      var got := VaultShareUpserted(db, absent, vault, to, fails);
      UpsertReady(db, absent, vault, to);
      var share := got.share.value;
      WriteBackKeeps(got.db, vault, share, share.vaultShareBalance + value);
    }
  }

  /**
   * The receiver's leg keeps the running count equal to the number of holders
   * of the vault, provided balances and the value are non-negative.
   */
  lemma ReceiverLegKeepsCount(db: Db, absent: Absent, vault: string, to: string, value: int, fails: bool, count: int)
    requires VaultsKeyed(db) && SharesKeyed(db) && SeparatorFree(vault)
    requires value >= 0 && NonNegativeBalances(db, vault)
    requires count == |Holders(db.shares, vault)|
    ensures var r := ReceiverLeg(db, absent, vault, to, value, fails, count);
      r.holdersCount == |Holders(r.db.shares, vault)|
  {
    if Qualifies(to, vault) && !fails {
      var got := VaultShareUpserted(db, absent, vault, to, fails);
      UpsertReady(db, absent, vault, to);
      var share := got.share.value;
      WriteBackKeeps(got.db, vault, share, share.vaultShareBalance + value);
    }
  }

  /** The receiver's leg leaves the holders of every other vault alone. */
  lemma ReceiverLegKeepsOtherVaults(db: Db, absent: Absent, vault: string, to: string, value: int, fails: bool, count: int)
    requires VaultsKeyed(db) && SharesKeyed(db) && SeparatorFree(vault)
    ensures var r := ReceiverLeg(db, absent, vault, to, value, fails, count);
      forall w {:trigger Holders(db.shares, w)} :: w != vault ==> Holders(r.db.shares, w) == Holders(db.shares, w)
  {
    if Qualifies(to, vault) && !fails {
      var got := VaultShareUpserted(db, absent, vault, to, fails);
      UpsertReady(db, absent, vault, to);
      var share := got.share.value;
      WriteBackKeeps(got.db, vault, share, share.vaultShareBalance + value);
    }
  }

  /** The receiver's leg keeps the vault's balances non-negative. */
  lemma ReceiverLegKeepsNonNegative(db: Db, absent: Absent, vault: string, to: string, value: int, fails: bool, count: int)
    requires VaultsKeyed(db) && SharesKeyed(db) && SeparatorFree(vault)
    requires value >= 0 && NonNegativeBalances(db, vault)
    ensures var r := ReceiverLeg(db, absent, vault, to, value, fails, count);
      NonNegativeBalances(r.db, vault)
  {
    if Qualifies(to, vault) && !fails {
      var got := VaultShareUpserted(db, absent, vault, to, fails);
      UpsertReady(db, absent, vault, to);
      var share := got.share.value;
      WriteBackKeeps(got.db, vault, share, share.vaultShareBalance + value);
    }
  }
}
