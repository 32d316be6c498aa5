/**
 * The unit the Transfer handler keeps balances in. The handler truncates
 * every transfer's raw amount to whole shares on its own, so a valid token
 * history can drive a tracked balance below zero, and the vault's holder
 * count then stops matching its holders. Keeping balances in base units
 * (what an exact decimal division would keep, scaled by 10^18) mirrors the
 * token's own ledger, and along any valid history the count stays exact.
 */
module ShareUnits {
  import opened Store
  import opened Ids
  import opened Helpers
  import opened EventHandlers
  import opened LedgerProofs
  import opened TransferProofs

  // ---------------------------------------------------------------------
  // The token's own ledger
  // ---------------------------------------------------------------------

  /** One `Transfer` log of the vault token. */
  datatype TokenTransfer = TokenTransfer(log: Log, from: string, to: string, rawValue: nat)

  /** A holder's token balance in base units; a missing holder holds zero. */
  function TokenBalance(ledger: map<string, int>, holder: string): int {
    if holder in ledger then ledger[holder] else 0
  }

  /** An ERC-20 transfer can only spend what the sender holds; a mint comes from the zero address. */
  predicate Spendable(ledger: map<string, int>, from: string, rawValue: nat) {
    from == ADDRESS_ZERO || TokenBalance(ledger, from) >= rawValue
  }

  /** The token's ledger after a transfer: the sender is debited unless minting, the receiver credited unless burning. */
  function LedgerAfter(ledger: map<string, int>, from: string, to: string, rawValue: nat): (r: map<string, int>)
    ensures forall holder {:trigger TokenBalance(r, holder)} ::
      TokenBalance(r, holder) == TokenBalance(ledger, holder)
        - (if holder == from && from != ADDRESS_ZERO then rawValue else 0)
        + (if holder == to && to != ADDRESS_ZERO then rawValue else 0)
  {
    var debited := if from == ADDRESS_ZERO then ledger else ledger[from := TokenBalance(ledger, from) - rawValue];
    if to == ADDRESS_ZERO then debited else debited[to := TokenBalance(debited, to) + rawValue]
  }

  /** Every transfer of `history`, in order, spends only what its sender holds. */
  ghost predicate ValidHistory(ledger: map<string, int>, history: seq<TokenTransfer>)
    decreases |history|
  {
    |history| == 0 ||
      (var e := history[0];
       Spendable(ledger, e.from, e.rawValue) && ValidHistory(LedgerAfter(ledger, e.from, e.to, e.rawValue), history[1..]))
  }

  function LedgerReplay(ledger: map<string, int>, history: seq<TokenTransfer>): map<string, int>
    decreases |history|
  {
    if |history| == 0 then ledger
    else
      var e := history[0];
      LedgerReplay(LedgerAfter(ledger, e.from, e.to, e.rawValue), history[1..])
  }

  /** Every transfer of `history` is a log of `vault`. */
  predicate InVault(history: seq<TokenTransfer>, vault: string)
    decreases |history|
  {
    |history| == 0 || (history[0].log.srcAddress == vault && InVault(history[1..], vault))
  }

  /** The store's balances in `vault` equal the token ledger for every party the handler tracks. */
  ghost predicate MirrorsLedger(db: Db, vault: string, ledger: map<string, int>) {
    forall user {:trigger Balance(db, vault, user)} :: Qualifies(user, vault) ==> Balance(db, vault, user) == TokenBalance(ledger, user)
  }

  // ---------------------------------------------------------------------
  // The handler as written and with balances in base units
  // ---------------------------------------------------------------------

  /** The Transfer handler with its legs moving the raw amount instead of the truncated share count. */
  function TransferAfterExact(db: Db, absent: Absent, log: Log, from: string, to: string, rawValue: nat,
                              fromFails: bool, toFails: bool): Db
  {
    TransferMoving(db, absent, log, from, to, rawValue, rawValue, fromFails, toFails)
  }

  /** What the legs move: whole shares as written, base units when `exact`. */
  function MovedValue(rawValue: nat, exact: bool): nat {
    if exact then rawValue else TransferredShares(rawValue)
  }

  /**
   * The handler on one token transfer: `TransferAfter` as written,
   * `TransferAfterExact` in base units.
   */
  function Step(db: Db, absent: Absent, e: TokenTransfer, exact: bool): Db {
    TransferMoving(db, absent, e.log, e.from, e.to, e.rawValue, MovedValue(e.rawValue, exact), false, false)
  }

  /** The store after the handler processes `history` in order. */
  function Replay(db: Db, absent: Absent, history: seq<TokenTransfer>, exact: bool): Db
    decreases |history|
  {
    if |history| == 0 then db
    else Replay(Step(db, absent, history[0], exact), absent, history[1..], exact)
  }

  // ---------------------------------------------------------------------
  // As written: a valid history breaks the holder count
  // ---------------------------------------------------------------------

  lemma {:induction false} Pow10Add(m: nat, n: nat)
    ensures Pow10(m + n) == Pow10(m) * Pow10(n)
    decreases m
  {
    if m > 0 {
      Pow10Add(m - 1, n);
    }
  }

  lemma OneShareInBaseUnits()
    ensures Pow10(BI_18) == 1_000_000_000_000_000_000
  {
    assert Pow10(3) == 1000;
    Pow10Add(3, 3);
    Pow10Add(6, 6);
    Pow10Add(12, 6);
  }

  lemma TwoMembersAtLeastTwo(s: set<string>, x: string, y: string)
    requires x in s && y in s && x != y
    ensures |s| >= 2
  {
    CardRemove(s, x);
    assert y in s - {x};
  }

  /**
   * A transfer of at least one whole share between two tracked parties
   * that both hold nothing: the sender's balance turns negative, which the
   * handler does not count as a holder, while the receiver's turns
   * positive, which it does; so the stored count rises by one while both
   * shares become non-zero.
   */
  lemma OverdraftMiscounts(db: Db, absent: Absent, log: Log, from: string, to: string, rawValue: nat)
    requires VaultsKeyed(db) && SharesKeyed(db) && SeparatorFree(log.srcAddress)
    requires Qualifies(from, log.srcAddress) && Qualifies(to, log.srcAddress) && from != to
    requires Balance(db, log.srcAddress, from) == 0 && Balance(db, log.srcAddress, to) == 0
    requires TransferredShares(rawValue) >= 1
    ensures var t := TransferAfter(db, absent, log, from, to, rawValue, false, false);
      var v := log.srcAddress;
      && Balance(t, v, from) + TransferredShares(rawValue) == 0
      && HoldersCount(t, v) == HoldersCount(db, v) + 1
      && |Holders(t.shares, v)| >= 2
  {
    var v := log.srcAddress;
    var value := TransferredShares(rawValue);
    var t := TransferAfter(db, absent, log, from, to, rawValue, false, false);
    TransferKeepsKeyed(db, absent, log, from, to, rawValue, value, false, false);
    TransferBalance(db, absent, log, from, to, rawValue, value, false, false, from);
    TransferBalance(db, absent, log, from, to, rawValue, value, false, false, to);

    var legs := TransferLegsOf(db, absent, log, from, to, rawValue, value, false, false);
    TransferWritesBack(db, absent, log, from, to, rawValue, value, false, false);
    SenderLegEffect(legs.start, absent, v, from, value, false, legs.vault.holdersCount);
    SenderLegBalance(legs.start, absent, v, from, value, false, legs.vault.holdersCount, to);
    SenderLegKeepsKeyed(legs.start, absent, v, from, value, false, legs.vault.holdersCount);
    ReceiverLegEffect(legs.afterFrom.db, absent, v, to, value, false, legs.afterFrom.holdersCount);

    var kf, kt := ShareId(v, from), ShareId(v, to);
    var sf, st := t.shares[kf], t.shares[kt];
    ShareIdInjective(sf.vaultId, sf.userId, v, from);
    ShareIdInjective(st.vaultId, st.userId, v, to);
    ShareIdsDiffer(v, from, to);
    TwoMembersAtLeastTwo(Holders(t.shares, v), kf, kt);
  }

  const TokenVault: string := "0xv"
  const HolderA: string := "0xa"
  const HolderB: string := "0xb"

  /** Two mints of 0.6 shares to `A`, then `A` sends its 1.2 shares to `B`. */
  function MintsThenSend(): seq<TokenTransfer> {
    [TokenTransfer(Log(1, 1, 0, 0, TokenVault), ADDRESS_ZERO, HolderA, 600_000_000_000_000_000),
     TokenTransfer(Log(1, 2, 0, 0, TokenVault), ADDRESS_ZERO, HolderA, 600_000_000_000_000_000),
     TokenTransfer(Log(1, 3, 0, 0, TokenVault), HolderA, HolderB, 1_200_000_000_000_000_000)]
  }

  function EmptyStore(): Db {
    Db({}, map[], map[], map[])
  }

  /** The token allows every step of `MintsThenSend`. */
  lemma MintsThenSendIsValid()
    ensures ValidHistory(map[], MintsThenSend())
  {
    var h := MintsThenSend();
    var l1 := LedgerAfter(map[], ADDRESS_ZERO, HolderA, h[0].rawValue);
    var l2 := LedgerAfter(l1, ADDRESS_ZERO, HolderA, h[1].rawValue);
    assert TokenBalance(l2, HolderA) == h[2].rawValue;
    assert h[1..][1..][1..] == [];
    assert ValidHistory(l2, h[1..][1..]);
    assert ValidHistory(l1, h[1..]);
  }

  lemma EmptyStoreCountsHolders()
    ensures VaultsKeyed(EmptyStore()) && SharesKeyed(EmptyStore())
    ensures NonNegativeBalances(EmptyStore(), TokenVault) && CountsHolders(EmptyStore(), TokenVault)
  {
    assert Holders(EmptyStore().shares, TokenVault) == {};
  }

  /**
   * The handler as written, replaying the valid history `MintsThenSend`
   * from an empty store: each mint truncates to nothing and the send to
   * one share, so `A` ends at -1, and the stored holder count (1) no
   * longer equals the number of non-zero shares (2).
   */
  lemma TruncatedHistoryBreaksHoldersCount()
    ensures ValidHistory(map[], MintsThenSend()) && CountsHolders(EmptyStore(), TokenVault)
    ensures var t := Replay(EmptyStore(), AbsentIsNull, MintsThenSend(), false);
      Balance(t, TokenVault, HolderA) == -1 && !CountsHolders(t, TokenVault)
  {
    MintsThenSendIsValid();
    EmptyStoreCountsHolders();
    OneShareInBaseUnits();
    var h := MintsThenSend();
    assert TransferredShares(h[2].rawValue) == 1;
    SubUnitThenOverdraft(EmptyStore(), AbsentIsNull, h);
  }

  /**
   * Two transfers of less than one share each, then a transfer of at least
   * one share between two tracked parties that hold nothing, in a vault
   * whose stored count is zero: the sender ends negative and the count
   * misses a holder.
   */
  lemma SubUnitThenOverdraft(db: Db, absent: Absent, h: seq<TokenTransfer>)
    requires |h| == 3
    requires VaultsKeyed(db) && SharesKeyed(db) && SeparatorFree(h[2].log.srcAddress)
    requires h[0].log.srcAddress == h[1].log.srcAddress == h[2].log.srcAddress
    requires h[0].rawValue < Pow10(BI_18) && h[1].rawValue < Pow10(BI_18) && TransferredShares(h[2].rawValue) >= 1
    requires Qualifies(h[2].from, h[2].log.srcAddress) && Qualifies(h[2].to, h[2].log.srcAddress) && h[2].from != h[2].to
    requires Balance(db, h[2].log.srcAddress, h[2].from) == 0 && Balance(db, h[2].log.srcAddress, h[2].to) == 0
    requires HoldersCount(db, h[2].log.srcAddress) == 0
    ensures var t := Replay(db, absent, h, false);
      && Balance(t, h[2].log.srcAddress, h[2].from) + TransferredShares(h[2].rawValue) == 0
      && !CountsHolders(t, h[2].log.srcAddress)
  {
    var t1 := Step(db, absent, h[0], false);
    var t2 := Step(t1, absent, h[1], false);
    SubUnitStepMovesNothing(db, absent, h[0]);
    SubUnitStepMovesNothing(t1, absent, h[1]);
    OverdraftMiscounts(t2, absent, h[2].log, h[2].from, h[2].to, h[2].rawValue);
    ReplayFirst(db, absent, h, false);
    ReplayTwo(t1, absent, h[1..]);
  }

  /** Replaying a history is replaying its first transfer, then the rest. */
  lemma ReplayFirst(db: Db, absent: Absent, h: seq<TokenTransfer>, exact: bool)
    requires |h| >= 1
    ensures Replay(db, absent, h, exact) == Replay(Step(db, absent, h[0], exact), absent, h[1..], exact)
  {
  }

  lemma ReplayTwo(db: Db, absent: Absent, h: seq<TokenTransfer>)
    requires |h| == 2
    ensures Replay(db, absent, h, false) == Step(Step(db, absent, h[0], false), absent, h[1], false)
  {
    ReplayFirst(db, absent, h, false);
    ReplayFirst(Step(db, absent, h[0], false), absent, h[1..], false);
    assert h[1..][1..] == [];
  }



  /** As written, a transfer of less than one share changes no balance and no stored count. */
  lemma SubUnitStepMovesNothing(db: Db, absent: Absent, e: TokenTransfer)
    requires VaultsKeyed(db) && SharesKeyed(db) && SeparatorFree(e.log.srcAddress)
    requires e.rawValue < Pow10(BI_18)
    ensures var t := Step(db, absent, e, false);
      var v := e.log.srcAddress;
      && VaultsKeyed(t) && SharesKeyed(t)
      && HoldersCount(t, v) == HoldersCount(db, v)
      && forall user {:trigger Balance(t, v, user)} :: Balance(t, v, user) == Balance(db, v, user)
  {
    var t := Step(db, absent, e, false);
    TransferKeepsKeyed(db, absent, e.log, e.from, e.to, e.rawValue, TransferredShares(e.rawValue), false, false);
    SubUnitTransferKeepsHoldersCount(db, absent, e.log, e.from, e.to, e.rawValue, false, false);
    forall user ensures Balance(t, e.log.srcAddress, user) == Balance(db, e.log.srcAddress, user) {
      SubUnitTransferKeepsBalances(db, absent, e.log, e.from, e.to, e.rawValue, false, false, user);
    }
  }

  // ---------------------------------------------------------------------
  // In base units: the count stays exact along any valid history
  // ---------------------------------------------------------------------

  /**
   * A transfer the token allows, replayed in base units on a store that
   * mirrors the token's ledger, keeps the store keyed, its balances
   * non-negative and its holder count exact.
   */
  lemma ExactTransferKeepsHoldersCount(db: Db, absent: Absent, ledger: map<string, int>, e: TokenTransfer)
    requires VaultsKeyed(db) && SharesKeyed(db) && SeparatorFree(e.log.srcAddress)
    requires NonNegativeBalances(db, e.log.srcAddress) && CountsHolders(db, e.log.srcAddress)
    requires MirrorsLedger(db, e.log.srcAddress, ledger) && Spendable(ledger, e.from, e.rawValue)
    ensures var t := Step(db, absent, e, true);
      && VaultsKeyed(t) && SharesKeyed(t)
      && NonNegativeBalances(t, e.log.srcAddress) && CountsHolders(t, e.log.srcAddress)
  {
    var v, raw := e.log.srcAddress, e.rawValue;
    assert Qualifies(e.from, v) ==> Balance(db, v, e.from) >= raw;
    TransferKeepsKeyed(db, absent, e.log, e.from, e.to, raw, raw, false, false);
    TransferKeepsNonNegative(db, absent, e.log, e.from, e.to, raw, raw, false, false);
    TransferKeepsHoldersCount(db, absent, e.log, e.from, e.to, raw, raw, false, false);
  }

  /** Replayed in base units, a transfer moves the store's balances exactly as the token moves its own. */
  lemma ExactTransferMirrorsLedger(db: Db, absent: Absent, ledger: map<string, int>, e: TokenTransfer)
    requires VaultsKeyed(db) && SharesKeyed(db) && SeparatorFree(e.log.srcAddress)
    requires MirrorsLedger(db, e.log.srcAddress, ledger)
    ensures MirrorsLedger(Step(db, absent, e, true), e.log.srcAddress, LedgerAfter(ledger, e.from, e.to, e.rawValue))
  {
    var v, raw := e.log.srcAddress, e.rawValue;
    var t := Step(db, absent, e, true);
    var next := LedgerAfter(ledger, e.from, e.to, raw);
    forall user | Qualifies(user, v)
      ensures Balance(t, v, user) == TokenBalance(next, user)
    {
      TransferBalance(db, absent, e.log, e.from, e.to, raw, raw, false, false, user);
    }
  }

  /** The state the replay keeps: keyed, non-negative, counted, and equal to the token's ledger. */
  ghost predicate Tracks(db: Db, vault: string, ledger: map<string, int>) {
    && VaultsKeyed(db) && SharesKeyed(db) && SeparatorFree(vault)
    && NonNegativeBalances(db, vault) && CountsHolders(db, vault) && MirrorsLedger(db, vault, ledger)
  }

  /** The first transfer of a valid history, replayed in base units, keeps `Tracks`. */
  lemma ExactReplayFirst(db: Db, absent: Absent, vault: string, ledger: map<string, int>, history: seq<TokenTransfer>)
    returns (next: Db)
    requires |history| >= 1 && history[0].log.srcAddress == vault
    requires Tracks(db, vault, ledger) && ValidHistory(ledger, history)
    ensures Replay(db, absent, history, true) == Replay(next, absent, history[1..], true)
    ensures var e := history[0];
      Tracks(next, vault, LedgerAfter(ledger, e.from, e.to, e.rawValue))
      && ValidHistory(LedgerAfter(ledger, e.from, e.to, e.rawValue), history[1..])
  {
    var e := history[0];
    next := Step(db, absent, e, true);
    ExactTransferKeepsHoldersCount(db, absent, ledger, e);
    ExactTransferMirrorsLedger(db, absent, ledger, e);
    ReplayFirst(db, absent, history, true);
  }

  /**
   * Replayed in base units, every valid token history of one vault keeps
   * the vault's stored holder count equal to its number of holders, and
   * the store's balances equal the token's.
   */
  lemma {:induction false} ExactReplayKeepsHoldersCount(db: Db, absent: Absent, vault: string,
                                                        ledger: map<string, int>, history: seq<TokenTransfer>)
    requires Tracks(db, vault, ledger)
    requires InVault(history, vault) && ValidHistory(ledger, history)
    ensures var t := Replay(db, absent, history, true);
      CountsHolders(t, vault) && Tracks(t, vault, LedgerReplay(ledger, history))
    decreases |history|
  {
    if |history| > 0 {
      var e := history[0];
      var next := ExactReplayFirst(db, absent, vault, ledger, history);
      ExactReplayKeepsHoldersCount(next, absent, vault, LedgerAfter(ledger, e.from, e.to, e.rawValue), history[1..]);
    }
  }

  /** The history that breaks the handler as written keeps the count exact when replayed in base units. */
  lemma ExactReplayOfTruncatedHistory()
    ensures CountsHolders(Replay(EmptyStore(), AbsentIsNull, MintsThenSend(), true), TokenVault)
  {
    MintsThenSendIsValid();
    EmptyStoreCountsHolders();
    ExactReplayKeepsHoldersCount(EmptyStore(), AbsentIsNull, TokenVault, map[], MintsThenSend());
  }
}
