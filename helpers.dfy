/**
 * The shared helpers of the handlers: the constants, the exact scaling of
 * raw token amounts by a power of ten, and the two create-if-absent
 * operations on the store (`createUser`, `createVaultShare`).
 */
module Helpers {
  import opened Store
  import opened Ids

  const ADDRESS_ZERO: string := "0x0000000000000000000000000000000000000000"
  const ZERO_BD: int := 0
  const BI_18: int := 18

  // ---------------------------------------------------------------------
  // Token units
  // ---------------------------------------------------------------------

  function Pow10(n: nat): (r: nat)
    ensures r >= 1
    ensures n >= 1 ==> r >= 10
  {
    if n == 0 then 1 else 10 * Pow10(n - 1)
  }

  /** The loop of `exponentToBigDecimal`: ten to the `decimals`, or one when `decimals` is not positive. */
  method ExponentToBigDecimal(decimals: int) returns (bd: int)
    ensures bd == Pow10(if decimals < 0 then 0 else decimals)
  {
    bd := 1;
    var i := 0;
    while i < decimals
      invariant 0 <= i <= (if decimals < 0 then 0 else decimals)
      invariant bd == Pow10(i)
    {
      bd := bd * 10;
      i := i + 1;
    }
  }

  /** JavaScript `BigInt` division: the quotient is truncated toward zero. */
  function BigIntDiv(a: int, d: int): (q: int)
    requires d > 0
    ensures a >= 0 ==> 0 <= q && q * d <= a < (q + 1) * d
    ensures a < 0 ==> q <= 0 && (q - 1) * d < a <= q * d
  {
    if a >= 0 then
      DivBounds(a, d);
      a / d
    else
      DivBounds(-a, d);
      -((-a) / d)
  }

  lemma DivBounds(a: int, d: int)
    requires a >= 0 && d > 0
    ensures 0 <= a / d && (a / d) * d <= a < (a / d + 1) * d
  {
    var q, r := a / d, a % d;
    assert a == q * d + r && 0 <= r < d;
    assert (q + 1) * d == q * d + d;
  }

  /**
   * `convertTokenToDecimal`: the amount unchanged when the decimals are zero,
   * otherwise the amount divided by ten to the decimals (a non-positive
   * exponent leaves the divisor at one).
   */
  function TokenToDecimal(tokenAmount: int, exchangeDecimals: int): (r: int)
    ensures exchangeDecimals <= 0 ==> r == tokenAmount
    ensures exchangeDecimals > 0 && tokenAmount >= 0 ==>
      0 <= r && r * Pow10(exchangeDecimals) <= tokenAmount < (r + 1) * Pow10(exchangeDecimals)
    ensures exchangeDecimals > 0 && tokenAmount < 0 ==>
      r <= 0 && (r - 1) * Pow10(exchangeDecimals) < tokenAmount <= r * Pow10(exchangeDecimals)
  {
    if exchangeDecimals == 0 then tokenAmount
    else BigIntDiv(tokenAmount, Pow10(if exchangeDecimals < 0 then 0 else exchangeDecimals))
  }

  method ConvertTokenToDecimal(tokenAmount: int, exchangeDecimals: int) returns (r: int)
    ensures r == TokenToDecimal(tokenAmount, exchangeDecimals)
  {
    if exchangeDecimals == 0 {
      return tokenAmount;
    }
    var divisor := ExponentToBigDecimal(exchangeDecimals);
    r := BigIntDiv(tokenAmount, divisor);
  }

  /** A raw amount below one whole token (10^18 base units) converts to zero. */
  lemma SubUnitAmountIsZero(raw: nat)
    requires raw < Pow10(BI_18)
    ensures TokenToDecimal(raw, BI_18) == 0
  {
    var r := TokenToDecimal(raw, BI_18);
    var p := Pow10(BI_18);
    if r >= 1 {
      MulMonotone(1, r, p);
    }
  }

  lemma MulMonotone(a: int, b: int, c: nat)
    requires a <= b
    ensures a * c <= b * c
  {
  }

  // ---------------------------------------------------------------------
  // createUser
  // ---------------------------------------------------------------------

  /**
   * `createUser`: writes the identity-only user record only when the lookup
   * returned `null`; an `undefined` lookup is not recognised as absence.
   */
  function UserCreated(db: Db, absent: Absent, address: string): (r: Db)
    ensures r.vaults == db.vaults && r.shares == db.shares && r.events == db.events
    ensures db.users <= r.users <= db.users + {address}
    ensures address in r.users <==> address in db.users || absent == AbsentIsNull
  {
    match GetUser(db.users, address, absent)
    case Null => PutUser(db, User(address))
    case _ => db
  }

  method CreateUser(ctx: Context, address: string)
    modifies ctx
    ensures ctx.Snapshot() == UserCreated(old(ctx.Snapshot()), ctx.absent, address)
  {
    var user := ctx.GetUserRecord(address);
    if user == Null {
      ctx.SetUser(User(address));
    }
  }

  /** An existing user is never touched. */
  lemma UserCreatedKeepsExisting(db: Db, absent: Absent, address: string)
    requires address in db.users
    ensures UserCreated(db, absent, address) == db
  {
    var r := UserCreated(db, absent, address);
    assert r.users == db.users;
  }

  /** Running `createUser` twice has the effect of running it once. */
  lemma UserCreatedIdempotent(db: Db, absent: Absent, address: string)
    ensures UserCreated(UserCreated(db, absent, address), absent, address) == UserCreated(db, absent, address)
  {
    var once := UserCreated(db, absent, address);
    var twice := UserCreated(once, absent, address);
    assert twice.users == once.users;
  }

  // ---------------------------------------------------------------------
  // createVaultShare
  // ---------------------------------------------------------------------

  /** The empty vault written when a share refers to a vault the store has never seen. */
  function PlaceholderVault(id: string): Vault {
    Vault(id, "", "", false, "", false, 0, 0, 0, 0)
  }

  /** Every vault is stored under its own id. */
  ghost predicate VaultsKeyed(db: Db) {
    forall k :: k in db.vaults ==> db.vaults[k].id == k
  }

  /**
   * Every share is stored under its own id, that id names its vault and
   * user, and its vault address is separator-free.
   */
  ghost predicate SharesKeyed(db: Db) {
    forall k :: k in db.shares ==>
      && db.shares[k].id == k
      && k == ShareId(db.shares[k].vaultId, db.shares[k].userId)
      && SeparatorFree(db.shares[k].vaultId)
  }

  /** The new store and the returned share (`None` for the `null` the helper returns). */
  datatype Upsert = Upsert(db: Db, share: Option<VaultShare>)

  /**
   * `createVaultShare`: get-or-create. `fails` stands for an exception from
   * the store, which the helper catches and turns into `null`.
   */
  function VaultShareUpserted(db: Db, absent: Absent, vault: string, user: string, fails: bool): Upsert
  {
    var id := ShareId(vault, user);
    if fails then Upsert(db, None)
    else
      match Get(db.shares, id, absent)
      case Found(existing) => Upsert(db, Some(existing))
      case _ =>
        var withUser := UserCreated(db, absent, user);
        var withVault :=
          match Get(withUser.vaults, vault, absent)
          case Found(_) => withUser
          case _ => PutVault(withUser, PlaceholderVault(vault));
        var created := VaultShare(id, ZERO_BD, vault, user);
        Upsert(PutShare(withVault, created), Some(created))
  }

  /**
   * The three outcomes of `createVaultShare`: a failure hands back `null`
   * and changes nothing; an existing share is handed back untouched; a
   * missing share is created with a zero balance, after the user and (only
   * if missing) a placeholder vault.
   */
  lemma VaultShareUpsertedCases(db: Db, absent: Absent, vault: string, user: string, fails: bool)
    ensures var r := VaultShareUpserted(db, absent, vault, user, fails);
      && (fails ==> r == Upsert(db, None))
      && (!fails && ShareId(vault, user) in db.shares ==>
            r == Upsert(db, Some(db.shares[ShareId(vault, user)])))
      && (!fails && ShareId(vault, user) !in db.shares ==>
            && r.share == Some(VaultShare(ShareId(vault, user), ZERO_BD, vault, user))
            && r.db.users == UserCreated(db, absent, user).users
            && r.db.vaults == (if vault in db.vaults then db.vaults else db.vaults[vault := PlaceholderVault(vault)])
            && r.db.shares == db.shares[ShareId(vault, user) := r.share.value]
            && r.db.events == db.events)
  {
  }

  method CreateVaultShare(ctx: Context, vault: string, user: string, fails: bool) returns (share: Option<VaultShare>)
    modifies ctx
    ensures Upsert(ctx.Snapshot(), share) == VaultShareUpserted(old(ctx.Snapshot()), ctx.absent, vault, user, fails)
  {
    var id := ShareId(vault, user);
    if fails {
      return None;
    }
    var vaultShare := ctx.GetShare(id);
    if vaultShare.IsFalsy() {
      CreateUser(ctx, user);
      var ichiVault := ctx.GetVault(vault);
      if ichiVault.IsFalsy() {
        ctx.SetVault(PlaceholderVault(vault));
      }
      var created := VaultShare(id, ZERO_BD, vault, user);
      ctx.SetShare(created);
      vaultShare := Found(created);
    }
    // The helper's second null check cannot fire: the share was found or just created.
    share := Some(vaultShare.value);
  }

  /** Under a well-keyed store, the share handed back is the one for this (vault, user) pair. */
  lemma UpsertReturnsPairShare(db: Db, absent: Absent, vault: string, user: string, fails: bool)
    requires SharesKeyed(db) && SeparatorFree(vault)
    requires !fails
    ensures var r := VaultShareUpserted(db, absent, vault, user, fails);
      && r.share.Some?
      && r.share.value.id == ShareId(vault, user)
      && r.share.value.vaultId == vault
      && r.share.value.userId == user
  {
    var id := ShareId(vault, user);
    if id in db.shares {
      var s := db.shares[id];
      ShareIdInjective(s.vaultId, s.userId, vault, user);
    }
  }

  /** Creating a share keeps both keying invariants. */
  lemma UpsertKeepsKeyed(db: Db, absent: Absent, vault: string, user: string, fails: bool)
    requires VaultsKeyed(db) && SharesKeyed(db) && SeparatorFree(vault)
    ensures var r := VaultShareUpserted(db, absent, vault, user, fails);
      VaultsKeyed(r.db) && SharesKeyed(r.db)
  {
  }

  /**
   * A second call with the same arguments hands back the same record and
   * leaves the store as the first call left it.
   */
  lemma UpsertIdempotent(db: Db, absent: Absent, vault: string, user: string, fails: bool)
    ensures var first := VaultShareUpserted(db, absent, vault, user, fails);
      var second := VaultShareUpserted(first.db, absent, vault, user, fails);
      second.share == first.share && second.db == first.db
  {
  }
}
