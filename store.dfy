/**
 * The entity store the indexing framework hands to every handler as
 * `context`: one table per entity, each with `get(id)` and `set(record)`.
 * Handlers run one at a time, so every `await context.X.get/set` is an
 * ordinary read or update of a map here.
 */
module Store {

  datatype Option<T> = None | Some(value: T)

  /** A vault contract and its creation metadata, keyed by the vault's address. */
  datatype Vault = Vault(
    id: string,
    sender: string,
    tokenA: string,
    allowTokenA: bool,
    tokenB: string,
    allowTokenB: bool,
    count: int,
    fee: int,
    createdAtTimestamp: int,
    holdersCount: int)

  /** The balance one user holds in one vault, keyed by `"<vault>-<user>"`. */
  datatype VaultShare = VaultShare(
    id: string,
    vaultShareBalance: int,
    vaultId: string,
    userId: string)

  /** A user carries its address and nothing else. */
  datatype User = User(id: string)

  /** The immutable record written once per log, keyed by its event id. */
  datatype EventRecord =
    | FactoryVaultCreated(
        id: string, sender: string, ichiVault: string,
        tokenA: string, allowTokenA: bool, tokenB: string, allowTokenB: bool,
        fee: int, count: int)
    | VaultApproval(id: string, vault: string, owner: string, spender: string, value: int)
    | VaultDeposit(
        id: string, vault: string, sender: string, to: string, shares: int,
        amount0: int, amount1: int, tick: int, createdAtTimestamp: int, sqrtPrice: int,
        totalAmount0: int, totalAmount1: int,
        totalAmount0BeforeEvent: int, totalAmount1BeforeEvent: int, totalSupply: int)
    | VaultRebalance(
        id: string, vault: string, tick: int, createdAtTimestamp: int, sqrtPrice: int,
        totalAmount0: int, totalAmount1: int, feeAmount0: int, feeAmount1: int,
        totalSupply: int)
    | VaultTransfer(id: string, vault: string, from: string, to: string, value: int)
    | VaultWithdraw(
        id: string, vault: string, sender: string, to: string, shares: int,
        amount0: int, amount1: int, tick: int, createdAtTimestamp: int, sqrtPrice: int,
        totalAmount0: int, totalAmount1: int,
        totalAmount0BeforeEvent: int, totalAmount1BeforeEvent: int, totalSupply: int)

  /** The whole store as a value: what the handlers' contracts speak about. */
  datatype Db = Db(
    users: set<string>,
    vaults: map<string, Vault>,
    shares: map<string, VaultShare>,
    events: map<string, EventRecord>)

  /**
   * Which of JavaScript's two absent values the framework's `get` yields for
   * a missing key. The helpers test for them differently, so the model keeps
   * them apart.
   */
  datatype Absent = AbsentIsNull | AbsentIsUndefined

  /** The result of a `get`: one of the two absent values, or the record. */
  datatype Lookup<T> = Null | Undefined | Found(value: T) {
    /** JavaScript's `!x` on a lookup result: both absent values are falsy, a record is not. */
    predicate IsFalsy() { !Found? }
  }

  function Get<T>(m: map<string, T>, key: string, absent: Absent): (r: Lookup<T>)
    ensures r.Found? <==> key in m
    ensures r.Found? ==> r.value == m[key]
  {
    if key in m then Found(m[key])
    else if absent == AbsentIsNull then Null
    else Undefined
  }

  function GetUser(users: set<string>, key: string, absent: Absent): (r: Lookup<User>)
    ensures r.Found? <==> key in users
    ensures r.Found? ==> r.value == User(key)
  {
    if key in users then Found(User(key))
    else if absent == AbsentIsNull then Null
    else Undefined
  }

  /** `set(record)` keys every table by the record's own `id` field. */
  function PutVault(db: Db, r: Vault): Db {
    db.(vaults := db.vaults[r.id := r])
  }

  function PutShare(db: Db, s: VaultShare): Db {
    db.(shares := db.shares[s.id := s])
  }

  function PutUser(db: Db, u: User): Db {
    db.(users := db.users + {u.id})
  }

  function PutEvent(db: Db, e: EventRecord): Db {
    db.(events := db.events[e.id := e])
  }

  /** The handler context: the entity tables, updated in place. */
  class Context {
    var users: set<string>
    var vaults: map<string, Vault>
    var shares: map<string, VaultShare>
    var events: map<string, EventRecord>
    const absent: Absent

    constructor (absent: Absent, initial: Db)
      ensures this.absent == absent && Snapshot() == initial
    {
      this.absent := absent;
      users, vaults, shares, events := initial.users, initial.vaults, initial.shares, initial.events;
    }

    function Snapshot(): Db
      reads this
    {
      Db(users, vaults, shares, events)
    }

    function GetUserRecord(id: string): Lookup<User>
      reads this
    {
      GetUser(users, id, absent)
    }

    function GetVault(id: string): Lookup<Vault>
      reads this
    {
      Get(vaults, id, absent)
    }

    function GetShare(id: string): Lookup<VaultShare>
      reads this
    {
      Get(shares, id, absent)
    }

    method SetUser(u: User)
      modifies this
      ensures Snapshot() == PutUser(old(Snapshot()), u)
    {
      users := users + {u.id};
    }

    method SetVault(r: Vault)
      modifies this
      ensures Snapshot() == PutVault(old(Snapshot()), r)
    {
      vaults := vaults[r.id := r];
    }

    method SetShare(s: VaultShare)
      modifies this
      ensures Snapshot() == PutShare(old(Snapshot()), s)
    {
      shares := shares[s.id := s];
    }

    method SetEvent(e: EventRecord)
      modifies this
      ensures Snapshot() == PutEvent(old(Snapshot()), e)
    {
      events := events[e.id := e];
    }
  }
}
