/** The player table behind the backend `UsersService`: a finite map from the
    login provider's id to the player's row, with the one integrity constraint
    the entity declares — usernames are unique. */
module PlayerStore {
  import opened Wrappers

  datatype UserStatus = Online | Offline | InGame

  /** One row of the player table. `level` is a real so that the 0.125 steps
      are exact; `secret` is null until two-factor enrollment starts. */
  datatype Player = Player(
    username: string,
    avatar: string,
    level: real,
    status: UserStatus,
    wins: int,
    losses: int,
    two_fa: bool,
    email: string,
    secret: Option<string>)

  type Store = map<int, Player>

  /** A failure reported by the database driver, identified by its SQLSTATE. */
  datatype DbError = DbError(code: string)

  /** PostgreSQL's `unique_violation`. */
  const UniqueViolation: string := "23505"

  /** Some row other than `id` already uses `name`. */
  predicate TakenByOther(store: Store, id: int, name: string) {
    exists k :: k in store && k != id && store[k].username == name
  }

  /** The unique constraint on `username`. */
  predicate UsernamesUnique(store: Store) {
    forall a, b :: a in store && b in store && a != b ==> store[a].username != store[b].username
  }

  /** `after` differs from `before` at most in the row `id`, which now holds `p`. */
  predicate OnlyRowChanged(before: Store, after: Store, id: int, p: Player) {
    && after.Keys == before.Keys + {id}
    && after[id] == p
    && forall k :: k in before && k != id ==> after[k] == before[k]
  }

  /** `entity.save()`: writes the row `p` under `id` (an insert when `id` is
      new, an update otherwise). The unique constraint rejects the row when
      another row holds its username; `dbFault` is any other failure the
      database may report for this statement. */
  function Save(store: Store, id: int, p: Player, dbFault: Option<string>): (r: Result<Store, DbError>)
    ensures TakenByOther(store, id, p.username) ==> r == Failure(DbError(UniqueViolation))
    ensures !TakenByOther(store, id, p.username) && dbFault.Some? ==> r == Failure(DbError(dbFault.value))
    ensures r.Success? <==> !TakenByOther(store, id, p.username) && dbFault.None?
    ensures r.Success? ==> OnlyRowChanged(store, r.value, id, p)
    ensures r.Success? && UsernamesUnique(store) ==> UsernamesUnique(r.value)
  {
    if TakenByOther(store, id, p.username) then
      Failure(DbError(UniqueViolation))
    else if dbFault.Some? then
      Failure(DbError(dbFault.value))
    else
      Success(store[id := p])
  }

  /** The partial rows the service passes to `repository.update`. */
  datatype Patch = SetSecret(secret: string) | SetTwoFa(on: bool)

  function ApplyPatch(p: Player, patch: Patch): Player {
    match patch
    case SetSecret(s) => p.(secret := Some(s))
    case SetTwoFa(on) => p.(two_fa := on)
  }

  /** `repository.update(id, patch)`: an UPDATE keyed by `id`. When no row has
      that id the statement matches nothing and succeeds without effect. */
  function Update(store: Store, id: int, patch: Patch, dbFault: Option<string>): (r: Result<Store, DbError>)
    ensures r.Success? <==> dbFault.None?
    ensures r.Success? && id !in store ==> r.value == store
    ensures r.Success? && id in store ==> OnlyRowChanged(store, r.value, id, ApplyPatch(store[id], patch))
    ensures r.Success? ==> forall k :: k in r.value ==> k in store && r.value[k].username == store[k].username
    ensures r.Success? && UsernamesUnique(store) ==> UsernamesUnique(r.value)
  {
    if dbFault.Some? then
      Failure(DbError(dbFault.value))
    else if id in store then
      Success(store[id := ApplyPatch(store[id], patch)])
    else
      Success(store)
  }
}
