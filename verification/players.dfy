/** The backend `UsersService` (backend/src/players/players.service.ts):
    lookup, upsert on login and the single-field profile updates. Every
    operation takes the current table and returns the table afterwards
    together with what the call returns or throws. */
module Players {
  import opened Wrappers
  import opened Errors
  import opened PlayerStore

  /** The table after a call, and the call's result or exception. */
  datatype Step<+T> = Step(store: Store, result: Result<T, ServiceError>)

  /** A database error that the service does not catch reaches the caller as is. */
  function Uncaught(e: DbError): ServiceError {
    Database(e.code)
  }

  /** `getUserById`: the row, or NotFound. */
  function GetUserById(store: Store, id: int): (r: Result<Player, ServiceError>)
    ensures r.Success? <==> id in store
    ensures r.Success? ==> r.value == store[id]
    ensures r.Failure? ==> r.error == NotFound
  {
    if id in store then Success(store[id]) else Failure(NotFound)
  }

  /** Loads the row, applies `edit`, saves it; save errors escape uncaught.
      This is the shape shared by `updateAvatar`, `updateLevel` and `updateStatus`. */
  function LoadEditSave(store: Store, id: int, edit: Player -> Player, dbFault: Option<string>): (r: Step<Player>)
    ensures r.result.Failure? ==> r.store == store
    ensures id !in store ==> r.result == Failure(NotFound)
    ensures id in store && UsernamesUnique(store) && edit(store[id]).username == store[id].username && dbFault.Some? ==>
              r.result == Failure(Database(dbFault.value))
    ensures id in store && UsernamesUnique(store) && edit(store[id]).username == store[id].username && dbFault.None? ==>
              r.result.Success?
    ensures r.result.Success? ==> id in store && OnlyRowChanged(store, r.store, id, edit(store[id])) && r.result.value == r.store[id]
    ensures UsernamesUnique(store) ==> UsernamesUnique(r.store)
  {
    match GetUserById(store, id)
    case Failure(e) => Step(store, Failure(e))
    case Success(p) =>
      var updated := edit(p);
      match Save(store, id, updated, dbFault)
      case Failure(e) => Step(store, Failure(Uncaught(e)))
      case Success(after) => Step(after, Success(updated))
  }

  /** `updateUsername`: a unique violation becomes Conflict, any other save
      failure InternalServerError. */
  function UpdateUsername(store: Store, id: int, username: string, dbFault: Option<string>): (r: Step<Player>)
    ensures r.result.Failure? ==> r.store == store
    ensures id !in store ==> r.result == Failure(NotFound)
    ensures id in store && TakenByOther(store, id, username) ==> r.result == Failure(Conflict)
    ensures id in store && !TakenByOther(store, id, username) && dbFault.Some? ==>
              r.result == Failure(if dbFault.value == UniqueViolation then Conflict else InternalServerError)
    ensures r.result.Success? <==> id in store && !TakenByOther(store, id, username) && dbFault.None?
    ensures r.result.Success? ==>
              OnlyRowChanged(store, r.store, id, store[id].(username := username)) && r.result.value == r.store[id]
    ensures UsernamesUnique(store) ==> UsernamesUnique(r.store)
  {
    match GetUserById(store, id)
    case Failure(e) => Step(store, Failure(e))
    case Success(p) =>
      var updated := p.(username := username);
      match Save(store, id, updated, dbFault)
      case Failure(e) => Step(store, Failure(if e.code == UniqueViolation then Conflict else InternalServerError))
      case Success(after) => Step(after, Success(updated))
  }

  /** `updateAvatar`: only the avatar of the row changes. */
  function UpdateAvatar(store: Store, id: int, avatar: string, dbFault: Option<string>): (r: Step<Player>)
    ensures r.result.Failure? ==> r.store == store
    ensures id !in store ==> r.result == Failure(NotFound)
    ensures id in store && UsernamesUnique(store) && dbFault.Some? ==> r.result == Failure(Database(dbFault.value))
    ensures id in store && UsernamesUnique(store) && dbFault.None? ==> r.result.Success?
    ensures r.result.Success? ==>
              OnlyRowChanged(store, r.store, id, store[id].(avatar := avatar)) && r.result.value == r.store[id]
    ensures UsernamesUnique(store) ==> UsernamesUnique(r.store)
  {
    LoadEditSave(store, id, (p: Player) => p.(avatar := avatar), dbFault)
  }

  /** The fixed amount one `updateLevel` call adds. */
  const LevelStep: real := 0.125

  /** `updateLevel`: the level grows by one eighth, nothing else changes. */
  function UpdateLevel(store: Store, id: int, dbFault: Option<string>): (r: Step<Player>)
    ensures r.result.Failure? ==> r.store == store
    ensures id !in store ==> r.result == Failure(NotFound)
    ensures id in store && UsernamesUnique(store) && dbFault.Some? ==> r.result == Failure(Database(dbFault.value))
    ensures id in store && UsernamesUnique(store) && dbFault.None? ==> r.result.Success?
    ensures r.result.Success? ==>
              && OnlyRowChanged(store, r.store, id, store[id].(level := store[id].level + 1.0 / 8.0))
              && r.result.value == r.store[id]
    ensures UsernamesUnique(store) ==> UsernamesUnique(r.store)
  {
    LoadEditSave(store, id, (p: Player) => p.(level := p.level + LevelStep), dbFault)
  }

  /** `updateStatus`: only the status of the row changes. */
  function UpdateStatus(store: Store, id: int, status: UserStatus, dbFault: Option<string>): (r: Step<Player>)
    ensures r.result.Failure? ==> r.store == store
    ensures id !in store ==> r.result == Failure(NotFound)
    ensures id in store && UsernamesUnique(store) && dbFault.Some? ==> r.result == Failure(Database(dbFault.value))
    ensures id in store && UsernamesUnique(store) && dbFault.None? ==> r.result.Success?
    ensures r.result.Success? ==>
              OnlyRowChanged(store, r.store, id, store[id].(status := status)) && r.result.value == r.store[id]
    ensures UsernamesUnique(store) ==> UsernamesUnique(r.store)
  {
    LoadEditSave(store, id, (p: Player) => p.(status := status), dbFault)
  }

  /** The avatar a new player gets: the croodles image named after the login. */
  function DefaultAvatar(login: string): string {
    "https://avatars.dicebear.com/api/croodles/" + login + ".svg"
  }

  /** The row `findOrCreate` builds for a first login. */
  function NewPlayer(login: string, email: string): Player {
    Player(login, DefaultAvatar(login), 0.0, Online, 0, 0, false, email, None)
  }

  /** `findOrCreate`: a known id only goes ONLINE; an unknown id gets a fresh
      row. A save failure (a second row with the same username, say) escapes
      uncaught. */
  function FindOrCreate(store: Store, id: int, login: string, email: string, dbFault: Option<string>): (r: Step<Player>)
    ensures r.result.Failure? ==> r.store == store
    ensures id in store && UsernamesUnique(store) && dbFault.Some? ==> r.result == Failure(Database(dbFault.value))
    ensures id in store && UsernamesUnique(store) && dbFault.None? ==> r.result.Success?
    ensures id in store && r.result.Success? ==>
              && OnlyRowChanged(store, r.store, id, store[id].(status := Online))
              && r.store.Keys == store.Keys
              && r.result.value == r.store[id]
    ensures id !in store && TakenByOther(store, id, login) ==> r.result == Failure(Database(UniqueViolation))
    ensures id !in store ==> (r.result.Success? <==> !TakenByOther(store, id, login) && dbFault.None?)
    ensures id !in store && !TakenByOther(store, id, login) && dbFault.Some? ==>
              r.result == Failure(Database(dbFault.value))
    ensures id !in store && r.result.Success? ==>
              && OnlyRowChanged(store, r.store, id, r.result.value)
              && |r.store| == |store| + 1
              && r.result.value.username == login
              && r.result.value.avatar == "https://avatars.dicebear.com/api/croodles/" + login + ".svg"
              && r.result.value.level == 0.0 && r.result.value.wins == 0 && r.result.value.losses == 0
              && r.result.value.status == Online && !r.result.value.two_fa
              && r.result.value.email == email && r.result.value.secret == None
    ensures UsernamesUnique(store) ==> UsernamesUnique(r.store)
  {
    if id in store then
      var found := store[id].(status := Online);
      match Save(store, id, found, dbFault)
      case Failure(e) => Step(store, Failure(Uncaught(e)))
      case Success(after) => Step(after, Success(found))
    else
      var created := NewPlayer(login, email);
      match Save(store, id, created, dbFault)
      case Failure(e) => Step(store, Failure(Uncaught(e)))
      case Success(after) => Step(after, Success(created))
  }

  /** A successful rename is what the next lookup sees. */
  lemma UpdateUsernameThenGet(store: Store, id: int, username: string, dbFault: Option<string>)
    requires UpdateUsername(store, id, username, dbFault).result.Success?
    ensures GetUserById(UpdateUsername(store, id, username, dbFault).store, id)
            == Success(store[id].(username := username))
  {
  }

  /** The record `findOrCreate` returns is the one stored under the id. */
  lemma FindOrCreateThenGet(store: Store, id: int, login: string, email: string, dbFault: Option<string>)
    requires FindOrCreate(store, id, login, email, dbFault).result.Success?
    ensures GetUserById(FindOrCreate(store, id, login, email, dbFault).store, id)
            == FindOrCreate(store, id, login, email, dbFault).result
  {
  }

  /** Logging in again is harmless: once a login has succeeded, a second one
      for the same id — whatever login name and email it carries — returns
      the same record and leaves the table as it is. The id is never reassigned
      and the first login's username and email are kept. */
  lemma LoginTwiceIsLoginOnce(store: Store, id: int, login1: string, email1: string,
                              login2: string, email2: string, dbFault: Option<string>)
    requires UsernamesUnique(store)
    requires FindOrCreate(store, id, login1, email1, dbFault).result.Success?
    ensures var first := FindOrCreate(store, id, login1, email1, dbFault);
            FindOrCreate(first.store, id, login2, email2, None) == Step(first.store, first.result)
  {
  }

  /** `updateLevel` called `n` times in a row on a healthy database. */
  function RepeatUpdateLevel(store: Store, id: int, n: nat): Store
    decreases n
  {
    if n == 0 then store else RepeatUpdateLevel(UpdateLevel(store, id, None).store, id, n - 1)
  }

  /** Levels accumulate without a cap: `n` calls add exactly n/8 and leave
      every other field and every other row as they were. */
  lemma {:induction false} RepeatUpdateLevelAddsEighths(store: Store, id: int, n: nat)
    requires id in store && UsernamesUnique(store)
    ensures OnlyRowChanged(store, RepeatUpdateLevel(store, id, n), id,
                           store[id].(level := store[id].level + n as real / 8.0))
    decreases n
  {
    if n > 0 {
      var next := UpdateLevel(store, id, None).store;
      RepeatUpdateLevelAddsEighths(next, id, n - 1);
    }
  }
}
