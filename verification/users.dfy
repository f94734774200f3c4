/** The array-backed `UsersService` (src/users/users.service.ts). Users live
    in an in-memory list; only the username is checked for duplicates. */
module Users {
  import opened Wrappers
  import opened Errors

  /** One entry of the list. The three numeric constructor arguments are read
      as level, wins and losses. */
  datatype User = User(
    id: string,
    username: string,
    avatar: string,
    level: real,
    wins: int,
    losses: int,
    status: string)

  /** The list after a call, and the call's result or exception. */
  datatype Call<+T> = Call(users: seq<User>, result: Result<T, ServiceError>)

  /** The invariant `duplicateUser` is there to keep. */
  predicate UsernamesDistinct(users: seq<User>) {
    forall i, j :: 0 <= i < j < |users| ==> users[i].username != users[j].username
  }

  predicate HasId(users: seq<User>, id: string) {
    exists i :: 0 <= i < |users| && users[i].id == id
  }

  predicate HasUsername(users: seq<User>, username: string) {
    exists i :: 0 <= i < |users| && users[i].username == username
  }

  /** `users.findIndex(player => player.id === id)`: the first matching
      index, or -1. */
  function FindIndex(users: seq<User>, id: string): (r: int)
    ensures -1 <= r < |users|
    ensures r == -1 <==> !HasId(users, id)
    ensures r >= 0 ==> users[r].id == id && forall i :: 0 <= i < r ==> users[i].id != id
  {
    if |users| == 0 then -1
    else if users[0].id == id then 0
    else
      var k := FindIndex(users[1..], id);
      assert forall i :: 1 <= i < |users| ==> users[i] == users[1..][i - 1];
      if k == -1 then -1 else k + 1
  }

  /** `findUser`: the first user with the id and its index, or NotFound
      (`users[-1]` is undefined). */
  function FindUser(users: seq<User>, id: string): (r: Result<(User, nat), ServiceError>)
    ensures r.Failure? <==> !HasId(users, id)
    ensures r.Failure? ==> r.error == NotFound
    ensures r.Success? ==>
              && r.value.1 < |users|
              && r.value.0 == users[r.value.1]
              && r.value.0.id == id
              && forall i :: 0 <= i < r.value.1 ==> users[i].id != id
  {
    var k := FindIndex(users, id);
    if k < 0 then Failure(NotFound) else Success((users[k], k))
  }

  /** `users.find(player => player.username === username)`: the first user
      with that username, or undefined. */
  function FindByUsername(users: seq<User>, username: string): (r: Option<User>)
    ensures r.None? <==> !HasUsername(users, username)
    ensures r.Some? ==> r.value.username == username
    ensures r.Some? ==>
              exists i :: 0 <= i < |users| && users[i] == r.value &&
                          forall j :: 0 <= j < i ==> users[j].username != username
  {
    if |users| == 0 then None
    else if users[0].username == username then Some(users[0])
    else
      assert forall i :: 1 <= i < |users| ==> users[i] == users[1..][i - 1];
      FindByUsername(users[1..], username)
  }

  /** `duplicateUser`: throws when the search finds a user (a user object is
      always truthy) — as a NotFoundException, as written. The id is not
      looked at. */
  function DuplicateUser(users: seq<User>, id: string, username: string): (r: Result<(), ServiceError>)
    ensures r.Failure? <==> HasUsername(users, username)
    ensures r.Failure? ==> r.error == NotFound
  {
    match FindByUsername(users, username)
    case Some(_) => Failure(NotFound)
    case None => Success(())
  }

  /** The user `insertUser` appends. */
  function NewUser(id: string, username: string, avatar: string): User {
    User(id, username, avatar, 0.0, 0, 0, "online")
  }

  /** `insertUser`: rejects a taken username, otherwise appends one user. */
  function InsertUser(users: seq<User>, id: string, username: string, avatar: string): (r: Call<()>)
    ensures r.result.Failure? <==> HasUsername(users, username)
    ensures r.result.Failure? ==> r.users == users && r.result.error == NotFound
    ensures r.result.Success? ==>
              && |r.users| == |users| + 1
              && r.users[..|users|] == users
              && r.users[|users|] == User(id, username, avatar, 0.0, 0, 0, "online")
    ensures UsernamesDistinct(users) ==> UsernamesDistinct(r.users)
  {
    match DuplicateUser(users, id, username)
    case Failure(e) => Call(users, Failure(e))
    case Success(_) => Call(users + [NewUser(id, username, avatar)], Success(()))
  }

  /** `getAllUsers`: a shallow copy `[...users]`, element by element. */
  method GetAllUsers(users: seq<User>) returns (copy: seq<User>)
    ensures copy == users
  {
    copy := [];
    var i := 0;
    while i < |users|
      invariant 0 <= i <= |users|
      invariant |copy| == i
      invariant forall j :: 0 <= j < i ==> copy[j] == users[j]
    {
      copy := copy + [users[i]];
      i := i + 1;
    }
  }

  /** Replaces the entry at `k` by `u`, as `this.users[userIndex] = …` does. */
  function Replace(users: seq<User>, k: nat, u: User): (r: seq<User>)
    requires k < |users|
    ensures |r| == |users| && r[k] == u
    ensures forall i :: 0 <= i < |users| && i != k ==> r[i] == users[i]
  {
    users[k := u]
  }

  /** `updateUsername` as written: the copy gets `id = id` and the username
      argument is never stored, so the list comes back unchanged. */
  function UpdateUsername(users: seq<User>, id: string, username: string): (r: Call<()>)
    ensures r.users == users
    ensures r.result.Success? <==> HasId(users, id)
    ensures r.result.Failure? ==> r.result.error == NotFound
  {
    match FindUser(users, id)
    case Failure(e) => Call(users, Failure(e))
    case Success((u, k)) =>
      var copy := if username != "" then u.(id := id) else u;
      Call(Replace(users, k, copy), Success(()))
  }

  /** `updateLevel`: the first user with the id gets the larger of its level
      and `lvl`; every other entry stays. */
  function UpdateLevel(users: seq<User>, id: string, lvl: real): (r: Call<()>)
    ensures |r.users| == |users|
    ensures r.result.Success? <==> HasId(users, id)
    ensures r.result.Failure? ==> r.users == users && r.result.error == NotFound
    ensures r.result.Success? ==>
              var k := FindIndex(users, id);
              && 0 <= k
              && r.users[k] == users[k].(level := if lvl > users[k].level then lvl else users[k].level)
              && (forall i :: 0 <= i < |users| && i != k ==> r.users[i] == users[i])
    ensures forall i :: 0 <= i < |users| ==> r.users[i].level >= users[i].level
    ensures UsernamesDistinct(users) ==> UsernamesDistinct(r.users)
  {
    match FindUser(users, id)
    case Failure(e) => Call(users, Failure(e))
    case Success((u, k)) =>
      var updated := if lvl > u.level then u.(level := lvl) else u;
      Call(Replace(users, k, updated), Success(()))
  }

  /** `updateStatus`: only the status of the first user with the id changes. */
  function UpdateStatus(users: seq<User>, id: string, status: string): (r: Call<()>)
    ensures |r.users| == |users|
    ensures r.result.Success? <==> HasId(users, id)
    ensures r.result.Failure? ==> r.users == users && r.result.error == NotFound
    ensures r.result.Success? ==>
              var k := FindIndex(users, id);
              && 0 <= k
              && r.users[k] == users[k].(status := status)
              && (forall i :: 0 <= i < |users| && i != k ==> r.users[i] == users[i])
    ensures UsernamesDistinct(users) ==> UsernamesDistinct(r.users)
  {
    match FindUser(users, id)
    case Failure(e) => Call(users, Failure(e))
    case Success((u, k)) => Call(Replace(users, k, u.(status := status)), Success(()))
  }

  /** One call into the service that can change the list. */
  datatype Command =
    | Insert(id: string, username: string, avatar: string)
    | RenameUser(id: string, username: string)
    | RaiseLevel(id: string, lvl: real)
    | SetStatus(id: string, status: string)

  function Apply(users: seq<User>, c: Command): seq<User> {
    match c
    case Insert(id, name, avatar) => InsertUser(users, id, name, avatar).users
    case RenameUser(id, name) => UpdateUsername(users, id, name).users
    case RaiseLevel(id, lvl) => UpdateLevel(users, id, lvl).users
    case SetStatus(id, status) => UpdateStatus(users, id, status).users
  }

  /** The list after a sequence of calls, thrown calls included. */
  function Run(users: seq<User>, cs: seq<Command>): seq<User>
    decreases |cs|
  {
    if |cs| == 0 then users else Run(Apply(users, cs[0]), cs[1..])
  }

  /** Starting from any list with distinct usernames (the empty list the
      service starts with, in particular), no sequence of calls produces two
      users with the same username. */
  lemma {:induction false} RunKeepsUsernamesDistinct(users: seq<User>, cs: seq<Command>)
    requires UsernamesDistinct(users)
    ensures UsernamesDistinct(Run(users, cs))
    decreases |cs|
  {
    if |cs| > 0 {
      RunKeepsUsernamesDistinct(Apply(users, cs[0]), cs[1..]);
    }
  }

  /** A user inserted under a fresh id is what `findUser` finds for it, at
      the end of the list. */
  lemma InsertThenFind(users: seq<User>, id: string, username: string, avatar: string)
    requires !HasId(users, id)
    requires InsertUser(users, id, username, avatar).result.Success?
    ensures var after := InsertUser(users, id, username, avatar).users;
            FindUser(after, id) == Success((NewUser(id, username, avatar), |users|))
  {
  }

  /** Appending a user does not change which user an id already present
      resolves to. */
  lemma {:induction false} FindIndexAppend(users: seq<User>, u: User, id: string)
    requires HasId(users, id)
    ensures FindIndex(users + [u], id) == FindIndex(users, id)
    decreases |users|
  {
    if users[0].id != id {
      assert (users + [u])[1..] == users[1..] + [u];
      assert users[1..][FindIndex(users, id) - 1].id == id;
      FindIndexAppend(users[1..], u, id);
    }
  }

  /** Ids are not checked: a user with an id already in the list but a
      username no one has is accepted, the list then holds the id twice, and
      `findUser` keeps resolving the id to the earlier user. */
  lemma DuplicateIdsAccepted(users: seq<User>, id: string, username: string, avatar: string)
    requires HasId(users, id)
    requires !HasUsername(users, username)
    ensures var r := InsertUser(users, id, username, avatar);
            && r.result.Success?
            && r.users[|users|].id == id
            && FindUser(r.users, id) == FindUser(users, id)
            && FindIndex(r.users, id) < |users|
  {
    FindIndexAppend(users, NewUser(id, username, avatar), id);
  }
}
