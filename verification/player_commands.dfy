/** Sequences of calls into the backend `UsersService`, and the unique
    constraint on usernames holding across all of them. */
module PlayerCommands {
  import opened Wrappers
  import opened PlayerStore
  import opened Players
  import opened TwoFactor

  /** One state-changing call, together with the database failure (if any)
      its statement meets. */
  datatype Command =
    | Login(id: int, login: string, email: string, dbFault: Option<string>)
    | Rename(id: int, username: string, dbFault: Option<string>)
    | SetAvatar(id: int, avatar: string, dbFault: Option<string>)
    | LevelUp(id: int, dbFault: Option<string>)
    | SetStatus(id: int, status: UserStatus, dbFault: Option<string>)
    | StoreSecret(id: int, secret: string, dbFault: Option<string>)
    | EnableTwoFa(id: int, dbFault: Option<string>)
    | GenerateSecret(id: int, secret: string, dbFault: Option<string>)

  /** The table after one call; a call never removes a row. */
  function Apply(store: Store, c: Command): (r: Store)
    ensures store.Keys <= r.Keys
  {
    match c
    case Login(id, login, email, f) => FindOrCreate(store, id, login, email, f).store
    case Rename(id, name, f) => UpdateUsername(store, id, name, f).store
    case SetAvatar(id, avatar, f) => UpdateAvatar(store, id, avatar, f).store
    case LevelUp(id, f) => UpdateLevel(store, id, f).store
    case SetStatus(id, status, f) => UpdateStatus(store, id, status, f).store
    case StoreSecret(id, secret, f) => SetTwoFactorAuthenticationSecret(store, id, secret, f).store
    case EnableTwoFa(id, f) => TurnOnTwoFactorAuthentication(store, id, f).store
    case GenerateSecret(id, secret, f) => GenerateTwoFactorAuthenticationSecret(store, id, secret, f).store
  }

  function Run(store: Store, cs: seq<Command>): Store
    decreases |cs|
  {
    if |cs| == 0 then store else Run(Apply(store, cs[0]), cs[1..])
  }

  /** Whatever the calls and however the database fails, no two players
      end up with the same username. */
  lemma {:induction false} RunKeepsUsernamesUnique(store: Store, cs: seq<Command>)
    requires UsernamesUnique(store)
    ensures UsernamesUnique(Run(store, cs))
    decreases |cs|
  {
    if |cs| > 0 {
      RunKeepsUsernamesUnique(Apply(store, cs[0]), cs[1..]);
    }
  }

  /** Rows are never deleted: every id known before a sequence of calls is
      still known after it. */
  lemma {:induction false} RunKeepsIds(store: Store, cs: seq<Command>)
    ensures store.Keys <= Run(store, cs).Keys
    decreases |cs|
  {
    if |cs| > 0 {
      RunKeepsIds(Apply(store, cs[0]), cs[1..]);
    }
  }
}
