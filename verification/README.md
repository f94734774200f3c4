# Player stores of the game backend, modelled in Dafny

This project models the two player-store services of a multiplayer game
backend and proves what they promise about the stored players.

- **The backend `UsersService`** (`backend/src/players/players.service.ts`)
  keeps players in a database table keyed by the id the external login
  provider assigns. It resolves a login into a player record (`findOrCreate`).
  It updates single profile fields: username, avatar, level and status. It
  derives achievement tiers from a win count. It classifies the outcome of
  session-token verification. It writes the two-factor secret and the
  two-factor flag. The table is modelled as `map<int, Player>`. Its one
  integrity constraint is the unique index on `username`, which the database
  reports as SQLSTATE `23505` (`unique_violation` in PostgreSQL).
- **The array-backed `UsersService`** (`src/users/users.service.ts`) keeps
  users in an in-memory list, modelled as `seq<User>`. It rejects a taken
  username on insert. It finds users by id and updates level, status and
  (nominally) username in place.

Every operation takes the store before the call and returns the store after
it, together with the call's value or the exception it throws (`Players.Step`, `Users.Call`). So "a failed call changes nothing"
is a contract, not a consequence of the encoding.

Files:

| file | module | models |
|---|---|---|
| wrappers.dfy | `Wrappers` | `Option` and `Result` |
| errors.dfy | `Errors` | the NestJS exceptions thrown, plus a database error that escapes uncaught |
| player_store.dfy | `PlayerStore` | the player row, the table, `entity.save()` and `repository.update()` with the unique constraint |
| players.dfy | `Players` | `getUserById`, `findOrCreate`, `updateUsername`, `updateAvatar`, `updateLevel`, `updateStatus` |
| achievements.dfy | `Achievements` | `getAchievements` and the JavaScript `Array.prototype.slice` it relies on |
| tokens.dfy | `Tokens` | the classification step of `verifyToken` |
| two_factor.dfy | `TwoFactor` | `setTwoFactorAuthenticationSecret`, `turnOnTwoFactorAuthentication`, the store write of `generateTwoFactorAuthenticationSecret` |
| player_commands.dfy | `PlayerCommands` | arbitrary sequences of backend calls |
| users.dfy | `Users` | the array-backed service |

Modelling choices:

- **Database failures.** Save and update take a parameter
  `dbFault: Option<string>`. It is the SQLSTATE of any failure the database
  reports other than the unique constraint. `Save` reports `23505` whenever
  another row already holds the username, and `dbFault` otherwise. Only
  `updateUsername` catches save errors. The other operations let the driver's
  error escape, as `ServiceError.Database(code)`.
- **TypeORM `update(id, patch)`** is an UPDATE keyed by id. When no row has
  that id it matches nothing and succeeds without effect. The model does the
  same.
- **Level** is a `real`. A step of 0.125 is then exact, as it is in IEEE
  doubles for the magnitudes a game reaches.
- **The `UserStatus` enum** (`player_status.enum`) is not part of this model.
  It is assumed to be `ONLINE | OFFLINE | IN_GAME`. No property depends on the
  values other than `ONLINE`.
- **The `User` class** (`users.model`) is not part of this model. Its
  constructor's three numeric arguments, all `0` on insert, are read as level,
  wins and losses. Only `level` is used by the service.
- **Payload types in `verifyToken`.** A decoded JWT payload is classified by
  its JavaScript type. `typeof null === 'object'`, so `'id' in null` throws a
  TypeError, which the surrounding `catch` turns into BadRequest like every
  other failure.

Behaviour the model keeps exactly as the code has it, although a reader might
expect otherwise:

- A username clash when `findOrCreate` inserts a new player is not mapped to
  Conflict. The raw database error escapes.
- Only `updateUsername` maps a unique violation to Conflict. The other updates
  can never violate the constraint anyway, because they keep the row's
  username.
- `verifyToken` does not distinguish an invalid token from a payload without
  `id`. Both end in BadRequest with the message "Token expired".
- `setTwoFactorAuthenticationSecret` and `turnOnTwoFactorAuthentication`
  return nothing, not the updated record.
- The array-backed `duplicateUser` throws a NotFoundException (not a conflict)
  for a taken username.
- The array-backed `updateUsername` never changes the username. It assigns
  `id = id` to a copy of the user and stores the copy back.
- `getAchievements` gives `[]` for 2 to 4 wins, the same as for 0 wins,
  because the fall-through start index 4 slices past the end of the
  four-element list.

## Model

| member | source | states |
|---|---|---|
| PlayerStore.Save | dist/players/player.entity.js:50-53 | saving a row fails with SQLSTATE 23505 whenever another id holds its username; with no clash it fails with the code of the given database fault (which may itself be 23505), and otherwise succeeds, writing only that row and keeping usernames unique |
| PlayerStore.Update | backend/src/players/players.service.ts:161-167 | a keyed UPDATE succeeds unless the database faults; it patches only the row with that id, is a no-op when no such row exists, and never changes a username |
| Players.GetUserById | backend/src/players/players.service.ts:39-45 | returns the stored row exactly when the id is present, and throws NotFound otherwise |
| Players.LoadEditSave | backend/src/players/players.service.ts:76-101 | the load, edit and save shape: NotFound for an absent id; when the edit keeps the username, a database fault fails the call with that fault's code uncaught and no fault means success; a failure leaves the table unchanged; a success changes only the loaded row, to the edited record, and returns it |
| Players.UpdateUsername | backend/src/players/players.service.ts:59-74 | NotFound for an absent id; Conflict whenever another player holds the name, and also for any other save failure carrying code 23505; InternalServerError for a save failure with any other code; the table is unchanged in all of these; on success only the username of that row changes |
| Players.UpdateUsernameThenGet | backend/src/players/players.service.ts:59-74 | after a successful rename, looking the id up returns the old record with the new username |
| Players.UpdateAvatar | backend/src/players/players.service.ts:76-82 | NotFound for an absent id; on a sound table a database fault escapes as that fault's code and no fault means success; failures leave the table unchanged; success changes only that row's avatar |
| Players.UpdateLevel | backend/src/players/players.service.ts:89-94 | NotFound for an absent id; on a sound table a database fault escapes as that fault's code and no fault means success; failures leave the table unchanged; on success the row's level grows by exactly one eighth and nothing else changes |
| Players.RepeatUpdateLevelAddsEighths | backend/src/players/players.service.ts:89-94 | on a database that does not fault, starting from a table with unique usernames, n successive calls add exactly n/8 to the level, without a cap, and change no other field or row |
| Players.UpdateStatus | backend/src/players/players.service.ts:96-101 | NotFound for an absent id; on a sound table a database fault escapes as that fault's code and no fault means success; failures leave the table unchanged; on success only that row's status changes |
| Players.FindOrCreate | backend/src/players/players.service.ts:120-147 | a known id only has its status set to ONLINE and that row is returned, or, when the database faults, the fault escapes as its code; an unknown id gains exactly one new row with username = login, the croodles avatar URL for login, level, wins and losses 0, ONLINE, 2FA off, the given email and no secret; a clash with an existing username escapes as database error 23505, and any other fault escapes as its own code; failures leave the table unchanged |
| Players.FindOrCreateThenGet | backend/src/players/players.service.ts:123-146 | the record a successful `findOrCreate` returns is the one a lookup by the id then finds |
| Players.LoginTwiceIsLoginOnce | backend/src/players/players.service.ts:123-128 | starting from a table with unique usernames, after a successful login a second login for the same id, on a database that does not fault and with any login name and email, returns the same record and leaves the table unchanged |
| Achievements.Slice | backend/src/players/players.service.ts:117 | `slice(start)` is always a suffix; a negative start keeps the last -start elements and a non-negative one drops the first start elements |
| Achievements.GetAchievements | backend/src/players/players.service.ts:103-118 | the result is a suffix of gold, silver, bronze, first: all four for 20 or more wins, three for 10 to 19, two for 5 to 9, only first for exactly 1, and none for 0, for 2 to 4, or for a negative count |
| Achievements.AchievementsMonotone | backend/src/players/players.service.ts:104-117 | more wins never earn fewer tiers (and the smaller list is a suffix of the larger), except going from 1 win to 2 to 4 wins |
| Achievements.AchievementsDropAfterFirstWin | backend/src/players/players.service.ts:113-116 | 1 win earns first, while 2 to 4 wins earn nothing |
| Tokens.VerifyToken | backend/src/players/players.service.ts:149-159 | the decoded claims are returned exactly when verification succeeded and the payload is an object with an id claim; every other outcome, including null payloads, is BadRequest |
| TwoFactor.Write | backend/src/players/players.service.ts:161-167 | a repository update succeeds exactly when the database does not fault; a fault escapes with the table unchanged |
| TwoFactor.SetTwoFactorAuthenticationSecret | backend/src/players/players.service.ts:161-163 | fails exactly when the database faults, with that fault's code escaping and the table unchanged; on success only the row's secret changes, to the given value (an absent id changes nothing); two_fa is never touched |
| TwoFactor.TurnOnTwoFactorAuthentication | backend/src/players/players.service.ts:165-167 | fails exactly when the database faults, with that fault's code escaping and the table unchanged; on success only the row's two_fa becomes true (an absent id changes nothing); no secret is touched |
| TwoFactor.GenerateTwoFactorAuthenticationSecret | backend/src/players/players.service.ts:171-179 | fails exactly when the database faults, with that fault's code escaping and the table unchanged; on success the returned secret is the one stored on the user's row, only the secret changes, and two_fa is never touched |
| TwoFactor.EnrollmentWritesOneField | backend/src/players/players.service.ts:161-178 | no enrollment write changes both two_fa and secret of any row |
| PlayerCommands.Apply | backend/src/players/players.service.ts:120-178 | no backend call removes a row |
| PlayerCommands.RunKeepsUsernamesUnique | dist/players/player.entity.js:52 | any sequence of backend calls, under any database faults, keeps usernames unique |
| PlayerCommands.RunKeepsIds | backend/src/players/players.service.ts:120-178 | any sequence of backend calls keeps every known id, so players are created once and never deleted |
| Users.FindIndex | src/users/users.service.ts:49 | `findIndex` returns -1 exactly when no user has the id, and otherwise the first index whose user has it |
| Users.FindUser | src/users/users.service.ts:48-55 | NotFound exactly when no user has the id; otherwise the first index with that id and the user stored there |
| Users.FindByUsername | src/users/users.service.ts:58 | `find` returns nothing exactly when no user has the username, and otherwise the first user that has it |
| Users.DuplicateUser | src/users/users.service.ts:57-62 | throws (NotFound) exactly when some user already has the username; the id plays no part |
| Users.InsertUser | src/users/users.service.ts:8-12 | fails, list unchanged, exactly when the username is taken; otherwise appends one user built from id, username, avatar, 0, 0, 0 and "online" after the unchanged old list; distinct usernames stay distinct |
| Users.GetAllUsers | src/users/users.service.ts:14-16 | the copy equals the stored list |
| Users.Replace | src/users/users.service.ts:29 | the indexed assignment changes only the entry at that index |
| Users.UpdateUsername | src/users/users.service.ts:23-30 | the list is unchanged whatever the arguments; NotFound exactly when no user has the id |
| Users.UpdateLevel | src/users/users.service.ts:32-39 | NotFound with the list unchanged when no user has the id; otherwise the first user with it gets the maximum of its level and lvl, all other entries and the length stay, and no level ever decreases |
| Users.UpdateStatus | src/users/users.service.ts:41-46 | NotFound with the list unchanged when no user has the id; otherwise only the status of the first user with it changes, with the length unchanged |
| Users.RunKeepsUsernamesDistinct | src/users/users.service.ts:57-61 | any sequence of inserts and updates, starting from distinct usernames, keeps the usernames pairwise distinct |
| Users.InsertThenFind | src/users/users.service.ts:8-12 | a user inserted under an id no one has yet is found by `findUser` for that id, at the end of the list |
| Users.DuplicateIdsAccepted | src/users/users.service.ts:8-12 | for every list, inserting a user whose id is already present but whose username is free succeeds, the list then holds the id twice, and `findUser` still resolves the id to the earlier user |

## Left out

- `getUserByUsername` (backend/src/players/players.service.ts:47-53): it passes the username to `findOne`, which TypeORM treats as a primary-key value, not as a username lookup. The model does not cover this operation.
- `getUsers` (backend/src/players/players.service.ts:55-57): a filtered query inside the repository, whose code is not part of this model.
- `generateSecretQr`, `pipeQrCodeStream`: they stream a QR image to an HTTP response, which is I/O.
- `verifyTwoFactorAuthenticationCodeValid`: a TOTP check by the `otplib` library, which involves cryptography and the clock.
- TwoFactor.GenerateTwoFactorAuthenticationSecret: takes the generated secret as an input and returns only it. The `otpauth_url` built by `authenticator.keyuri` from the email and the `APP_NAME` environment variable is a foreign library call and is not returned.
- Tokens.VerifyToken: signature and expiry checking by `@nestjs/jwt` is an input (`Decoding`), not modelled. The exception's message is not modelled.
- `getAchievements` reads the win count of a user loaded by id and dereferences `null` when there is none. The model is the tier function of the win count.
- The check-then-act race between two concurrent `findOrCreate` calls for the same new id: the model runs calls one after another. In that setting a second create cannot happen, because the first call has inserted the row.
- `console.log` calls and `dotenv` configuration loading: I/O.
- Failures of the read (`findOne`, backend/src/players/players.service.ts:40 and :123): only writes can fail in the model. A failing read in `updateUsername` happens outside its `try` (:61), so its error would escape raw rather than as InternalServerError. The model cannot produce that outcome.
- Users.GetAllUsers: `[...users]` is a shallow copy, so in JavaScript the returned objects are the stored ones. The value model has no aliasing and does not show this.
- The updates of the array-backed service (src/users/users.service.ts:25, :34, :43) store a spread copy `{...userObj}`, a plain object without the `User` class prototype, in place of the instance. Users are values in the model, so this is not shown.
- `getUser` (src/users/users.service.ts:18-21): it spreads a `[User, number]` tuple into a plain object, a JavaScript quirk with no useful contract.
- dist/players/player.entity.js: only its unique constraint on `username` is modelled. Its `password`/`salt` columns and the `bcrypt` `validatePassword` method are not part of the service core.
- src/users/user.entity.ts and dist/relations/relations.service.d.ts: declarations only, with no behaviour.
- Level arithmetic is exact (`real`). IEEE rounding at very large levels is not modelled.
