/** The store writes of two-factor enrollment in the backend `UsersService`
    (backend/src/players/players.service.ts). The secret itself comes from
    the TOTP library and is an input here. */
module TwoFactor {
  import opened Wrappers
  import opened Errors
  import opened PlayerStore
  import opened Players

  /** `repository.update` with its error escaping uncaught. */
  function Write(store: Store, id: int, patch: Patch, dbFault: Option<string>): (r: Step<()>)
    ensures r.result.Success? <==> dbFault.None?
    ensures r.result.Failure? ==> r.store == store && r.result.error == Database(dbFault.value)
    ensures UsernamesUnique(store) ==> UsernamesUnique(r.store)
  {
    match Update(store, id, patch, dbFault)
    case Failure(e) => Step(store, Failure(Uncaught(e)))
    case Success(after) => Step(after, Success(()))
  }

  /** Rows other than `id`, and every field of row `id` except `secret`, are as before. */
  predicate OnlySecretWritten(before: Store, after: Store, id: int, secret: string) {
    && after.Keys == before.Keys
    && (forall k :: k in before && k != id ==> after[k] == before[k])
    && (id in before ==> after[id] == before[id].(secret := Some(secret)))
  }

  /** `setTwoFactorAuthenticationSecret`: stores the secret on the row (a
      missing row is silently left alone); `two_fa` is not touched. */
  function SetTwoFactorAuthenticationSecret(store: Store, id: int, secret: string, dbFault: Option<string>): (r: Step<()>)
    ensures r.result.Success? <==> dbFault.None?
    ensures r.result.Failure? ==> r.store == store
    ensures r.result.Failure? ==> r.result.error == Database(dbFault.value)
    ensures r.result.Success? ==> OnlySecretWritten(store, r.store, id, secret)
    ensures id in r.store && r.result.Success? ==> r.store[id].secret == Some(secret)
    ensures forall k :: k in r.store ==> k in store && r.store[k].two_fa == store[k].two_fa
    ensures UsernamesUnique(store) ==> UsernamesUnique(r.store)
  {
    Write(store, id, SetSecret(secret), dbFault)
  }

  /** `turnOnTwoFactorAuthentication`: sets `two_fa` on the row and nothing
      else; it does not look at whether a secret exists or a code was verified. */
  function TurnOnTwoFactorAuthentication(store: Store, id: int, dbFault: Option<string>): (r: Step<()>)
    ensures r.result.Success? <==> dbFault.None?
    ensures r.result.Failure? ==> r.store == store
    ensures r.result.Failure? ==> r.result.error == Database(dbFault.value)
    ensures r.result.Success? && id in store ==>
              r.store.Keys == store.Keys && OnlyRowChanged(store, r.store, id, store[id].(two_fa := true))
    ensures r.result.Success? && id !in store ==> r.store == store
    ensures forall k :: k in r.store ==> k in store && r.store[k].secret == store[k].secret
    ensures UsernamesUnique(store) ==> UsernamesUnique(r.store)
  {
    Write(store, id, SetTwoFa(true), dbFault)
  }

  /** The persisting half of `generateTwoFactorAuthenticationSecret`: the
      freshly generated `secret` is written to the user's row and handed back. */
  function GenerateTwoFactorAuthenticationSecret(store: Store, userId: int, secret: string, dbFault: Option<string>): (r: Step<string>)
    ensures r.result.Success? <==> dbFault.None?
    ensures r.result.Failure? ==> r.store == store
    ensures r.result.Failure? ==> r.result.error == Database(dbFault.value)
    ensures r.result.Success? ==> r.result.value == secret && OnlySecretWritten(store, r.store, userId, secret)
    ensures r.result.Success? && userId in r.store ==> r.store[userId].secret == Some(r.result.value)
    ensures forall k :: k in r.store ==> k in store && r.store[k].two_fa == store[k].two_fa
    ensures UsernamesUnique(store) ==> UsernamesUnique(r.store)
  {
    var written := SetTwoFactorAuthenticationSecret(store, userId, secret, dbFault);
    match written.result
    case Failure(e) => Step(written.store, Failure(e))
    case Success(_) => Step(written.store, Success(secret))
  }

  /** One of the three enrollment writes. */
  datatype Enrollment = SetSecretCall(secret: string) | TurnOnCall | GenerateCall(generated: string)

  function Enroll(store: Store, id: int, call: Enrollment, dbFault: Option<string>): Store {
    match call
    case SetSecretCall(s) => SetTwoFactorAuthenticationSecret(store, id, s, dbFault).store
    case TurnOnCall => TurnOnTwoFactorAuthentication(store, id, dbFault).store
    case GenerateCall(s) => GenerateTwoFactorAuthenticationSecret(store, id, s, dbFault).store
  }

  /** No enrollment write changes `two_fa` and `secret` of a row together:
      enabling the second factor and storing its secret are separate calls. */
  lemma EnrollmentWritesOneField(store: Store, id: int, call: Enrollment, dbFault: Option<string>)
    ensures forall k :: k in Enroll(store, id, call, dbFault) ==>
              k in store &&
              (Enroll(store, id, call, dbFault)[k].two_fa == store[k].two_fa ||
               Enroll(store, id, call, dbFault)[k].secret == store[k].secret)
  {
  }
}
