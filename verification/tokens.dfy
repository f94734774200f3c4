/** `verifyToken` (backend/src/players/players.service.ts): how the outcome
    of JWT verification is turned into a result. Signature and expiry checks
    happen in the JWT library; here they are an input. */
module Tokens {
  import opened Wrappers
  import opened Errors

  /** A decoded JWT payload, by its JavaScript type. Arrays are objects whose
      keys are their indices. */
  datatype Payload =
    | Null                                 // typeof null === 'object'
    | Object(claims: map<string, string>)  // claim name to its JSON text
    | Scalar(text: string)                 // a string, number or boolean

  /** What `jwtService.verify` did: returned a payload, or threw (bad
      signature, expired, malformed). */
  datatype Decoding = Verified(payload: Payload) | Rejected

  /** `verifyToken`: the claims when the payload is an object with an `id`
      claim; every other path — a rejected token, a payload without `id`, a
      non-object, and the TypeError `'id' in null` raises — ends in the
      catch block's BadRequest. */
  function VerifyToken(d: Decoding): (r: Result<map<string, string>, ServiceError>)
    ensures r.Success? <==> d.Verified? && d.payload.Object? && "id" in d.payload.claims
    ensures r.Success? ==> r.value == d.payload.claims && "id" in r.value
    ensures r.Failure? ==> r.error == BadRequest
  {
    match d
    case Rejected => Failure(BadRequest)
    case Verified(payload) =>
      var inner: Result<map<string, string>, ServiceError> :=
        match payload
        case Object(claims) => if "id" in claims then Success(claims) else Failure(BadRequest)
        case Null => Failure(BadRequest)     // TypeError from the `in` operator
        case Scalar(_) => Failure(BadRequest);
      // whatever the try block threw, the catch rethrows as BadRequest
      if inner.Failure? then Failure(BadRequest) else inner
  }
}
