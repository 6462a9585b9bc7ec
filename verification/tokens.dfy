/**
 * Session token payloads: fresh payloads for one method, and the merge that
 * records a further method in a payload recovered from an existing token.
 * Signing and verification are an opaque pair of functions.
 */
module Tokens {
  import opened Base

  /** `JWTPayload`: subject, not-before time and last time per method (seconds). */
  datatype Payload = Payload(sub: string, nbf: int, methods: map<string, int>)

  /**
   * What `jwt.verify` hands back. A valid token yields its claims: the
   * service's payload and the `exp` claim the library adds when it signs with
   * an expiry. A valid token whose payload has no `methods` object is
   * `Unshaped`; a malformed, expired or tampered token is `Rejected`.
   */
  datatype Decoded = Rejected | Unshaped | Claims(payload: Payload, exp: Option<int>)

  /**
   * The signing primitive: `sign` signs a payload that has no `exp` claim
   * with the configured expiry; `verify` decodes a token.
   */
  datatype Signer = Signer(sign: Payload -> string, verify: string -> Decoded)

  /**
   * jsonwebtoken's round trip: verifying a token the signer produced gives
   * back what was signed, together with the `exp` claim it added.
   */
  ghost predicate Sound(signer: Signer)
  {
    forall p :: VerifiesTo(signer, signer.sign(p), p)
  }

  /** `token` verifies to `p`, with an expiry claim. */
  predicate VerifiesTo(signer: Signer, token: string, p: Payload)
  {
    var d := signer.verify(token);
    d.Claims? && d.payload == p && d.exp.Some?
  }

  /** A payload just issued for one method at one time. */
  predicate IsFresh(p: Payload, userId: string, authMethod: string, timestamp: int)
  {
    && p.sub == userId
    && p.methods.Keys == {authMethod}
    && p.methods[authMethod] == timestamp
    && p.nbf == timestamp
  }

  /**
   * `createTokenPayload`: a payload that names the user and records exactly
   * one method, at the same time as its not-before bound.
   */
  function CreateTokenPayload(userId: string, authMethod: string, timestamp: int): (p: Payload)
    ensures IsFresh(p, userId, authMethod, timestamp)
    ensures forall q :: IsFresh(q, userId, authMethod, timestamp) ==> q == p
  {
    Payload(userId, timestamp, map[authMethod := timestamp])
  }

  /**
   * The payload edit of `updateTokenWithMethod`: record the method at
   * `timestamp` and move the not-before bound to `timestamp`; the subject and
   * every other method entry are kept.
   */
  function WithMethod(p: Payload, authMethod: string, timestamp: int): (q: Payload)
    ensures q.sub == p.sub && q.nbf == timestamp
    ensures q.methods.Keys == p.methods.Keys + {authMethod}
    ensures q.methods[authMethod] == timestamp
    ensures forall m :: m in p.methods && m != authMethod ==> q.methods[m] == p.methods[m]
  {
    p.(nbf := timestamp, methods := p.methods[authMethod := timestamp])
  }

  /** The library's refusal to sign, with an expiry option, a payload that already has `exp`. */
  const ExpConflict: string := "Bad \"options.expiresIn\" option the payload already has an \"exp\" property."

  /**
   * `generateToken`: sign with the configured expiry. The object handed over
   * is the payload plus whatever `exp` claim it already carries, and
   * jsonwebtoken throws when there is one.
   */
  function GenerateToken(signer: Signer, p: Payload, exp: Option<int>): (r: Result<string>)
    ensures r.Err? <==> exp.Some?
    ensures r.Ok? ==> r.value == signer.sign(p)
    ensures r.Ok? && Sound(signer) ==> VerifiesTo(signer, r.value, p)
  {
    if exp.Some? then Err(Error(ExpConflict)) else Ok(signer.sign(p))
  }

  /**
   * `updateTokenWithMethod`: verify the existing token, merge the method into
   * its claims and re-sign them; any failure on the way, in verification, in
   * the merge or in the re-sign, is reported as "Invalid token".
   */
  function UpdateTokenWithMethod(signer: Signer, existingToken: string, authMethod: string, timestamp: int)
    : (r: Result<string>)
    ensures r.Err? ==> r == Err(Error("Invalid token"))
    ensures r.Ok? <==> signer.verify(existingToken).Claims? && signer.verify(existingToken).exp.None?
    ensures r.Ok? ==> r.value == signer.sign(WithMethod(signer.verify(existingToken).payload, authMethod, timestamp))
    ensures r.Ok? && Sound(signer) ==>
              VerifiesTo(signer, r.value, WithMethod(signer.verify(existingToken).payload, authMethod, timestamp))
  {
    match signer.verify(existingToken)
    case Rejected => Err(Error("Invalid token"))
    case Unshaped => Err(Error("Invalid token"))
    case Claims(decoded, exp) =>
      match GenerateToken(signer, WithMethod(decoded, authMethod, timestamp), exp)
      case Ok(token) => Ok(token)
      case Err(_) => Err(Error("Invalid token"))
  }

  /**
   * Every token the signer issued carries `exp`, so re-signing its merged
   * claims is refused and the update reports "Invalid token": the merge never
   * happens for the service's own tokens.
   */
  lemma SelfIssuedTokenNeverMerges(signer: Signer, p: Payload, authMethod: string, timestamp: int)
    requires Sound(signer)
    ensures UpdateTokenWithMethod(signer, signer.sign(p), authMethod, timestamp) == Err(Error("Invalid token"))
  {
    assert VerifiesTo(signer, signer.sign(p), p);
  }

  /**
   * The update as evidently intended: the library's own `exp` claim is
   * dropped before re-signing, so only a token that does not verify, or whose
   * payload has no `methods` object, is refused.
   */
  function UpdateTokenWithMethodCorrected(signer: Signer, existingToken: string, authMethod: string, timestamp: int)
    : (r: Result<string>)
    ensures r.Err? ==> r == Err(Error("Invalid token"))
    ensures r.Ok? <==> signer.verify(existingToken).Claims?
    ensures r.Ok? && Sound(signer) ==>
              VerifiesTo(signer, r.value, WithMethod(signer.verify(existingToken).payload, authMethod, timestamp))
  {
    match signer.verify(existingToken)
    case Rejected => Err(Error("Invalid token"))
    case Unshaped => Err(Error("Invalid token"))
    case Claims(decoded, _) =>
      match GenerateToken(signer, WithMethod(decoded, authMethod, timestamp), None)
      case Ok(token) => Ok(token)
      case Err(_) => Err(Error("Invalid token"))
  }

  /**
   * With the correction, a token from a password login extended by an email
   * login records both methods with their own times.
   */
  lemma CorrectedUpdateKeepsEarlierMethods(signer: Signer, sub: string, t1: int, t2: int)
    requires Sound(signer)
    ensures var r := UpdateTokenWithMethodCorrected(signer, signer.sign(CreateTokenPayload(sub, "pass", t1)), "email", t2);
            && r.Ok?
            && VerifiesTo(signer, r.value, Payload(sub, t2, map["pass" := t1, "email" := t2]))
  {
    var token := signer.sign(CreateTokenPayload(sub, "pass", t1));
    assert VerifiesTo(signer, token, CreateTokenPayload(sub, "pass", t1));
    MergePasswordThenEmail(sub, t1, t2);
  }

  /** Each merge adds at most one method entry. */
  lemma MergeGrowsByAtMostOne(p: Payload, authMethod: string, timestamp: int)
    ensures |WithMethod(p, authMethod, timestamp).methods| <= |p.methods| + 1
    ensures authMethod in p.methods ==> |WithMethod(p, authMethod, timestamp).methods| == |p.methods|
  {
    var q := WithMethod(p, authMethod, timestamp);
    if authMethod in p.methods {
      assert q.methods.Keys == p.methods.Keys;
    } else {
      assert q.methods.Keys == p.methods.Keys + {authMethod};
    }
  }

  /** Merging the same method again overwrites its entry. */
  lemma MergeOverwrites(p: Payload, authMethod: string, t1: int, t2: int)
    ensures WithMethod(WithMethod(p, authMethod, t1), authMethod, t2) == WithMethod(p, authMethod, t2)
  {
  }

  /**
   * The two-method scenario: a password token from time t1 merged with an
   * email login at t2 records both methods, with not-before t2.
   */
  lemma MergePasswordThenEmail(sub: string, t1: int, t2: int)
    ensures WithMethod(CreateTokenPayload(sub, "pass", t1), "email", t2)
            == Payload(sub, t2, map["pass" := t1, "email" := t2])
  {
  }

  /**
   * The not-before bound is whatever the merge time is, even when an
   * existing entry is later: it is the latest entry only if the clock did not
   * go backwards.
   */
  lemma MergeNbfIsLatestOnlyWithMonotoneClock(p: Payload, authMethod: string, timestamp: int)
    ensures (forall m :: m in p.methods ==> p.methods[m] <= timestamp) ==>
              var q := WithMethod(p, authMethod, timestamp);
              forall m :: m in q.methods ==> q.methods[m] <= q.nbf
    ensures WithMethod(Payload("1", 200, map["pass" := 200]), "email", 150).nbf
            < WithMethod(Payload("1", 200, map["pass" := 200]), "email", 150).methods["pass"]
  {
  }
}
