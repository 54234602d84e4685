/**
 Signed device leases (`bound_lease.cpp`, `bound_lease.hpp`) as the session and the checkpoint store see them.

 Envelope decoding and RSA verification are parameters: `decode` is any partial function from tokens to claims
 that satisfy the payload grammar, `authentic` any predicate for "signed by a trusted, unretired key".
 */
module Lease {
  import opened Wrappers
  import opened UrlFields
  import Checkpoint
  import SafeIntegers

  type Token = string

  const SAFE_MAX := SafeIntegers.SAFE_MAX

  datatype ClaimFields = Claims(
    signerKeyId: string,
    issuer: string,
    audience: string,
    project: string,
    feature: string,
    licenseFingerprint: string,
    bindingId: string,
    deviceKeyId: string,
    leaseId: string,
    operationId: string,
    generation: nat,
    revocationSeq: nat,
    issuedAt: nat,
    renewAfter: nat,
    expiresAt: nat
  )

  /** What the payload grammar guarantees of every decoded lease. */
  predicate WellFormed(c: ClaimFields) {
    && IsToken(c.bindingId, 16)
    && IsToken(c.operationId, 32)
    && 1 <= c.generation <= SAFE_MAX
    && c.revocationSeq <= SAFE_MAX
    && c.issuedAt < c.renewAfter < c.expiresAt
    && c.expiresAt - c.issuedAt <= 86400
    && c.expiresAt <= SAFE_MAX - 120
  }

  type Claims = c: ClaimFields | WellFormed(c)
    witness Claims("", "", "", "", "", "", seq(22, i => 'A'), "", "",
                   seq(43, i => 'A'), 1, 0, 0, 1, 2)

  datatype Expected = Expected(
    issuer: string,
    audience: string,
    project: string,
    feature: string,
    licenseFingerprint: string,
    bindingId: string,
    deviceKeyId: string,
    operationId: string,
    generation: nat,
    minRevocationSeq: nat
  )

  datatype Authority = Authority(decode: Token -> Option<Claims>, authentic: Token -> bool)

  predicate ExpectedClaims(c: Claims, e: Expected) {
    && e.minRevocationSeq <= SAFE_MAX
    && 1 <= e.generation <= SAFE_MAX
    && c.issuer == e.issuer
    && c.audience == e.audience
    && c.project == e.project
    && c.feature == e.feature
    && c.licenseFingerprint == e.licenseFingerprint
    && c.bindingId == e.bindingId
    && c.deviceKeyId == e.deviceKeyId
    && c.operationId == e.operationId
    && c.generation == e.generation
    && c.revocationSeq >= e.minRevocationSeq
  }

  function VerifyBoundLease(a: Authority, token: Token, expected: Expected, effectiveNow: nat): Option<Claims> {
    var c := a.decode(token);
    if c.None? || effectiveNow > SAFE_MAX || !ExpectedClaims(c.value, expected)
       || effectiveNow < c.value.issuedAt || effectiveNow >= c.value.expiresAt || !a.authentic(token)
    then None
    else c
  }

  /** The only expectation, up to its floor, under which a lease with these claims is ever accepted. */
  function ExpectationOf(c: Claims, floor: nat): Expected {
    Expected(c.issuer, c.audience, c.project, c.feature, c.licenseFingerprint, c.bindingId, c.deviceKeyId,
             c.operationId, c.generation, floor)
  }

  /** A lease is accepted exactly if it is authentic, unexpired, not superseded, and names all that was expected. */
  lemma AcceptedIsExpected(a: Authority, token: Token, e: Expected, now: nat)
    ensures VerifyBoundLease(a, token, e, now).Some? <==>
              && a.decode(token).Some? && a.authentic(token)
              && var c := a.decode(token).value;
              && e == ExpectationOf(c, e.minRevocationSeq) && e.minRevocationSeq <= c.revocationSeq
              && c.issuedAt <= now < c.expiresAt
    ensures VerifyBoundLease(a, token, e, now).Some? ==> VerifyBoundLease(a, token, e, now) == a.decode(token)
  {
  }

  /** A lease of one operation is never accepted for another one. */
  lemma AcceptedForOneOperation(a: Authority, token: Token, e: Expected, f: Expected, t: nat, u: nat)
    requires VerifyBoundLease(a, token, e, t).Some? && VerifyBoundLease(a, token, f, u).Some?
    ensures e.operationId == f.operationId && e == f.(minRevocationSeq := e.minRevocationSeq)
  {
  }

  /** What a resume statement must name: the context, but no binding and no time. */
  datatype ResumeContext =
    ResumeContext(issuer: string, audience: string, project: string, feature: string, deviceKeyId: string)

  predicate InContext(c: Claims, r: ResumeContext) {
    && c.issuer == r.issuer
    && c.audience == r.audience
    && c.project == r.project
    && c.feature == r.feature
    && c.deviceKeyId == r.deviceKeyId
  }

  /** `verify_bound_resume_statement`, together with the claims that order checkpoints. */
  function VerifyResumeStatement(a: Authority, r: ResumeContext, token: Token): Option<Checkpoint.Statement> {
    var c := a.decode(token);
    if c.None? || !InContext(c.value, r) || !a.authentic(token) then None
    else
      Some(Checkpoint.Statement(c.value.bindingId, c.value.licenseFingerprint, c.value.generation,
                                c.value.revocationSeq, c.value.issuedAt, c.value.signerKeyId, c.value.renewAfter,
                                c.value.expiresAt))
  }

  /** A statement verifies exactly in the context that its claims name, whatever its age, and says what they say. */
  lemma StatementIsOfItsContext(a: Authority, r: ResumeContext, token: Token)
    ensures var st := VerifyResumeStatement(a, r, token);
            && (st.Some? <==>
                  && a.decode(token).Some? && a.authentic(token)
                  && var c := a.decode(token).value;
                  && r == ResumeContext(c.issuer, c.audience, c.project, c.feature, c.deviceKeyId))
            && (st.Some? ==>
                  var c := a.decode(token).value;
                  && st.value.bindingId == c.bindingId && st.value.licenseFingerprint == c.licenseFingerprint
                  && st.value.generation == c.generation && st.value.revisionFloor == c.revocationSeq
                  && st.value.issuedAt == c.issuedAt && st.value.signerKeyId == c.signerKeyId
                  && st.value.renewAfter == c.renewAfter && st.value.expiresAt == c.expiresAt)
  {
  }

  /** The inspector that the checkpoint store uses. */
  function ResumeInspector(a: Authority, r: ResumeContext): Checkpoint.Inspector {
    (token: Token) => VerifyResumeStatement(a, r, token)
  }
}
