/**
 The order on signed resume statements that decides which checkpoint may replace which
 (`bound_checkpoint.cpp`).

 Signature verification and envelope decoding are not modelled here: an `Inspector` is any function
 from stored bytes to the statement they carry, or `None` when they do not verify.
 */
module Checkpoint {
  import opened Wrappers

  type Token = string

  /** What an authenticated checkpoint says about the binding, and the claims used for ordering. */
  datatype Statement = Statement(
    bindingId: string,
    licenseFingerprint: string,
    generation: nat,
    revisionFloor: nat,
    issuedAt: nat,
    signerKeyId: string,
    renewAfter: nat,
    expiresAt: nat
  )

  type Inspector = Token -> Option<Statement>

  datatype Decision = Replace | Unchanged | Stale | Conflict | InvalidCandidate | InvalidStored

  predicate SameIdentity(a: Statement, b: Statement) {
    && a.bindingId == b.bindingId
    && a.licenseFingerprint == b.licenseFingerprint
    && a.generation == b.generation
  }

  /** Strictly newer in the lexicographic order on (revision floor, issue time). */
  predicate Newer(a: Statement, b: Statement) {
    a.revisionFloor > b.revisionFloor || (a.revisionFloor == b.revisionFloor && a.issuedAt > b.issuedAt)
  }

  function CompareCheckpoints(inspect: Inspector, candidate: Token, current: Option<Token>): (d: Decision)
  {
    var next := inspect(candidate);
    if next.None? then InvalidCandidate
    else if current.None? then Replace
    else
      var prior := inspect(current.value);
      if prior.None? then InvalidStored
      else
        var a, b := next.value, prior.value;
        if !SameIdentity(a, b) then Conflict
        else if candidate == current.value then Unchanged
        else if a.revisionFloor < b.revisionFloor then Stale
        else if a.revisionFloor > b.revisionFloor then Replace
        else if a.issuedAt < b.issuedAt then Stale
        else if a.issuedAt > b.issuedAt then Replace
        else if a.signerKeyId == b.signerKeyId && a.renewAfter == b.renewAfter && a.expiresAt == b.expiresAt
        then Unchanged
        else Conflict
  }

  /** `t` verifies, names the same binding as `floor`, and is not older than it. */
  predicate AtLeast(inspect: Inspector, t: Token, floor: Token) {
    && inspect(t).Some?
    && inspect(floor).Some?
    && SameIdentity(inspect(t).value, inspect(floor).value)
    && !Newer(inspect(floor).value, inspect(t).value)
  }

  /** One binding, and one of the two is newer unless they say the same: the pairs that the order decides. */
  predicate Compatible(inspect: Inspector, a: Token, b: Token) {
    && inspect(a).Some?
    && inspect(b).Some?
    && SameIdentity(inspect(a).value, inspect(b).value)
    && (Newer(inspect(a).value, inspect(b).value) || Newer(inspect(b).value, inspect(a).value)
        || inspect(a) == inspect(b))
  }

  /** `candidate` is of the binding of `current` and newer, or says the same. */
  predicate Admits(inspect: Inspector, candidate: Token, current: Token) {
    && inspect(candidate).Some?
    && inspect(current).Some?
    && SameIdentity(inspect(candidate).value, inspect(current).value)
    && (Newer(inspect(candidate).value, inspect(current).value) || inspect(candidate) == inspect(current))
  }

  /**
   What each decision means: replacement is "same binding and strictly newer" and staleness its mirror image; two tokens
   are unchanged exactly if they state the same, byte for byte or not; everything else that verifies is a conflict.
   */
  lemma DecisionMeans(inspect: Inspector, a: Token, b: Token)
    ensures var d := CompareCheckpoints(inspect, a, Some(b));
            && (d == InvalidCandidate <==> inspect(a).None?)
            && (d == InvalidStored <==> inspect(a).Some? && inspect(b).None?)
            && (d == Replace <==> Admits(inspect, a, b) && Newer(inspect(a).value, inspect(b).value))
            && (d == Stale <==> Admits(inspect, b, a) && Newer(inspect(b).value, inspect(a).value))
            && (d == Unchanged <==> inspect(a).Some? && inspect(a) == inspect(b))
            && (d == Conflict <==> inspect(a).Some? && inspect(b).Some? && !Compatible(inspect, a, b))
    ensures CompareCheckpoints(inspect, a, None) == if inspect(a).Some? then Replace else InvalidCandidate
  {
  }

  /** The binding is named by its id, licence and generation; within it floor and then issue time decide. */
  lemma ReplaceIsLexicographic(inspect: Inspector, a: Token, b: Token)
    requires inspect(a).Some? && inspect(b).Some?
    ensures var s, t := inspect(a).value, inspect(b).value;
            CompareCheckpoints(inspect, a, Some(b)) == Replace <==>
              && s.bindingId == t.bindingId && s.licenseFingerprint == t.licenseFingerprint
              && s.generation == t.generation
              && (s.revisionFloor > t.revisionFloor
                  || (s.revisionFloor == t.revisionFloor && s.issuedAt > t.issuedAt))
  {
  }

  /** Replacement and staleness are mirror images; the other decisions do not depend on the order of the two. */
  lemma ReplaceIsNewer(inspect: Inspector, a: Token, b: Token)
    requires inspect(a).Some? && inspect(b).Some?
    ensures CompareCheckpoints(inspect, a, Some(b)) == Replace
            <==> SameIdentity(inspect(a).value, inspect(b).value) && Newer(inspect(a).value, inspect(b).value)
    ensures CompareCheckpoints(inspect, a, Some(b)) == Replace <==> CompareCheckpoints(inspect, b, Some(a)) == Stale
    ensures CompareCheckpoints(inspect, a, Some(b)) == Unchanged
            <==> CompareCheckpoints(inspect, b, Some(a)) == Unchanged
    ensures CompareCheckpoints(inspect, a, Some(b)) == Conflict
            <==> CompareCheckpoints(inspect, b, Some(a)) == Conflict
  {
  }

  /** On verified tokens of one binding, replacement is a strict weak order and "unchanged" an equivalence. */
  lemma ReplaceIsStrictWeakOrder(inspect: Inspector, a: Token, b: Token, c: Token)
    requires inspect(a).Some? && inspect(b).Some? && inspect(c).Some?
    requires SameIdentity(inspect(a).value, inspect(b).value) && SameIdentity(inspect(b).value, inspect(c).value)
    ensures CompareCheckpoints(inspect, a, Some(a)) == Unchanged
    ensures CompareCheckpoints(inspect, a, Some(b)) == Replace && CompareCheckpoints(inspect, b, Some(c)) == Replace
            ==> CompareCheckpoints(inspect, a, Some(c)) == Replace
    ensures CompareCheckpoints(inspect, a, Some(b)) != Replace && CompareCheckpoints(inspect, b, Some(c)) != Replace
            ==> CompareCheckpoints(inspect, a, Some(c)) != Replace
    ensures CompareCheckpoints(inspect, a, Some(b)) == Unchanged && CompareCheckpoints(inspect, b, Some(c)) == Unchanged
            ==> CompareCheckpoints(inspect, a, Some(c)) == Unchanged
  {
  }
}
