/**
 The clock anchor of one operation (`bound_anchor.cpp`).

 A sample brackets one reading of the suspend-inclusive clock between two readings of the awake clock. The anchor
 keeps the interval of clock biases that every sample so far allows, and dies when the interval would be empty.
 A ghost log of the accepted samples and of every check states what holds over its whole life.
 */
module Anchor {
  import opened Wrappers
  import opened Base64
  import opened UrlFields
  import opened Lease

  const TICKS_PER_SECOND := 10_000_000
  const INT64_MAX := 0x7FFF_FFFF_FFFF_FFFF

  newtype int64 = x: int | -0x8000_0000_0000_0000 <= x <= 0x7FFF_FFFF_FFFF_FFFF

  type uint64 = x: int | 0 <= x < 0x1_0000_0000_0000_0000

  datatype Sample = Sample(inclusive: uint64, awakeBefore: uint64, awakeAfter: uint64, processId: uint64)

  predicate SampleValid(s: Sample) {
    && s.processId != 0
    && s.inclusive <= INT64_MAX
    && s.awakeAfter <= INT64_MAX
    && s.inclusive >= s.awakeBefore
    && s.awakeBefore <= s.awakeAfter
    && s.awakeAfter - s.awakeBefore <= 100_000
  }

  /** Some bias that is not negative explains the sample, it took at most 10 milliseconds, and no time overflows. */
  lemma ValidSamples(s: Sample)
    ensures SampleValid(s) <==>
            && s.processId > 0
            && (exists bias :: bias >= 0 && Fits(bias, s))
            && s.awakeAfter - s.awakeBefore <= 100_000
            && s.inclusive < 0x8000_0000_0000_0000 && s.awakeAfter < 0x8000_0000_0000_0000
  {
    if SampleValid(s) {
      var bias := if s.inclusive > s.awakeAfter then s.inclusive - s.awakeAfter else 0;
      assert Fits(bias, s);
    }
  }

  type GoodSample = s: Sample | SampleValid(s) witness Sample(0, 0, 0, 1)

  /** The least bias, inclusive minus awake time, that the sample allows; the subtraction cannot overflow. */
  function Low(s: GoodSample): (low: int64)
    ensures low as int == s.inclusive - s.awakeAfter
  {
    (s.inclusive as int64) - (s.awakeAfter as int64)
  }

  function High(s: GoodSample): (high: int64)
    ensures high as int == s.inclusive - s.awakeBefore
  {
    (s.inclusive as int64) - (s.awakeBefore as int64)
  }

  /** A constant bias explains a sample when the inclusive reading fell between the awake readings. */
  predicate Fits(bias: int, s: Sample) {
    s.awakeBefore <= s.inclusive - bias <= s.awakeAfter
  }

  ghost predicate AllFit(bias: int, samples: seq<GoodSample>) {
    forall i | 0 <= i < |samples| :: Fits(bias, samples[i])
  }

  /** One constant clock bias explains every sample. */
  ghost predicate OneBiasFits(samples: seq<GoodSample>) {
    exists bias: int :: AllFit(bias, samples)
  }

  /** `next` may follow `previous` in one process. */
  predicate Follows(previous: Sample, next: Sample) {
    && next.processId == previous.processId
    && next.inclusive >= previous.inclusive
    && next.awakeBefore >= previous.awakeAfter
    && next.awakeAfter >= previous.awakeAfter
  }

  // ----- Effective time -----

  /** The issue time plus the elapsed ticks, rounded up to seconds. */
  function BoundEffectiveTime(issuedAt: nat, originalTicks: uint64, currentTicks: uint64): (now: Option<nat>)
  {
    if issuedAt > SAFE_MAX || currentTicks < originalTicks then None
    else
      var elapsed := currentTicks - originalTicks;
      var seconds := elapsed / TICKS_PER_SECOND + if elapsed % TICKS_PER_SECOND != 0 then 1 else 0;
      if seconds > SAFE_MAX - issuedAt then None else Some(issuedAt + seconds)
  }

  /** The reported time is the least whole second that the elapsed time has not passed. */
  lemma EffectiveTimeRoundsUp(issuedAt: nat, original: uint64, current: uint64)
    requires original <= current && issuedAt <= SAFE_MAX
    ensures var now := BoundEffectiveTime(issuedAt, original, current);
            var elapsed := current - original;
            && (now.Some? ==>
                  && issuedAt <= now.value <= 9007199254740991
                  && elapsed <= (now.value - issuedAt) * 10_000_000 < elapsed + 10_000_000)
            && (now.None? ==> elapsed > (9007199254740991 - issuedAt) * 10_000_000)
  {
    var elapsed := current - original;
    assert elapsed == elapsed / TICKS_PER_SECOND * TICKS_PER_SECOND + elapsed % TICKS_PER_SECOND;
  }

  /** Later samples never report an earlier time. */
  lemma EffectiveTimeMonotone(issuedAt: nat, original: uint64, a: uint64, b: uint64)
    requires original <= a <= b && issuedAt <= SAFE_MAX
    ensures var t, u := BoundEffectiveTime(issuedAt, original, a), BoundEffectiveTime(issuedAt, original, b);
            && (u.Some? ==> t.Some? && t.value <= u.value)
  {
    EffectiveTimeRoundsUp(issuedAt, original, a);
    EffectiveTimeRoundsUp(issuedAt, original, b);
  }

  // ----- The life of one anchor -----

  datatype CheckResult = Accepted | InvalidLease | ContinuityLost

  /** One check that took a sample: the clock at its last sample, and the time it reported if it accepted. */
  datatype Report = Report(token: Token, at: uint64, accepted: bool, now: nat)

  ghost predicate Chained(samples: seq<GoodSample>) {
    |samples| <= 1 || (Follows(samples[|samples| - 2], samples[|samples| - 1]) && Chained(samples[..|samples| - 1]))
  }

  /** At the clock reading `at`, the lease has expired for an operation that began at `origin`. */
  predicate ExpiredAt(c: Claims, origin: uint64, at: uint64) {
    var now := BoundEffectiveTime(c.issuedAt, origin, at);
    now.None? || now.value >= c.expiresAt
  }

  /** An accepting report states the effective time of its token, before the token expired. */
  ghost predicate ReportValid(a: Authority, origin: uint64, r: Report) {
    origin <= r.at &&
    (r.accepted ==>
       && a.decode(r.token).Some?
       && var c := a.decode(r.token).value;
       && BoundEffectiveTime(c.issuedAt, origin, r.at) == Some(r.now)
       && c.issuedAt <= r.now < c.expiresAt)
  }

  /** The reports are valid, in the order of the clock, and none is later than `latest`. */
  ghost predicate LogValid(a: Authority, origin: uint64, latest: uint64, log: seq<Report>)
    decreases |log|
  {
    log == [] ||
    (&& log[|log| - 1].at <= latest
     && ReportValid(a, origin, log[|log| - 1])
     && LogValid(a, origin, log[|log| - 1].at, log[..|log| - 1]))
  }

  lemma {:induction false} LogEntry(a: Authority, origin: uint64, latest: uint64, log: seq<Report>, i: nat)
    requires LogValid(a, origin, latest, log) && i < |log|
    ensures ReportValid(a, origin, log[i]) && log[i].at <= latest
    decreases |log|
  {
    if i < |log| - 1 {
      LogEntry(a, origin, log[|log| - 1].at, log[..|log| - 1], i);
    }
  }

  lemma {:induction false} LogOrder(a: Authority, origin: uint64, latest: uint64, log: seq<Report>, i: nat, j: nat)
    requires LogValid(a, origin, latest, log) && i <= j < |log|
    ensures log[i].at <= log[j].at
    decreases |log|
  {
    if i < j == |log| - 1 {
      LogEntry(a, origin, log[j].at, log[..j], i);
    } else if j < |log| - 1 {
      LogOrder(a, origin, log[|log| - 1].at, log[..|log| - 1], i, j);
    }
  }

  /** Reported times for one token never decrease, and an expired token is never accepted again. */
  lemma {:induction false} TimeNeverRunsBack(a: Authority, origin: uint64, latest: uint64, log: seq<Report>, i: nat,
                                             j: nat)
    requires LogValid(a, origin, latest, log) && i <= j < |log| && log[i].token == log[j].token && log[j].accepted
    ensures log[i].accepted ==> log[i].now <= log[j].now
    ensures a.decode(log[i].token).Some? && !ExpiredAt(a.decode(log[i].token).value, origin, log[i].at)
  {
    LogEntry(a, origin, latest, log, i);
    LogEntry(a, origin, latest, log, j);
    LogOrder(a, origin, latest, log, i, j);
    EffectiveTimeMonotone(a.decode(log[j].token).value.issuedAt, origin, log[i].at, log[j].at);
  }

  /** Once a check of a token was made at a reading at which it had expired, no later check accepts it. */
  lemma {:induction false} ExpiredStaysRejected(a: Authority, origin: uint64, latest: uint64, log: seq<Report>, i: nat,
                                                j: nat)
    requires LogValid(a, origin, latest, log) && i <= j < |log| && log[i].token == log[j].token
    requires a.decode(log[i].token).Some? ==> ExpiredAt(a.decode(log[i].token).value, origin, log[i].at)
    ensures !log[i].accepted && !log[j].accepted
  {
    if log[i].accepted {
      TimeNeverRunsBack(a, origin, latest, log, i, i);
    }
    if log[j].accepted {
      TimeNeverRunsBack(a, origin, latest, log, i, j);
    }
  }

  /** No check accepts more than 86399 seconds of inclusive time after the anchor was created. */
  lemma {:induction false} AcceptedWithinADay(a: Authority, origin: uint64, latest: uint64, log: seq<Report>, i: nat)
    requires LogValid(a, origin, latest, log) && i < |log| && log[i].accepted
    ensures log[i].at - origin <= 863_990_000_000
  {
    LogEntry(a, origin, latest, log, i);
    EffectiveTimeRoundsUp(a.decode(log[i].token).value.issuedAt, origin, log[i].at);
  }

  /** The true biases behind any two samples that one constant explains differ by at most 200000 ticks. */
  lemma BiasesAgree(samples: seq<GoodSample>, i: nat, j: nat, b: int, c: int)
    requires OneBiasFits(samples) && i < |samples| && j < |samples|
    requires Fits(b, samples[i]) && Fits(c, samples[j])
    ensures -200_000 <= b - c <= 200_000
  {
    var common: int :| AllFit(common, samples);
    assert Fits(common, samples[i]) && Fits(common, samples[j]);
  }

  /** The platform's clock: any reading, or none. */
  method TakeSample() returns (s: Option<Sample>)
  {
    s := *;
  }

  /** 32 bytes of the platform's randomness, or none. */
  method RandomOperation() returns (random: Option<seq<byte>>)
    ensures random.Some? ==> |random.value| == 32
  {
    if * {
      random := None;
    } else {
      assert |seq(32, i => 0 as byte)| == 32;
      var bytes: seq<byte> :| |bytes| == 32;
      random := Some(bytes);
    }
  }

  /** The base64url text of 32 random bytes. */
  type OperationId = s: string | IsToken(s, 32) witness seq(43, i => 'A')

  class BoundLeaseAnchor {
    const authority: Authority
    const operationId: OperationId
    const original: GoodSample
    /** The place of this operation among all that were begun. */
    ghost const serial: nat
    var previous: GoodSample
    var biasLow: int64
    var biasHigh: int64
    var live: bool
    ghost var samples: seq<GoodSample>
    ghost var log: seq<Report>

    ghost predicate Valid()
      reads this
    {
      && samples != [] && samples[0] == original && samples[|samples| - 1] == previous
      && Chained(samples)
      && biasLow == GreatestLow(samples) && biasHigh == LeastHigh(samples) && biasLow <= biasHigh
      && original.inclusive <= previous.inclusive && original.processId == previous.processId
      && LogValid(authority, original.inclusive, previous.inclusive, log)
    }

    constructor (authority: Authority, operationId: OperationId, original: GoodSample, ghost serial: nat)
      ensures Valid() && live && log == [] && samples == [original]
      ensures this.authority == authority && this.operationId == operationId && this.original == original
      ensures this.serial == serial
    {
      this.authority, this.operationId, this.original, this.serial := authority, operationId, original, serial;
      previous := original;
      biasLow, biasHigh := Low(original), High(original);
      live := true;
      samples, log := [original], [];
    }

    static method Create(authority: Authority, ghost serial: nat) returns (anchor: BoundLeaseAnchor?)
      ensures anchor != null ==>
                && fresh(anchor) && anchor.Valid() && anchor.live && anchor.log == []
                && anchor.samples == [anchor.original]
                && anchor.authority == authority && anchor.serial == serial
    {
      anchor := null;
      var random := RandomOperation();
      if random.None? {
        return;
      }
      var operationId := Base64Url(random.value);
      ImageIsToken(random.value);
      var sample := TakeSample();
      if !IsToken(operationId, 32) || sample.None? || !SampleValid(sample.value) {
        return;
      }
      anchor := new BoundLeaseAnchor(authority, operationId, sample.value, serial);
    }

    /** Accepts a sample exactly when it follows the last one and one constant bias still fits all of them. */
    method Observe(sample: Sample) returns (ok: bool)
      requires Valid()
      modifies this`previous, this`biasLow, this`biasHigh, this`live, this`samples
      ensures Valid()
      ensures ok <==> old(live) && SampleValid(sample) && Follows(old(previous), sample)
                      && OneBiasFits(old(samples) + [sample])
      ensures live == ok
      ensures ok ==> samples == old(samples) + [sample] && previous == sample
      ensures !ok ==> samples == old(samples) && previous == old(previous)
    {
      if !live || !SampleValid(sample) || sample.processId != original.processId ||
         sample.inclusive < previous.inclusive || sample.awakeBefore < previous.awakeAfter ||
         sample.awakeAfter < previous.awakeAfter
      {
        live := false;
        ok := false;
        return;
      }
      ok := Narrow(sample);
    }

    /** Intersects the biases so far with those of the sample; an empty intersection ends the anchor. */
    method Narrow(sample: GoodSample) returns (ok: bool)
      requires Valid() && live && Follows(previous, sample)
      modifies this`previous, this`biasLow, this`biasHigh, this`live, this`samples
      ensures Valid()
      ensures ok <==> OneBiasFits(old(samples) + [sample])
      ensures live == ok
      ensures ok ==> samples == old(samples) + [sample] && previous == sample
      ensures !ok ==> samples == old(samples) && previous == old(previous)
    {
      var nextLow := if Low(sample) > biasLow then Low(sample) else biasLow;
      var nextHigh := if High(sample) < biasHigh then High(sample) else biasHigh;
      SamplesExtend(samples, sample);
      ok := nextLow <= nextHigh;
      if ok {
        Extend(sample, nextLow, nextHigh);
      } else {
        live := false;
      }
    }

    method Extend(sample: GoodSample, nextLow: int64, nextHigh: int64)
      requires Valid() && Follows(previous, sample) && Chained(samples + [sample])
      requires nextLow == GreatestLow(samples + [sample]) && nextHigh == LeastHigh(samples + [sample])
      requires nextLow <= nextHigh
      modifies this`previous, this`biasLow, this`biasHigh, this`samples
      ensures Valid() && samples == old(samples) + [sample] && previous == sample
    {
      biasLow, biasHigh := nextLow, nextHigh;
      previous := sample;
      samples := samples + [sample];
    }

    /** At the clock reading `at`, the token is an authentic, unexpired lease with the expected claims. */
    predicate Acceptable(token: Token, expected: Expected, at: uint64) {
      var claims := authority.decode(token);
      && claims.Some?
      && var now := BoundEffectiveTime(claims.value.issuedAt, original.inclusive, at);
      && now.Some? && VerifyBoundLease(authority, token, expected, now.value).Some?
    }

    /**
     Unless continuity is lost, accepts exactly the leases of this operation that are acceptable at the last reading,
     and logs the decision.
     */
    method Check(token: Token, expected: Expected) returns (result: CheckResult, claims: Option<Claims>, now: nat)
      requires Valid()
      modifies this
      ensures Valid()
      ensures result == ContinuityLost <==> !live
      ensures !old(live) ==> !live
      ensures old(samples) <= samples
      ensures result != Accepted ==> claims == None
      ensures result == Accepted ==>
                && claims == authority.decode(token) && claims.Some? && authority.authentic(token)
                && ExpectedClaims(claims.value, expected) && expected.operationId == operationId
                && claims.value.operationId == operationId
                && BoundEffectiveTime(claims.value.issuedAt, original.inclusive, previous.inclusive) == Some(now)
                && claims.value.issuedAt <= now < claims.value.expiresAt
      ensures result != ContinuityLost && expected.operationId == operationId ==>
                && (result == Accepted <==> Acceptable(token, expected, previous.inclusive))
                && log == old(log) + [Report(token, previous.inclusive, result == Accepted, now)]
      ensures result == ContinuityLost || expected.operationId != operationId ==> log == old(log)
      ensures result == InvalidLease && expected.operationId != operationId ==> samples == old(samples)
    {
      result, claims, now := ContinuityLost, None, 0;
      if !live {
        return;
      }
      if expected.operationId != operationId {
        result := InvalidLease;
        return;
      }
      var first := SampleOnce();
      if !first {
        return;
      }
      result, claims, now := CheckLease(token, expected);
      if result != ContinuityLost {
        log := log + [Report(token, previous.inclusive, result == Accepted, now)];
      }
    }

    /** Reads the clock; a missing or impossible reading ends the anchor. */
    method SampleOnce() returns (ok: bool)
      requires Valid() && live
      modifies this`previous, this`biasLow, this`biasHigh, this`live, this`samples
      ensures Valid() && live == ok && old(samples) <= samples
      ensures previous.inclusive >= old(previous).inclusive
    {
      var sample := TakeSample();
      if sample.None? {
        live := false;
        ok := false;
        return;
      }
      ok := Observe(sample.value);
    }

    /** Verifies at the current reading, then checks continuity and expiry once more. */
    method CheckLease(token: Token, expected: Expected) returns (result: CheckResult, claims: Option<Claims>, now: nat)
      requires Valid() && live
      modifies this`previous, this`biasLow, this`biasHigh, this`live, this`samples
      ensures Valid()
      ensures result == ContinuityLost <==> !live
      ensures old(samples) <= samples
      ensures result != Accepted ==> claims == None
      ensures result != ContinuityLost ==> (result == Accepted <==> Acceptable(token, expected, previous.inclusive))
      ensures result == Accepted ==>
                && claims == authority.decode(token) && claims.Some? && authority.authentic(token)
                && ExpectedClaims(claims.value, expected)
                && BoundEffectiveTime(claims.value.issuedAt, original.inclusive, previous.inclusive) == Some(now)
                && claims.value.issuedAt <= now < claims.value.expiresAt
    {
      result, claims, now := InvalidLease, None, 0;
      var parsed := authority.decode(token);
      if parsed.None? {
        return;
      }
      var effective := BoundEffectiveTime(parsed.value.issuedAt, original.inclusive, previous.inclusive);
      if effective.None? {
        return;
      }
      var candidate := VerifyBoundLease(authority, token, expected, effective.value);
      if candidate.None? {
        return;
      }
      ghost var earlier := previous.inclusive;
      var again := SampleOnce();
      if !again {
        result := ContinuityLost;
        return;
      }
      effective := BoundEffectiveTime(candidate.value.issuedAt, original.inclusive, previous.inclusive);
      if effective.None? || effective.value >= candidate.value.expiresAt {
        return;
      }
      EffectiveTimeMonotone(candidate.value.issuedAt, original.inclusive, earlier, previous.inclusive);
      result, claims, now := Accepted, candidate, effective.value;
    }
  }

  function GreatestLow(samples: seq<GoodSample>): int64
    requires samples != []
  {
    var last := Low(samples[|samples| - 1]);
    if |samples| == 1 then last
    else
      var before := GreatestLow(samples[..|samples| - 1]);
      if last > before then last else before
  }

  function LeastHigh(samples: seq<GoodSample>): int64
    requires samples != []
  {
    var last := High(samples[|samples| - 1]);
    if |samples| == 1 then last
    else
      var before := LeastHigh(samples[..|samples| - 1]);
      if last < before then last else before
  }

  /** What one more sample adds. */
  lemma {:induction false} SamplesExtend(samples: seq<GoodSample>, s: GoodSample)
    requires samples != [] && Chained(samples)
    ensures GreatestLow(samples + [s]) == if Low(s) > GreatestLow(samples) then Low(s) else GreatestLow(samples)
    ensures LeastHigh(samples + [s]) == if High(s) < LeastHigh(samples) then High(s) else LeastHigh(samples)
    ensures OneBiasFits(samples + [s]) <==> GreatestLow(samples + [s]) <= LeastHigh(samples + [s])
    ensures Follows(samples[|samples| - 1], s) ==> Chained(samples + [s])
  {
    assert (samples + [s])[..|samples|] == samples;
    FitsIsInterval(samples + [s]);
  }

  /** The biases that fit all samples are exactly the interval between the greatest low and the least high. */
  lemma {:induction false} FittingBiases(samples: seq<GoodSample>, bias: int)
    requires samples != []
    ensures AllFit(bias, samples) <==> GreatestLow(samples) as int <= bias <= LeastHigh(samples) as int
  {
    var n := |samples| - 1;
    if n > 0 {
      FittingBiases(samples[..n], bias);
      assert samples == samples[..n] + [samples[n]];
      assert AllFit(bias, samples) <==> AllFit(bias, samples[..n]) && Fits(bias, samples[n]);
    }
  }

  lemma {:induction false} FitsIsInterval(samples: seq<GoodSample>)
    requires samples != []
    ensures OneBiasFits(samples) <==> GreatestLow(samples) <= LeastHigh(samples)
  {
    if GreatestLow(samples) <= LeastHigh(samples) {
      FittingBiases(samples, GreatestLow(samples) as int);
    }
    if OneBiasFits(samples) {
      var bias: int :| AllFit(bias, samples);
      FittingBiases(samples, bias);
    }
  }
}
