/**
 * Verification and one-time restoration over a port that may answer anything.
 *
 * The port records every call and every reading of the clock, so that what the
 * orchestration did is a statement about its log.
 */
module Maintenance {
  import opened Results
  import opened MaintenanceSource

  datatype ReadOutcome = FullHash(hash: string) | MountedWritable | Failed(reason: string)

  datatype Outcome = Verified | TypedSkip | NotVerified

  datatype TargetResult = TargetResult(
    effect: Effect, outcome: Outcome, observed: Option<string>, fullHash: bool, reason: Option<string>)

  datatype VerificationResult = VerificationResult(
    job: string, plan: string, planSha256: string, targets: seq<TargetResult>)

  datatype RestorationResult =
    | Restored(job: string, verification: VerificationResult)
    | Stopped(cause: Error)

  datatype Event =
    | Clock(at: nat)
    | LoadSource(job: string, source: Result<Source, Error>)
    | FreshIdentity(of: Source, deadline: nat, identity: Result<Identity, Error>)
    | VerificationIntent(of: Source, budget: nat, accepted: Result<(), Error>)
    | ReadPartition(of: Source, effect: Effect, deadline: nat, reading: Result<ReadOutcome, Error>)
    | VerificationRecord(result: VerificationResult, accepted: Result<(), Error>)
    | RestorationPlan(of: Source, artifact: string, deadline: nat, plan: Result<Plan, Error>)
    | Reserve(of: Source, sealedPlan: Plan, deadline: nat, reservation: Result<nat, Error>)
    | Execute(token: nat, deadline: nat, restored: Result<string, Error>)
    | RestorationRecord(job: string, restoration: RestorationResult, accepted: Result<(), Error>)

  /** Everything the outside world may answer, depending on all that happened before. */
  datatype World = World(
    now: seq<Event> -> nat,
    load: (seq<Event>, string) -> Result<Source, Error>,
    identity: (seq<Event>, Source) -> Result<Identity, Error>,
    accept: seq<Event> -> Result<(), Error>,
    read: (seq<Event>, Effect) -> Result<ReadOutcome, Error>,
    plan: (seq<Event>, Source) -> Result<Plan, Error>,
    reserve: (seq<Event>, Plan) -> Result<nat, Error>,
    execute: (seq<Event>, nat) -> Result<string, Error>)

  class Port {
    const world: World
    const parse: Digests
    var log: seq<Event>

    constructor (w: World, p: Digests)
      ensures world == w && parse == p && log == []
    {
      world, parse, log := w, p, [];
    }

    method Now() returns (t: nat)
      modifies this
      ensures log == old(log) + [Clock(t)]
    {
      t := world.now(log);
      log := log + [Clock(t)];
    }

    method Load(job: string) returns (r: Result<Source, Error>)
      modifies this
      ensures log == old(log) + [LoadSource(job, r)]
    {
      r := world.load(log, job);
      log := log + [LoadSource(job, r)];
    }

    method Identify(source: Source, deadline: nat) returns (r: Result<Identity, Error>)
      modifies this
      ensures log == old(log) + [FreshIdentity(source, deadline, r)]
    {
      r := world.identity(log, source);
      log := log + [FreshIdentity(source, deadline, r)];
    }

    method Intend(source: Source, budget: nat) returns (r: Result<(), Error>)
      modifies this
      ensures log == old(log) + [VerificationIntent(source, budget, r)]
    {
      r := world.accept(log);
      log := log + [VerificationIntent(source, budget, r)];
    }

    method Read(source: Source, effect: Effect, deadline: nat) returns (r: Result<ReadOutcome, Error>)
      modifies this
      ensures log == old(log) + [ReadPartition(source, effect, deadline, r)]
    {
      r := world.read(log, effect);
      log := log + [ReadPartition(source, effect, deadline, r)];
    }

    method RecordVerification(result: VerificationResult) returns (r: Result<(), Error>)
      modifies this
      ensures log == old(log) + [VerificationRecord(result, r)]
    {
      r := world.accept(log);
      log := log + [VerificationRecord(result, r)];
    }

    method PlanRestoration(source: Source, artifact: string, deadline: nat) returns (r: Result<Plan, Error>)
      modifies this
      ensures log == old(log) + [RestorationPlan(source, artifact, deadline, r)]
    {
      r := world.plan(log, source);
      log := log + [RestorationPlan(source, artifact, deadline, r)];
    }

    method ReserveRestoration(source: Source, plan: Plan, deadline: nat) returns (r: Result<nat, Error>)
      modifies this
      ensures log == old(log) + [Reserve(source, plan, deadline, r)]
    {
      r := world.reserve(log, plan);
      log := log + [Reserve(source, plan, deadline, r)];
    }

    method ExecuteRestoration(reservation: nat, deadline: nat) returns (r: Result<string, Error>)
      modifies this
      ensures log == old(log) + [Execute(reservation, deadline, r)]
    {
      r := world.execute(log, reservation);
      log := log + [Execute(reservation, deadline, r)];
    }

    method RecordRestoration(job: string, result: RestorationResult) returns (r: Result<(), Error>)
      modifies this
      ensures log == old(log) + [RestorationRecord(job, result, r)]
    {
      r := world.accept(log);
      log := log + [RestorationRecord(job, result, r)];
    }
  }

  // ----- Identity checks

  /** A check that passed: the identity is the source's, and the clock was inside the budget before and after. */
  predicate Matched(seg: seq<Event>, source: Source, deadline: nat) {
    && |seg| == 3 && seg[0].Clock? && seg[0].at < deadline
    && seg[1] == FreshIdentity(source, deadline, Ok(source.identity))
    && seg[2].Clock? && seg[2].at < deadline
  }

  /** Nothing but clock and identity. */
  predicate OnlyChecks(seg: seq<Event>) {
    forall i :: 0 <= i < |seg| ==> seg[i].Clock? || seg[i].FreshIdentity?
  }

  /** A check that failed, and why: the budget was used up before or after, the port had no identity, or it was another. */
  predicate FailedCheck(seg: seq<Event>, source: Source, deadline: nat, e: Error) {
    && 1 <= |seg| <= 3 && seg[0].Clock?
    && if |seg| == 1 then seg[0].at >= deadline && e == BudgetExhausted
       else
         && seg[0].at < deadline && seg[1].FreshIdentity? && seg[1].of == source && seg[1].deadline == deadline
         && if |seg| == 2 then
              seg[1].identity == Err(e) || (seg[1].identity.Ok? && seg[1].identity.value != source.identity && e == IdentityChanged)
            else seg[1].identity == Ok(source.identity) && seg[2].Clock? && seg[2].at >= deadline && e == BudgetExhausted
  }

  method CheckIdentity(port: Port, source: Source, deadline: nat) returns (r: Result<(), Error>, ghost seg: seq<Event>)
    modifies port
    ensures port.log == old(port.log) + seg && OnlyChecks(seg)
    ensures if r.Ok? then Matched(seg, source, deadline) else FailedCheck(seg, source, deadline, r.error)
  {
    var before := port.Now();
    seg := [Clock(before)];
    if before >= deadline {
      return Err(BudgetExhausted), seg;
    }
    var identity := port.Identify(source, deadline);
    seg := seg + [FreshIdentity(source, deadline, identity)];
    if identity.Err? {
      return Err(identity.error), seg;
    }
    if identity.value != source.identity {
      return Err(IdentityChanged), seg;
    }
    var after := port.Now();
    seg := seg + [Clock(after)];
    if after >= deadline {
      return Err(BudgetExhausted), seg;
    }
    return Ok(()), seg;
  }

  // ----- One target

  /** The verdict on one reading. */
  function Judge(effect: Effect, reading: Result<ReadOutcome, Error>): (t: TargetResult)
    ensures t.effect == effect
    ensures t.outcome == Verified <==> reading == Ok(FullHash(effect.content))
    ensures t.outcome == TypedSkip <==> reading == Ok(MountedWritable)
  {
    match reading
    case Ok(FullHash(hash)) =>
      if hash == effect.content then TargetResult(effect, Verified, Some(hash), true, None)
      else TargetResult(effect, NotVerified, Some(hash), false, Some("content-mismatch"))
    case Ok(MountedWritable) => TargetResult(effect, TypedSkip, None, false, Some("mounted-writable-after-boot"))
    case Ok(Failed(reason)) => TargetResult(effect, NotVerified, None, false, Some(reason))
    case Err(_) => TargetResult(effect, NotVerified, None, false, Some("error"))
  }

  /** A read with a passed check on either side, and the verdict it gave. */
  predicate Bracketed(seg: seq<Event>, source: Source, deadline: nat, t: TargetResult) {
    && |seg| == 7 && Matched(seg[..3], source, deadline) && Matched(seg[4..], source, deadline)
    && seg[3].ReadPartition? && seg[3].of == source && seg[3].effect == t.effect && seg[3].deadline == deadline
    && seg[3].reading.Ok? && t == Judge(t.effect, seg[3].reading)
  }

  /** A turn in which continuity was lost: the check before the read failed, the one behind it failed, or the read did. */
  predicate Losing(seg: seq<Event>, source: Source, deadline: nat, effect: Effect, e: Error) {
    || FailedCheck(seg, source, deadline, e)
    || (&& |seg| >= 4 && Matched(seg[..3], source, deadline)
        && seg[3].ReadPartition? && seg[3].of == source && seg[3].effect == effect && seg[3].deadline == deadline
        && (FailedCheck(seg[4..], source, deadline, e) || (Matched(seg[4..], source, deadline) && seg[3].reading == Err(e))))
  }

  method ReadTarget(port: Port, source: Source, effect: Effect, deadline: nat)
    returns (reading: Result<ReadOutcome, Error>, ghost seg: seq<Event>)
    modifies port
    ensures port.log == old(port.log) + seg
    ensures reading.Ok? ==> Bracketed(seg, source, deadline, Judge(effect, reading))
    ensures reading.Err? ==> Losing(seg, source, deadline, effect, reading.error)
  {
    var first, a := CheckIdentity(port, source, deadline);
    if first.Err? {
      return Err(first.error), a;
    }
    var read := port.Read(source, effect, deadline);
    var second, b := CheckIdentity(port, source, deadline);
    seg := a + [ReadPartition(source, effect, deadline, read)] + b;
    assert seg[..3] == a && seg[4..] == b;
    if second.Err? {
      return Err(second.error), seg;
    }
    return read, seg;
  }

  // ----- Verification

  function Joined(segs: seq<seq<Event>>): (r: seq<Event>) {
    if segs == [] then [] else Joined(segs[..|segs| - 1]) + segs[|segs| - 1]
  }

  lemma JoinedMore(start: seq<Event>, segs: seq<seq<Event>>, seg: seq<Event>)
    ensures start + Joined(segs + [seg]) == (start + Joined(segs)) + seg
  {
    assert (segs + [seg])[..|segs|] == segs;
    assert start + (Joined(segs) + seg) == (start + Joined(segs)) + seg;
  }

  /** All effects in order: every turn bracketed, or bracketed up to the one that lost continuity and silent behind it. */
  ghost predicate Turns(segs: seq<seq<Event>>, targets: seq<TargetResult>, source: Source, deadline: nat, lost: Option<nat>) {
    && |segs| == |targets|
    && (lost.Some? ==> lost.value < |segs|)
    && (forall i :: 0 <= i < |segs| && (lost.None? || i < lost.value) ==> Bracketed(segs[i], source, deadline, targets[i]))
    && (lost.Some? ==> exists e :: Losing(segs[lost.value], source, deadline, targets[lost.value].effect, e))
    && (forall i :: 0 <= i < |segs| && lost.Some? && i > lost.value ==> segs[i] == [])
  }

  ghost predicate OneEach(targets: seq<TargetResult>, effects: seq<Effect>) {
    |targets| == |effects| && forall i :: 0 <= i < |effects| ==> targets[i].effect == effects[i]
  }

  method ReadAll(port: Port, source: Source, deadline: nat)
    returns (targets: seq<TargetResult>, lost: Option<nat>, ghost segs: seq<seq<Event>>)
    modifies port
    ensures port.log == old(port.log) + Joined(segs)
    ensures OneEach(targets, source.plan.effects) && Turns(segs, targets, source, deadline, lost)
  {
    var effects := source.plan.effects;
    targets, lost, segs := [], None, [];
    assert port.log == old(port.log) + Joined(segs);
    for i := 0 to |effects|
      invariant port.log == old(port.log) + Joined(segs)
      invariant OneEach(targets, effects[..i]) && Turns(segs, targets, source, deadline, lost)
    {
      var reading: Result<ReadOutcome, Error>;
      ghost var seg: seq<Event> := [];
      if lost.Some? {
        reading := Err(IdentityChanged);
        assert port.log + seg == port.log;
      } else {
        reading, seg := ReadTarget(port, source, effects[i], deadline);
      }
      JoinedMore(old(port.log), segs, seg);
      if reading.Err? && lost.None? {
        lost := Some(i);
      }
      targets, segs := targets + [Judge(effects[i], reading)], segs + [seg];
    }
    assert effects[..|effects|] == effects;
  }

  function Count(targets: seq<TargetResult>, outcome: Outcome): (n: nat) {
    if targets == [] then 0 else Count(targets[1..], outcome) + if targets[0].outcome == outcome then 1 else 0
  }

  /** The three counts add up to the number of targets. */
  lemma {:induction false} CountsAddUp(targets: seq<TargetResult>)
    ensures Count(targets, Verified) + Count(targets, TypedSkip) + Count(targets, NotVerified) == |targets|
  {
    if targets == [] {
    } else {
      CountsAddUp(targets[1..]);
    }
  }

  lemma {:induction false} CountZero(targets: seq<TargetResult>, outcome: Outcome, i: nat)
    requires i < |targets| && Count(targets, outcome) == 0
    ensures targets[i].outcome != outcome
  {
    if i == 0 {
    } else {
      CountZero(targets[1..], outcome, i - 1);
    }
  }

  function ExitCode(result: VerificationResult): (code: int) {
    if Count(result.targets, NotVerified) != 0 then 7 else if Count(result.targets, TypedSkip) != 0 then 9 else 0
  }

  /** Exit 0 means every range matched. */
  lemma ExitZeroMeansVerified(result: VerificationResult, i: nat)
    requires ExitCode(result) == 0 && i < |result.targets|
    ensures result.targets[i].outcome == Verified
  {
    CountZero(result.targets, NotVerified, i);
    CountZero(result.targets, TypedSkip, i);
  }

  /** What continuity loss does to a result. */
  function Discarded(t: TargetResult): (r: TargetResult) {
    t.(outcome := NotVerified, fullHash := false, reason := Some("target-continuity-or-budget-lost"))
  }

  method Discard(targets: seq<TargetResult>) returns (r: seq<TargetResult>)
    ensures |r| == |targets| && forall i :: 0 <= i < |r| ==> r[i] == Discarded(targets[i])
  {
    r := [];
    for i := 0 to |targets|
      invariant |r| == i && forall j :: 0 <= j < i ==> r[j] == Discarded(targets[j])
    {
      r := r + [Discarded(targets[i])];
    }
  }

  predicate ValidRequest(job: string, budget: nat) {
    IsOpaqueId(job) && 1_000 <= budget <= 600_000
  }

  /** The parts of a verification that got as far as its durable intent. */
  datatype Trace = Trace(
    started: nat, source: Source, check: seq<Event>, segs: seq<seq<Event>>, raw: seq<TargetResult>, lost: Option<nat>,
    result: VerificationResult)

  function Opening(t: Trace, job: string, budget: nat): (r: seq<Event>) {
    [Clock(t.started), LoadSource(job, Ok(t.source))] + t.check + [VerificationIntent(t.source, budget, Ok(()))]
  }

  ghost predicate Verification(t: Trace, job: string, budget: nat, parse: Digests) {
    && ValidSource(t.source, job, false, parse) && Matched(t.check, t.source, t.started + budget)
    && OneEach(t.raw, t.source.plan.effects) && Turns(t.segs, t.raw, t.source, t.started + budget, t.lost)
    && t.result.job == t.source.job.id && t.result.plan == t.source.plan.id && t.result.planSha256 == t.source.plan.sha256
    && |t.result.targets| == |t.raw|
    && (forall i :: 0 <= i < |t.raw| ==> t.result.targets[i] == if t.lost.Some? then Discarded(t.raw[i]) else t.raw[i])
  }

  /** Neither a read nor a record nor anything of a restoration. */
  predicate Quiet(run: seq<Event>) {
    forall i :: 0 <= i < |run| ==>
                  run[i].Clock? || run[i].LoadSource? || run[i].FreshIdentity? || run[i].VerificationIntent?
  }

  /** A snapshot that could not be loaded or is not accepted. */
  ghost predicate LoadStops(run: seq<Event>, job: string, restoring: bool, e: Error, parse: Digests) {
    && |run| == 1 && run[0].LoadSource? && run[0].job == job
    && (run[0].source == Err(e) || (run[0].source.Ok? && !ValidSource(run[0].source.value, job, restoring, parse) && e == SourceRefused))
  }

  /** A snapshot that was loaded and accepted. */
  method LoadValid(port: Port, job: string, restoring: bool) returns (r: Result<Source, Error>, ghost run: seq<Event>)
    modifies port
    ensures port.log == old(port.log) + run && Quiet(run)
    ensures r.Ok? ==> run == [LoadSource(job, Ok(r.value))] && ValidSource(r.value, job, restoring, port.parse)
    ensures r.Err? ==> LoadStops(run, job, restoring, r.error, port.parse)
  {
    var loaded := port.Load(job);
    run := [LoadSource(job, loaded)];
    if loaded.Err? {
      return Err(loaded.error), run;
    }
    var valid := ValidateSource(loaded.value, job, restoring, port.parse);
    if valid.Err? {
      return Err(valid.error), run;
    }
    return Ok(loaded.value), run;
  }

  /** The check before the first read failed, or the intent was refused. */
  predicate IntentStops(run: seq<Event>, source: Source, budget: nat, deadline: nat, e: Error) {
    || FailedCheck(run, source, deadline, e)
    || (|run| == 4 && Matched(run[..3], source, deadline) && run[3] == VerificationIntent(source, budget, Err(e)))
  }

  /** Identity and intent, before the first read. */
  method CheckAndIntend(port: Port, source: Source, budget: nat, deadline: nat)
    returns (r: Result<(), Error>, ghost check: seq<Event>, ghost run: seq<Event>)
    modifies port
    ensures port.log == old(port.log) + run && Quiet(run)
    ensures r.Ok? ==> Matched(check, source, deadline) && run == check + [VerificationIntent(source, budget, Ok(()))]
    ensures r.Err? ==> IntentStops(run, source, budget, deadline, r.error)
  {
    r, check := CheckIdentity(port, source, deadline);
    run := check;
    if r.Err? {
      return;
    }
    r := port.Intend(source, budget);
    run := check + [VerificationIntent(source, budget, r)];
    assert run[..3] == check;
    assert r.Ok? ==> r.value == ();
  }

  /** Why a verification ended before its intent was durable, as its events show. */
  ghost predicate StopsEarly(run: seq<Event>, job: string, budget: nat, e: Error, parse: Digests) {
    && |run| >= 2 && run[0].Clock?
    && (|| LoadStops(run[1..], job, false, e, parse)
        || (&& run[1].LoadSource? && run[1].job == job && run[1].source.Ok?
            && ValidSource(run[1].source.value, job, false, parse)
            && IntentStops(run[2..], run[1].source.value, budget, run[0].at + budget, e)))
  }

  method Open(port: Port, job: string, budget: nat)
    returns (r: Result<(Source, nat), Error>, ghost started: nat, ghost check: seq<Event>, ghost run: seq<Event>)
    modifies port
    ensures port.log == old(port.log) + run && Quiet(run)
    ensures r.Ok? ==>
              && r.value.1 == started + budget && ValidSource(r.value.0, job, false, port.parse)
              && Matched(check, r.value.0, r.value.1)
              && run == [Clock(started), LoadSource(job, Ok(r.value.0))] + check + [VerificationIntent(r.value.0, budget, Ok(()))]
    ensures r.Err? ==> StopsEarly(run, job, budget, r.error, port.parse)
  {
    var now := port.Now();
    started, check := now, [];
    var source, loading := LoadValid(port, job, false);
    run := [Clock(now)] + loading;
    if source.Err? {
      assert run[1..] == loading;
      r := Err(source.error);
      return;
    }
    var intended;
    ghost var rest;
    intended, check, rest := CheckAndIntend(port, source.value, budget, now + budget);
    Regroup(old(port.log), [Clock(now)], loading, rest);
    run := [Clock(now)] + loading + rest;
    if intended.Err? {
      assert run[2..] == rest;
      r := Err(intended.error);
      return;
    }
    r := Ok((source.value, now + budget));
    assert [Clock(now)] + loading + (check + [VerificationIntent(source.value, budget, Ok(()))])
        == [Clock(now), LoadSource(job, Ok(source.value))] + check + [VerificationIntent(source.value, budget, Ok(()))];
  }

  /**
   * What a call of `verify` did and answered.  A request that is not valid
   * reaches no port.  Otherwise it stopped before its intent was durable, for
   * the reason its last events show, or it went through all effects and
   * published one record, whose acceptance decides the answer.
   */
  ghost predicate VerifyRun(run: seq<Event>, job: string, budget: nat, r: Result<VerificationResult, Error>, t: Option<Trace>, parse: Digests) {
    if !ValidRequest(job, budget) then r == Err(InvalidInput) && run == [] && t.None?
    else
      match t
      case None => r.Err? && Quiet(run) && StopsEarly(run, job, budget, r.error, parse)
      case Some(t) =>
        && Verification(t, job, budget, parse)
        && run == Opening(t, job, budget) + Joined(t.segs) + [VerificationRecord(t.result, if r.Ok? then Ok(()) else Err(r.error))]
        && (r.Ok? ==> r.value == t.result)
  }

  /** `verify`. */
  method Verify(port: Port, job: string, budget: nat)
    returns (r: Result<VerificationResult, Error>, ghost t: Option<Trace>, ghost run: seq<Event>)
    modifies port
    ensures port.log == old(port.log) + run && NoDispatch(run)
    ensures VerifyRun(run, job, budget, r, t, port.parse)
  {
    t, run := None, [];
    if !ValidRequest(job, budget) {
      r := Err(InvalidInput);
      return;
    }
    var begun, started, check, opening := Open(port, job, budget);
    run := opening;
    if begun.Err? {
      r := Err(begun.error);
      return;
    }
    var source, deadline := begun.value.0, begun.value.1;
    var raw, lost, segs := ReadAll(port, source, deadline);
    var targets := raw;
    if lost.Some? {
      targets := Discard(raw);
    }
    var result := VerificationResult(source.job.id, source.plan.id, source.plan.sha256, targets);
    var accepted := port.RecordVerification(result);
    t := Some(Trace(started, source, check, segs, raw, lost, result));
    run := Opening(t.value, job, budget) + Joined(segs) + [VerificationRecord(result, accepted)];
    assert opening == Opening(t.value, job, budget);
    Regroup(old(port.log), opening, Joined(segs), [VerificationRecord(result, accepted)]);
    TurnsDispatchNothing(t.value.segs, raw, source, deadline, lost);
    assert accepted.Ok? ==> accepted.value == ();
    r := if accepted.Ok? then Ok(result) else Err(accepted.error);
  }

  lemma TurnsDispatchNothing(segs: seq<seq<Event>>, targets: seq<TargetResult>, source: Source, deadline: nat, lost: Option<nat>)
    requires Turns(segs, targets, source, deadline, lost)
    ensures NoDispatch(Joined(segs))
  {
    forall i | 0 <= i < |segs|
      ensures NoDispatch(segs[i])
    {
      if lost.None? || i < lost.value {
        BracketedDispatchesNothing(segs[i], source, deadline, targets[i]);
      } else if i == lost.value {
        var e :| Losing(segs[i], source, deadline, targets[i].effect, e);
        LosingDispatchesNothing(segs[i], source, deadline, targets[i].effect, e);
      }
    }
    JoinedDispatchesNothing(segs);
  }

  lemma BracketedDispatchesNothing(seg: seq<Event>, source: Source, deadline: nat, t: TargetResult)
    requires Bracketed(seg, source, deadline, t)
    ensures NoDispatch(seg)
  {
    assert seg == seg[..3] + [seg[3]] + seg[4..];
    assert NoDispatch(seg[..3]) && NoDispatch(seg[4..]);
  }

  lemma LosingDispatchesNothing(seg: seq<Event>, source: Source, deadline: nat, effect: Effect, e: Error)
    requires Losing(seg, source, deadline, effect, e)
    ensures NoDispatch(seg)
  {
    if !FailedCheck(seg, source, deadline, e) {
      assert seg == seg[..3] + [seg[3]] + seg[4..];
      assert NoDispatch(seg[..3]) && NoDispatch(seg[4..]);
    }
  }

  lemma {:induction false} JoinedDispatchesNothing(segs: seq<seq<Event>>)
    requires forall i :: 0 <= i < |segs| ==> NoDispatch(segs[i])
    ensures NoDispatch(Joined(segs))
  {
    if segs == [] {
    } else {
      JoinedDispatchesNothing(segs[..|segs| - 1]);
    }
  }

  lemma Regroup(a: seq<Event>, b: seq<Event>, c: seq<Event>, d: seq<Event>)
    ensures ((a + b) + c) + d == a + (b + c + d)
  {
  }

  // ----- What a verification means

  /** One result per sealed effect, in order, and the counts partition them. */
  lemma OneResultPerEffect(t: Trace, job: string, budget: nat, parse: Digests)
    requires Verification(t, job, budget, parse)
    ensures OneEach(t.result.targets, t.source.plan.effects)
    ensures Count(t.result.targets, Verified) + Count(t.result.targets, TypedSkip) + Count(t.result.targets, NotVerified)
            == |t.source.plan.effects|
  {
    CountsAddUp(t.result.targets);
  }

  /** One verified target implies that every read of the run stood between two matching checks inside the budget, and that
      this one hashed to the sealed content. */
  lemma VerifiedMeansBracketed(t: Trace, job: string, budget: nat, parse: Digests, i: nat)
    requires Verification(t, job, budget, parse) && i < |t.result.targets| && t.result.targets[i].outcome == Verified
    ensures t.lost.None?
    ensures forall j :: 0 <= j < |t.segs| ==> Bracketed(t.segs[j], t.source, t.started + budget, t.raw[j])
    ensures t.segs[i][3].reading == Ok(FullHash(t.source.plan.effects[i].content))
  {
    assert t.lost.None?;
    assert Bracketed(t.segs[i], t.source, t.started + budget, t.raw[i]);
  }

  /** After the first loss nothing more is read, and no target is verified or skipped. */
  lemma LossFailsEverything(t: Trace, job: string, budget: nat, parse: Digests, i: nat)
    requires Verification(t, job, budget, parse) && t.lost.Some? && i < |t.result.targets|
    ensures t.result.targets[i].outcome == NotVerified && !t.result.targets[i].fullHash
    ensures i > t.lost.value ==> t.segs[i] == []
    ensures ExitCode(t.result) == 7
  {
    if Count(t.result.targets, NotVerified) == 0 {
      CountZero(t.result.targets, NotVerified, i);
    }
  }

  // ----- Restoration

  const LOADER: seq<string> := ["probeDevice", "validateLayout", "writeTarget", "verifyTarget", "reboot", "postflightProbe"]
  const NORMAL: seq<string> := ["ensureMode"] + LOADER

  function Kinds(steps: seq<Step>): (r: seq<string>) {
    seq(|steps|, i requires 0 <= i < |steps| => steps[i].kind)
  }

  /** A plan that writes the original ramdisk and nothing else, under the source's campaign. */
  predicate PlanRestores(plan: Plan, source: Source, parse: Digests) {
    && plan.id != source.plan.id && plan.purpose == "primaryFlash" && parse(plan.sha256).Some?
    && |plan.effects| == 1 && OriginalRamdisk(plan.effects[0])
    && plan.supportCampaign == source.campaign && plan.maturityCampaign == source.campaign
  }

  predicate StepsRestore(steps: seq<Step>) {
    && (Kinds(steps) == LOADER || Kinds(steps) == NORMAL)
    && forall i :: 0 <= i < |steps| && (steps[i].kind == "writeTarget" || steps[i].kind == "verifyTarget") ==>
                     steps[i].semanticTarget == "partition:ramdisk" && steps[i].content == RESTORATION_SHA256
  }

  /** A check, and the plan it was answered with. */
  ghost predicate Planned(run: seq<Event>, source: Source, artifact: string, deadline: nat, parse: Digests) {
    && |run| == 4 && Matched(run[..3], source, deadline)
    && run[3].RestorationPlan? && run[3].of == source && run[3].artifact == artifact && run[3].deadline == deadline
    && run[3].plan.Ok? && PlanRestores(run[3].plan.value, source, parse)
  }

  /** The check failed, there was no plan, or it was not one that restores. */
  ghost predicate PlanStops(run: seq<Event>, source: Source, artifact: string, deadline: nat, e: Error, parse: Digests) {
    || FailedCheck(run, source, deadline, e)
    || (&& |run| == 4 && Matched(run[..3], source, deadline)
        && run[3].RestorationPlan? && run[3].of == source && run[3].artifact == artifact && run[3].deadline == deadline
        && (run[3].plan == Err(e) || (run[3].plan.Ok? && !PlanRestores(run[3].plan.value, source, parse) && e == SourceRefused)))
  }

  /** A check, and the reservation of a plan whose steps restore. */
  predicate Reserved(run: seq<Event>, source: Source, plan: Plan, deadline: nat) {
    && |run| == 4 && Matched(run[..3], source, deadline) && StepsRestore(plan.steps)
    && run[3].Reserve? && run[3].of == source && run[3].sealedPlan == plan && run[3].deadline == deadline && run[3].reservation.Ok?
  }

  /** The check failed, the steps do not restore, or the reservation was refused. */
  predicate ReserveStops(run: seq<Event>, source: Source, plan: Plan, deadline: nat, e: Error) {
    || FailedCheck(run, source, deadline, e)
    || (|run| == 3 && Matched(run, source, deadline) && !StepsRestore(plan.steps) && e == SourceRefused)
    || (&& |run| == 4 && Matched(run[..3], source, deadline) && StepsRestore(plan.steps)
        && run[3] == Reserve(source, plan, deadline, Err(e)))
  }

  /** A clock reading and an accepted source. */
  ghost predicate Loaded(run: seq<Event>, job: string, parse: Digests) {
    && |run| >= 2 && run[0].Clock? && run[1].LoadSource? && run[1].job == job && run[1].source.Ok?
    && ValidSource(run[1].source.value, job, true, parse)
  }

  /** The only way a restoration is ever dispatched: the ten events before it, in this order. */
  ghost predicate Prepared(run: seq<Event>, job: string, artifact: string, budget: nat, parse: Digests) {
    && |run| == 10 && Loaded(run, job, parse)
    && var source, deadline := run[1].source.value, run[0].at + budget;
    && Planned(run[2..6], source, artifact, deadline, parse) && run[5].RestorationPlan? && run[5].plan.Ok?
    && Reserved(run[6..10], source, run[5].plan.value, deadline) && run[9].Reserve? && run[9].reservation.Ok?
  }

  /** Why it never came to that, as the last events show. */
  ghost predicate PreparationStops(run: seq<Event>, job: string, artifact: string, budget: nat, e: Error, parse: Digests) {
    && |run| >= 2 && run[0].Clock?
    && (|| LoadStops(run[1..], job, true, e, parse)
        || (&& Loaded(run, job, parse)
            && var source, deadline := run[1].source.value, run[0].at + budget;
            (|| PlanStops(run[2..], source, artifact, deadline, e, parse)
             || (&& |run| >= 6 && Planned(run[2..6], source, artifact, deadline, parse)
                 && run[5].RestorationPlan? && run[5].plan.Ok?
                 && ReserveStops(run[6..], source, run[5].plan.value, deadline, e)))))
  }

  predicate NoDispatch(run: seq<Event>) {
    forall i :: 0 <= i < |run| ==> !run[i].Execute? && !run[i].RestorationRecord?
  }

  datatype Permit = Permit(source: Source, plan: Plan, deadline: nat, token: nat)

  /** What a preparation ends with. */
  function PermitOf(run: seq<Event>, budget: nat): (p: Permit)
    requires |run| >= 10 && run[0].Clock? && run[1].LoadSource? && run[1].source.Ok?
    requires run[5].RestorationPlan? && run[5].plan.Ok? && run[9].Reserve? && run[9].reservation.Ok?
  {
    Permit(run[1].source.value, run[5].plan.value, run[0].at + budget, run[9].reservation.value)
  }

  /** Source, identity, plan, identity again, reservation. */
  method Prepare(port: Port, job: string, artifact: string, budget: nat)
    returns (r: Result<Permit, Error>, ghost run: seq<Event>)
    modifies port
    ensures port.log == old(port.log) + run && NoDispatch(run)
    ensures r.Ok? ==> Prepared(run, job, artifact, budget, port.parse) && r.value == PermitOf(run, budget)
    ensures r.Err? ==> PreparationStops(run, job, artifact, budget, r.error, port.parse)
  {
    var now := port.Now();
    var source, loading := LoadValid(port, job, true);
    run := [Clock(now)] + loading;
    if source.Err? {
      assert run[1..] == loading;
      return Err(source.error), run;
    }
    ghost var rest;
    r, rest := PlanAndReserve(port, source.value, artifact, now + budget);
    Regroup(old(port.log), [Clock(now)], loading, rest);
    run := [Clock(now)] + loading + rest;
    Begins(now, job, source.value, rest);
    Prepares(run, job, artifact, budget, port.parse, source.value, rest, r);
  }

  /** The middle part, behind an accepted source. */
  ghost predicate PlanAndReserveRun(run: seq<Event>, source: Source, artifact: string, deadline: nat, r: Result<Permit, Error>, parse: Digests) {
    match r
    case Ok(p) =>
      && |run| == 8 && Planned(run[..4], source, artifact, deadline, parse) && run[3].RestorationPlan? && run[3].plan.Ok?
      && Reserved(run[4..], source, run[3].plan.value, deadline) && run[7].Reserve? && run[7].reservation.Ok?
      && p == Permit(source, run[3].plan.value, deadline, run[7].reservation.value)
    case Err(e) =>
      || PlanStops(run, source, artifact, deadline, e, parse)
      || (&& |run| >= 4 && Planned(run[..4], source, artifact, deadline, parse) && run[3].RestorationPlan? && run[3].plan.Ok?
          && ReserveStops(run[4..], source, run[3].plan.value, deadline, e))
  }

  method PlanAndReserve(port: Port, source: Source, artifact: string, deadline: nat)
    returns (r: Result<Permit, Error>, ghost run: seq<Event>)
    modifies port
    ensures port.log == old(port.log) + run && NoDispatch(run)
    ensures PlanAndReserveRun(run, source, artifact, deadline, r, port.parse)
  {
    var plan, first := CheckAndPlan(port, source, artifact, deadline);
    run := first;
    if plan.Err? {
      return Err(plan.error), run;
    }
    var token, second := CheckAndReserve(port, source, plan.value, deadline);
    assert (old(port.log) + first) + second == old(port.log) + (first + second);
    run := first + second;
    assert run[..4] == first && run[4..] == second;
    if token.Err? {
      return Err(token.error), run;
    }
    return Ok(Permit(source, plan.value, deadline, token.value)), run;
  }

  lemma Begins(now: nat, job: string, source: Source, rest: seq<Event>)
    ensures var run := [Clock(now)] + [LoadSource(job, Ok(source))] + rest;
            && |run| == 2 + |rest| && run[0] == Clock(now) && run[1] == LoadSource(job, Ok(source)) && run[2..] == rest
            && (|rest| >= 4 ==> run[2..6] == rest[..4] && run[5] == rest[3] && run[6..] == rest[4..])
            && (|rest| == 8 ==> run[6..10] == rest[4..] && run[9] == rest[7])
  {
  }

  lemma Prepares(run: seq<Event>, job: string, artifact: string, budget: nat, parse: Digests,
                 source: Source, rest: seq<Event>, r: Result<Permit, Error>)
    requires |run| == 2 + |rest| && run[0].Clock? && run[1] == LoadSource(job, Ok(source)) && run[2..] == rest
    requires |rest| >= 4 ==> run[2..6] == rest[..4] && run[5] == rest[3] && run[6..] == rest[4..]
    requires |rest| == 8 ==> run[6..10] == rest[4..] && run[9] == rest[7]
    requires ValidSource(source, job, true, parse) && PlanAndReserveRun(rest, source, artifact, run[0].at + budget, r, parse)
    ensures r.Ok? ==> Prepared(run, job, artifact, budget, parse) && r.value == PermitOf(run, budget)
    ensures r.Err? ==> PreparationStops(run, job, artifact, budget, r.error, parse)
  {
    assert Loaded(run, job, parse);
  }

  method CheckAndPlan(port: Port, source: Source, artifact: string, deadline: nat)
    returns (r: Result<Plan, Error>, ghost run: seq<Event>)
    modifies port
    ensures port.log == old(port.log) + run && NoDispatch(run)
    ensures r.Ok? ==> Planned(run, source, artifact, deadline, port.parse) && run[3].plan == r
    ensures r.Err? ==> PlanStops(run, source, artifact, deadline, r.error, port.parse)
  {
    var same, check := CheckIdentity(port, source, deadline);
    run := check;
    if same.Err? {
      return Err(same.error), run;
    }
    r := port.PlanRestoration(source, artifact, deadline);
    run := check + [RestorationPlan(source, artifact, deadline, r)];
    assert run[..3] == check;
    if r.Ok? && !PlanRestores(r.value, source, port.parse) {
      r := Err(SourceRefused);
    }
  }

  method CheckAndReserve(port: Port, source: Source, plan: Plan, deadline: nat)
    returns (r: Result<nat, Error>, ghost run: seq<Event>)
    modifies port
    ensures port.log == old(port.log) + run && NoDispatch(run)
    ensures r.Ok? ==> Reserved(run, source, plan, deadline) && run[3].reservation == r
    ensures r.Err? ==> ReserveStops(run, source, plan, deadline, r.error)
  {
    var same, check := CheckIdentity(port, source, deadline);
    run := check;
    if same.Err? {
      return Err(same.error), run;
    }
    if !StepsRestore(plan.steps) {
      return Err(SourceRefused), run;
    }
    r := port.ReserveRestoration(source, plan, deadline);
    run := check + [Reserve(source, plan, deadline, r)];
    assert run[..3] == check;
  }

  // ----- The confirmation

  predicate IsConfirmation(v: VerificationResult, plan: Plan) {
    |v.targets| == 1 && ExitCode(v) == 0 && OriginalRamdisk(v.targets[0].effect) && v.planSha256 == plan.sha256
  }

  /** The restored job is another one, a second of the budget is left, and the snapshot is the dispatched plan on the same
      device. */
  predicate Followed(run: seq<Event>, job: string, permit: Permit, restored: string) {
    && restored != job && |run| >= 2 && run[0].Clock? && run[0].at + 1000 <= permit.deadline
    && run[1].LoadSource? && run[1].job == restored && run[1].source.Ok?
    && run[1].source.value.identity == permit.source.identity && run[1].source.value.plan == permit.plan
  }

  /** A second, separate verification of the restored job: the pinned ramdisk, hashed in full, by the dispatched plan. */
  ghost predicate Confirmed(run: seq<Event>, job: string, permit: Permit, restored: string, verification: VerificationResult, t: Trace, parse: Digests) {
    && Followed(run, job, permit, restored)
    && VerifyRun(run[2..], restored, permit.deadline - run[0].at, Ok(verification), Some(t), parse)
    && IsConfirmation(verification, permit.plan)
  }

  /** Why the restored job was not followed. */
  predicate FollowStops(run: seq<Event>, job: string, permit: Permit, restored: string, e: Error) {
    if restored == job then run == [] && e == SourceRefused
    else
      && 1 <= |run| <= 2 && run[0].Clock?
      && if |run| == 1 then run[0].at + 1000 > permit.deadline && e == BudgetExhausted
         else
           && run[0].at + 1000 <= permit.deadline && run[1].LoadSource? && run[1].job == restored
           && match run[1].source
              case Err(error) => e == error
              case Ok(s) => (s.identity != permit.source.identity || s.plan != permit.plan) && e == IdentityChanged
  }

  /** Why there was no confirmation: the job was not followed, its verification failed, or it verified something else. */
  ghost predicate ConfirmStops(run: seq<Event>, job: string, permit: Permit, restored: string, e: Error, t: Option<Trace>, parse: Digests) {
    || FollowStops(run, job, permit, restored, e)
    || (&& Followed(run, job, permit, restored)
        && var budget := permit.deadline - run[0].at;
        (|| VerifyRun(run[2..], restored, budget, Err(e), t, parse)
         || (&& t.Some? && !IsConfirmation(t.value.result, permit.plan) && e == SourceRefused
             && VerifyRun(run[2..], restored, budget, Ok(t.value.result), t, parse))))
  }

  method Follow(port: Port, job: string, permit: Permit, restored: string) returns (r: Result<nat, Error>, ghost run: seq<Event>)
    modifies port
    ensures port.log == old(port.log) + run && NoDispatch(run)
    ensures r.Ok? ==> |run| == 2 && Followed(run, job, permit, restored) && r.value == permit.deadline - run[0].at
    ensures r.Err? ==> FollowStops(run, job, permit, restored, r.error)
  {
    run := [];
    if restored == job {
      return Err(SourceRefused), run;
    }
    var now := port.Now();
    run := [Clock(now)];
    if now > permit.deadline || permit.deadline - now < 1000 {
      return Err(BudgetExhausted), run;
    }
    var snapshot := port.Load(restored);
    run := run + [LoadSource(restored, snapshot)];
    if snapshot.Err? {
      return Err(snapshot.error), run;
    }
    if snapshot.value.identity != permit.source.identity || snapshot.value.plan != permit.plan {
      return Err(IdentityChanged), run;
    }
    return Ok(permit.deadline - now), run;
  }

  method Confirm(port: Port, job: string, permit: Permit, restored: string)
    returns (r: Result<VerificationResult, Error>, ghost t: Option<Trace>, ghost run: seq<Event>)
    modifies port
    ensures port.log == old(port.log) + run && NoDispatch(run)
    ensures r.Ok? ==> t.Some? && Confirmed(run, job, permit, restored, r.value, t.value, port.parse)
    ensures r.Err? ==> ConfirmStops(run, job, permit, restored, r.error, t, port.parse)
  {
    t := None;
    var left, before := Follow(port, job, permit, restored);
    run := before;
    if left.Err? {
      return Err(left.error), t, run;
    }
    ghost var vrun;
    r, t, vrun := Verify(port, restored, left.value);
    assert (old(port.log) + before) + vrun == old(port.log) + (before + vrun);
    run := before + vrun;
    assert run[0] == before[0] && run[1] == before[1] && run[2..] == vrun;
    if r.Ok? && !IsConfirmation(r.value, permit.plan) {
      r := Err(SourceRefused);
    }
  }

  // ----- Dispatch and confirmation

  /** What follows a permit: the dispatch, then the confirmation or the reason why there is none. */
  ghost predicate Carried(e: Event, rest: seq<Event>, job: string, permit: Permit, result: RestorationResult, t: Option<Trace>, parse: Digests) {
    && e.Execute? && e.token == permit.token && e.deadline == permit.deadline
    && match result
       case Restored(restored, verification) =>
         e.restored == Ok(restored) && t.Some? && Confirmed(rest, job, permit, restored, verification, t.value, parse)
       case Stopped(error) =>
         || (e.restored == Err(error) && rest == [])
         || (e.restored.Ok? && ConfirmStops(rest, job, permit, e.restored.value, error, t, parse))
  }

  method Carry(port: Port, job: string, permit: Permit)
    returns (result: RestorationResult, ghost t: Option<Trace>, ghost e: Event, ghost rest: seq<Event>)
    modifies port
    ensures port.log == old(port.log) + [e] + rest && NoDispatch(rest)
    ensures Carried(e, rest, job, permit, result, t, port.parse)
  {
    t, rest := None, [];
    var restored := port.ExecuteRestoration(permit.token, permit.deadline);
    e := Execute(permit.token, permit.deadline, restored);
    assert port.log == old(port.log) + [e] + rest;
    if restored.Err? {
      result := Stopped(restored.error);
      return;
    }
    var verification;
    verification, t, rest := Confirm(port, job, permit, restored.value);
    result := if verification.Err? then Stopped(verification.error) else Restored(restored.value, verification.value);
  }

  /** A dispatch happens at most once, and only on the reservation that the preparation ended with. */
  ghost predicate Protocol(run: seq<Event>, job: string, artifact: string, budget: nat, parse: Digests) {
    forall k :: 0 <= k < |run| ==>
                  && !run[k].RestorationRecord?
                  && (run[k].Execute? ==>
                        k == 10 && Prepared(run[..10], job, artifact, budget, parse) && run[10].token == run[9].reservation.value)
  }

  /** What an attempt did and came to: it stopped before the dispatch, or it dispatched and went on from there. */
  ghost predicate Attempted(run: seq<Event>, job: string, artifact: string, budget: nat, result: RestorationResult, t: Option<Trace>, parse: Digests) {
    || (result.Stopped? && PreparationStops(run, job, artifact, budget, result.cause, parse))
    || (&& |run| > 10 && Prepared(run[..10], job, artifact, budget, parse)
        && Carried(run[10], run[11..], job, PermitOf(run[..10], budget), result, t, parse))
  }

  /** Everything before the final record. */
  method Attempt(port: Port, job: string, artifact: string, budget: nat)
    returns (result: RestorationResult, ghost t: Option<Trace>, ghost run: seq<Event>)
    modifies port
    ensures port.log == old(port.log) + run
    ensures Protocol(run, job, artifact, budget, port.parse) && Attempted(run, job, artifact, budget, result, t, port.parse)
  {
    var permit, prepared := Prepare(port, job, artifact, budget);
    if permit.Err? {
      NothingDispatched(prepared, job, artifact, budget, port.parse);
      return Stopped(permit.error), None, prepared;
    }
    ghost var e, rest;
    result, t, e, rest := Carry(port, job, permit.value);
    run := prepared + [e] + rest;
    Regroup(old(port.log), prepared, [e], rest);
    OneDispatch(prepared, e, rest, job, artifact, budget, port.parse);
    assert run[..10] == prepared && run[10] == e && run[11..] == rest;
  }

  lemma NothingDispatched(run: seq<Event>, job: string, artifact: string, budget: nat, parse: Digests)
    requires NoDispatch(run)
    ensures Protocol(run, job, artifact, budget, parse)
  {
  }

  lemma OneDispatch(prepared: seq<Event>, e: Event, rest: seq<Event>, job: string, artifact: string, budget: nat, parse: Digests)
    requires Prepared(prepared, job, artifact, budget, parse) && NoDispatch(prepared) && NoDispatch(rest)
    requires e.Execute? && e.token == prepared[9].reservation.value
    ensures Protocol(prepared + [e] + rest, job, artifact, budget, parse)
  {
    var run := prepared + [e] + rest;
    assert run[..10] == prepared && run[10] == e && run[11..] == rest;
    forall k | 0 <= k < |run|
      ensures !run[k].RestorationRecord? && (run[k].Execute? ==> k == 10)
    {
      if k > 10 {
        assert run[k] == rest[k - 11];
      }
    }
  }

  /** A run that was reported as a restoration. */
  ghost predicate Success(run: seq<Event>, job: string, artifact: string, budget: nat, result: RestorationResult, t: Trace, parse: Digests) {
    result.Restored? && Protocol(run, job, artifact, budget, parse) && Attempted(run, job, artifact, budget, result, Some(t), parse)
  }

  /**
   * `restore`.  Invalid input reaches no port.  Anything else ends in exactly
   * one final record, whose acceptance decides the answer; a restoration is
   * dispatched at most once; a success is reported only on a separate full-hash
   * verification, and a stop for the reason that the last events show.
   */
  method Restore(port: Port, job: string, artifact: string, budget: nat)
    returns (r: Result<RestorationResult, Error>, ghost result: RestorationResult, ghost t: Option<Trace>, ghost run: seq<Event>)
    modifies port
    ensures port.log == old(port.log) + run
    ensures !ValidRequest(job, budget) || port.parse(artifact).None? ==> r == Err(InvalidInput) && run == []
    ensures ValidRequest(job, budget) && port.parse(artifact).Some? ==>
              && run != [] && Attempted(run[..|run| - 1], job, artifact, budget, result, t, port.parse)
              && Protocol(run[..|run| - 1], job, artifact, budget, port.parse)
              && run[|run| - 1] == RestorationRecord(job, result, if r.Ok? then Ok(()) else Err(r.error))
              && (r.Ok? ==> r.value == result)
  {
    t, run, result := None, [], Stopped(InvalidInput);
    if !ValidRequest(job, budget) || port.parse(artifact).None? {
      r := Err(InvalidInput);
      return;
    }
    var attempted;
    ghost var body;
    attempted, t, body := Attempt(port, job, artifact, budget);
    var accepted := port.RecordRestoration(job, attempted);
    result := attempted;
    run := body + [RestorationRecord(job, attempted, accepted)];
    assert run[..|run| - 1] == body;
    assert accepted.Ok? ==> accepted.value == ();
    r := if accepted.Ok? then Ok(attempted) else Err(accepted.error);
  }

  // ----- What a reported restoration means
  // ----- What a reported restoration means

  lemma ConfirmedShape(run: seq<Event>, job: string, permit: Permit, restored: string, verification: VerificationResult, t: Trace, parse: Digests)
    requires Confirmed(run, job, permit, restored, verification, t, parse)
    ensures var budget := permit.deadline - run[0].at;
            && Verification(t, restored, budget, parse) && t.result == verification
            && run[2..] == Opening(t, restored, budget) + Joined(t.segs) + [VerificationRecord(verification, Ok(()))]
  {
  }

  /** One target, verified: the confirming verification has one turn of seven events. */
  lemma ConfirmedTurn(run: seq<Event>, job: string, permit: Permit, restored: string, verification: VerificationResult, t: Trace, parse: Digests)
    requires Confirmed(run, job, permit, restored, verification, t, parse)
    ensures |t.segs| == 1 && |t.raw| == 1 && t.lost.None? && Joined(t.segs) == t.segs[0]
    ensures Bracketed(t.segs[0], t.source, t.started + (permit.deadline - run[0].at), t.raw[0])
    ensures OriginalRamdisk(t.raw[0].effect) && t.segs[0][3].reading == Ok(FullHash(RESTORATION_SHA256))
  {
    var budget := permit.deadline - run[0].at;
    ConfirmedShape(run, job, permit, restored, verification, t, parse);
    ExitZeroMeansVerified(verification, 0);
    VerifiedMeansBracketed(t, restored, budget, parse, 0);
    OneResultPerEffect(t, restored, budget, parse);
    assert t.segs == [t.segs[0]];
    JoinedOne(t.segs[0]);
  }

  lemma JoinedOne(seg: seq<Event>)
    ensures Joined([seg]) == seg
  {
    assert [seg][..0] == [];
  }

  /** The sixteen events of a confirmation: clock, snapshot, six that open the verification, seven of its turn, the record. */
  lemma ConfirmedEvents(run: seq<Event>, job: string, permit: Permit, restored: string, verification: VerificationResult, t: Trace, parse: Digests)
    requires Confirmed(run, job, permit, restored, verification, t, parse)
    ensures |run| == 16 && |t.segs| == 1 && run[2] == Clock(t.started) && run[8..15] == t.segs[0]
  {
    ConfirmedShape(run, job, permit, restored, verification, t, parse);
    ConfirmedTurn(run, job, permit, restored, verification, t, parse);
    var budget := permit.deadline - run[0].at;
    var opening, seg := Opening(t, restored, budget), t.segs[0];
    var rest := run[2..];
    assert |opening| == 6 && opening[0] == Clock(t.started);
    assert rest == opening + seg + [VerificationRecord(verification, Ok(()))];
    assert rest[0] == run[2] && rest[6..13] == seg && run[8..15] == rest[6..13];
  }

  /** The deadline the confirming verification works with: what is left of the restoration's budget when it is measured,
      counted from the clock reading of the verification itself. */
  function InnerDeadline(run: seq<Event>, budget: nat): (d: int)
    requires |run| > 13 && run[0].Clock? && run[11].Clock? && run[13].Clock?
  {
    run[13].at + (run[0].at + budget - run[11].at)
  }

  lemma SuccessShape(run: seq<Event>, job: string, artifact: string, budget: nat, result: RestorationResult, t: Trace, parse: Digests)
    requires Success(run, job, artifact, budget, result, t, parse)
    ensures |run| == 27 && run[0].Clock? && run[11].Clock? && run[13] == Clock(t.started) && |t.segs| == 1 && run[19..26] == t.segs[0]
    ensures Prepared(run[..10], job, artifact, budget, parse)
    ensures Confirmed(run[11..], job, PermitOf(run[..10], budget), result.job, result.verification, t, parse)
  {
    var rest := run[11..];
    ConfirmedEvents(rest, job, PermitOf(run[..10], budget), result.job, result.verification, t, parse);
    assert rest[0] == run[11] && rest[2] == run[13] && rest[8..15] == run[19..26];
  }

  /** A reported restoration was read back: the reading of the ramdisk's whole range hashed to the pinned content, between
      two identity checks before the inner deadline. */
  lemma RestoredMeansReadBack(run: seq<Event>, job: string, artifact: string, budget: nat, result: RestorationResult, t: Trace, parse: Digests)
    requires Success(run, job, artifact, budget, result, t, parse)
    ensures |run| == 27 && run[0].Clock? && run[11].Clock? && run[13].Clock? && InnerDeadline(run, budget) >= 1000
    ensures |t.raw| == 1 && OriginalRamdisk(t.raw[0].effect)
    ensures Bracketed(run[19..26], t.source, InnerDeadline(run, budget), t.raw[0])
    ensures run[22].ReadPartition? && run[22].reading == Ok(FullHash(RESTORATION_SHA256))
  {
    SuccessShape(run, job, artifact, budget, result, t, parse);
    var rest := run[11..];
    ConfirmedTurn(rest, job, PermitOf(run[..10], budget), result.job, result.verification, t, parse);
    assert rest[0] == run[11] && run[19..26][3] == run[22];
  }

  // ----- When the read-back lies inside the restoration's own budget

  /** All clock readings of the read-back are before a point in time. */
  predicate ReadBefore(run: seq<Event>, point: int) {
    |run| == 27 && forall i :: 19 <= i < 26 && run[i].Clock? ==> run[i].at < point
  }

  /** However a run goes on behind its first fourteen events, if it is reported as a restoration its read-back lies inside
      the budget. */
  ghost predicate AlwaysInside(first: seq<Event>, job: string, artifact: string, budget: nat, parse: Digests)
    requires |first| == 14 && first[0].Clock?
  {
    forall run, result, t :: Success(run, job, artifact, budget, result, t, parse) && first <= run ==> ReadBefore(run, first[0].at + budget)
  }

  lemma InsideInner(run: seq<Event>, job: string, artifact: string, budget: nat, result: RestorationResult, t: Trace, parse: Digests)
    requires Success(run, job, artifact, budget, result, t, parse)
    ensures |run| == 27 && run[0].Clock? && run[11].Clock? && run[13].Clock? && ReadBefore(run, InnerDeadline(run, budget))
  {
    RestoredMeansReadBack(run, job, artifact, budget, result, t, parse);
    var seg := run[19..26];
    forall i | 19 <= i < 26 && run[i].Clock?
      ensures run[i].at < InnerDeadline(run, budget)
    {
      assert seg[i - 19] == run[i];
      assert i < 22 ==> seg[..3][i - 19] == seg[i - 19];
      assert i > 22 ==> seg[4..][i - 23] == seg[i - 19];
    }
  }

  lemma LateTurn(seg: seq<Event>, source: Source, deadline: nat, at: nat, t: TargetResult)
    requires Bracketed(seg, source, deadline, t) && at < deadline
    ensures Bracketed(seg[6 := Clock(at)], source, deadline, t)
  {
    var late := seg[6 := Clock(at)];
    assert late[..3] == seg[..3];
    assert late[4..] == seg[4..][2 := Clock(at)];
  }

  lemma LateFrom(run: seq<Event>, t: Trace, job: string, budget: nat, parse: Digests, at: nat) returns (late: Trace)
    requires Verification(t, job, budget, parse) && |t.segs| == 1 && t.lost.None? && at < t.started + budget
    requires |t.segs[0]| == 7 && Bracketed(t.segs[0], t.source, t.started + budget, t.raw[0])
    requires |run| == 16 && |Opening(t, job, budget)| == 6
    requires run[2..] == Opening(t, job, budget) + t.segs[0] + [VerificationRecord(t.result, Ok(()))]
    ensures Verification(late, job, budget, parse) && late.result == t.result
    ensures run[14 := Clock(at)][2..] == Opening(late, job, budget) + Joined(late.segs) + [VerificationRecord(t.result, Ok(()))]
  {
    late := LateTrace(t, job, budget, parse, at);
    Replaced(run, Opening(t, job, budget), t.segs[0], [VerificationRecord(t.result, Ok(()))], at);
  }

  /** What a confirmation's events become when its last clock reading is changed. */
  lemma LateEvents(run: seq<Event>, job: string, permit: Permit, restored: string, verification: VerificationResult, t: Trace, parse: Digests, at: nat)
    returns (late: Trace)
    requires Confirmed(run, job, permit, restored, verification, t, parse) && at < t.started + (permit.deadline - run[0].at)
    ensures Verification(late, restored, permit.deadline - run[0].at, parse) && late.result == verification && |run| == 16
    ensures run[14 := Clock(at)][2..]
            == Opening(late, restored, permit.deadline - run[0].at) + Joined(late.segs) + [VerificationRecord(verification, Ok(()))]
  {
    var budget := permit.deadline - run[0].at;
    ConfirmedShape(run, job, permit, restored, verification, t, parse);
    ConfirmedTurn(run, job, permit, restored, verification, t, parse);
    ConfirmedEvents(run, job, permit, restored, verification, t, parse);
    late := LateFrom(run, t, restored, budget, parse, at);
  }

  /** The last clock reading of the confirmation may be any that is before its own deadline. */
  lemma LateConfirmation(run: seq<Event>, job: string, permit: Permit, restored: string, verification: VerificationResult, t: Trace, parse: Digests, at: nat)
    returns (late: Trace)
    requires Confirmed(run, job, permit, restored, verification, t, parse) && at < t.started + (permit.deadline - run[0].at)
    ensures |run| == 16 && Confirmed(run[14 := Clock(at)], job, permit, restored, verification, late, parse)
  {
    late := LateEvents(run, job, permit, restored, verification, t, parse, at);
    ConfirmedBy(run, run[14 := Clock(at)], job, permit, restored, verification, t, late, parse);
  }

  lemma LateTrace(t: Trace, job: string, budget: nat, parse: Digests, at: nat) returns (late: Trace)
    requires Verification(t, job, budget, parse) && |t.segs| == 1 && t.lost.None? && at < t.started + budget
    requires |t.segs[0]| == 7 && Bracketed(t.segs[0], t.source, t.started + budget, t.raw[0])
    ensures Verification(late, job, budget, parse) && late == t.(segs := [t.segs[0][6 := Clock(at)]])
    ensures Joined(late.segs) == t.segs[0][6 := Clock(at)]
  {
    var seg := t.segs[0][6 := Clock(at)];
    LateTurn(t.segs[0], t.source, t.started + budget, at, t.raw[0]);
    late := t.(segs := [seg]);
    JoinedOne(seg);
    LateVerification(t, late, seg, job, budget, parse);
  }

  lemma ConfirmedBy(run: seq<Event>, now: seq<Event>, job: string, permit: Permit, restored: string, verification: VerificationResult,
                    t: Trace, late: Trace, parse: Digests)
    requires Confirmed(run, job, permit, restored, verification, t, parse)
    requires |now| >= 2 && now[0] == run[0] && now[1] == run[1]
    requires Verification(late, restored, permit.deadline - run[0].at, parse) && late.result == verification
    requires now[2..] == Opening(late, restored, permit.deadline - run[0].at) + Joined(late.segs) + [VerificationRecord(verification, Ok(()))]
    ensures Confirmed(now, job, permit, restored, verification, late, parse)
  {
  }

  lemma LateVerification(t: Trace, late: Trace, seg: seq<Event>, job: string, budget: nat, parse: Digests)
    requires Verification(t, job, budget, parse) && |t.segs| == 1 && t.lost.None? && late == t.(segs := [seg])
    requires Bracketed(seg, t.source, t.started + budget, t.raw[0])
    ensures Verification(late, job, budget, parse)
  {
  }

  lemma Replaced(run: seq<Event>, opening: seq<Event>, seg: seq<Event>, record: seq<Event>, at: nat)
    requires |run| == 16 && |opening| == 6 && |seg| == 7 && |record| == 1 && run[2..] == opening + seg + record
    ensures run[14 := Clock(at)][2..] == opening + seg[6 := Clock(at)] + record
  {
    assert run[14 := Clock(at)][2..] == run[2..][12 := Clock(at)];
  }

  lemma LateProtocol(run: seq<Event>, job: string, artifact: string, budget: nat, parse: Digests, k: nat, at: nat)
    requires Protocol(run, job, artifact, budget, parse) && 10 < k < |run|
    ensures Protocol(run[k := Clock(at)], job, artifact, budget, parse)
  {
    var late := run[k := Clock(at)];
    assert late[..10] == run[..10] && late[10] == run[10];
    forall i | 0 <= i < |late|
      ensures !late[i].RestorationRecord? && (late[i].Execute? ==> run[i].Execute?)
    {
      assert i != k ==> late[i] == run[i];
    }
  }

  /** A reported restoration whose last clock reading is moved to any time before the inner deadline is one as well. */
  lemma LateSuccess(run: seq<Event>, job: string, artifact: string, budget: nat, result: RestorationResult, t: Trace, parse: Digests, at: nat)
    returns (late: Trace)
    requires Success(run, job, artifact, budget, result, t, parse)
    requires |run| == 27 && run[0].Clock? && run[11].Clock? && run[13].Clock? && at < InnerDeadline(run, budget)
    ensures Success(run[25 := Clock(at)], job, artifact, budget, result, late, parse)
  {
    SuccessShape(run, job, artifact, budget, result, t, parse);
    var rest, now := run[11..], run[25 := Clock(at)];
    assert rest[0] == run[11];
    late := LateConfirmation(rest, job, PermitOf(run[..10], budget), result.job, result.verification, t, parse, at);
    assert now[..10] == run[..10] && now[10] == run[10] && now[11..] == rest[14 := Clock(at)];
    LateProtocol(run, job, artifact, budget, parse, 25, at);
  }

  /**
   * Exactly when the read-back is inside the restoration's own budget.  With
   * the events up to the start of the confirming verification fixed, every
   * reported restoration that goes on from there has its read-back before the
   * restoration's deadline if and only if the clock did not advance between
   * measuring what is left and starting to count it.
   */
  lemma ReadBackInsideBudgetIff(run: seq<Event>, job: string, artifact: string, budget: nat, result: RestorationResult, t: Trace, parse: Digests)
    requires Success(run, job, artifact, budget, result, t, parse)
    ensures |run| == 27 && run[0].Clock? && run[11].Clock? && run[13].Clock?
    ensures AlwaysInside(run[..14], job, artifact, budget, parse) <==> run[13].at <= run[11].at
  {
    SuccessShape(run, job, artifact, budget, result, t, parse);
    var first, end := run[..14], run[0].at + budget;
    if run[13].at <= run[11].at {
      forall other, r, u | Success(other, job, artifact, budget, r, u, parse) && first <= other
        ensures ReadBefore(other, end)
      {
        InsideInner(other, job, artifact, budget, r, u, parse);
        assert other[0] == first[0] && other[11] == first[11] && other[13] == first[13];
      }
    } else {
      var late := LateSuccess(run, job, artifact, budget, result, t, parse, end);
      var other := run[25 := Clock(end)];
      assert first <= other && other[25] == Clock(end);
      assert !ReadBefore(other, end);
    }
  }
}
