/**
 * Assessment of a replacement plan for an interrupted job: when it is accepted,
 * what it must contain, and that running it forgets what the job may have left.
 */
module Recovery {
  import opened Bits
  import opened Results
  import opened Widths
  import opened Indices

  type Id = string
  type Digest = nat


  datatype ByteRange = ByteRange(start: nat, length: nat)

  datatype Effect =
    | ErasePartition(partition: Id, range: ByteRange)
    | WritePartition(partition: Id, range: ByteRange, content: Digest)
    | WriteRawRegion(region: Id, range: ByteRange, content: Digest)
    | ReplacePartitionTable(layout: Digest)
    | ChangeBootMetadata(field: Id, value: Id)
  {
    function Partition(): (r: Option<Id>) {
      if ErasePartition? || WritePartition? then Some(partition) else None
    }

    function Range(): (r: Option<ByteRange>) {
      if ErasePartition? || WritePartition? || WriteRawRegion? then Some(range) else None
    }
  }

  datatype StepKind =
    | EnsureMode | ProbeDevice | ValidateLayout | LoadEphemeralAgent | EraseTarget | WriteTarget | VerifyTarget
    | AwaitRebind | Reboot | PostflightProbe

  datatype SemanticTarget = OnPartition(id: Id) | OnRawRegion(region: Id) | OnBootMetadata(field: Id) | OnDevice

  datatype Severity = ReadOnly | Transient | Mutating | Destructive

  datatype Step = Step(
    kind: StepKind, effect: Severity, target: Option<SemanticTarget>, content: Option<Digest>,
    modeBefore: Option<Id>, modeAfter: Option<Id>)

  datatype Contract = Contract(id: Id, version: nat, digest: Digest)

  datatype Postflight = Postflight(exactLineage: bool, mode: Option<Id>, runtimeFacts: seq<Id>)

  datatype Plan = Plan(
    id: Id, digest: Digest, superseding: bool, createdAt: nat, expiresAt: nat, profile: Digest, provider: Id,
    contract: Option<Contract>, effects: seq<Effect>, steps: seq<Step>, postflight: Postflight)

  datatype Target = Target(partition: Id, offsetSectors: nat)

  datatype Transition = Transition(from: Id, to: Id, action: Id, requireDisconnect: bool)

  /** The published profile; `identity` and `coverage` are the digests of its canonical forms. */
  datatype Profile = Profile(
    identity: Option<Digest>, coverage: Option<Digest>, completeOverwrite: bool, unsupportedStates: seq<Id>,
    recoveryVersion: nat, coveredEffects: seq<Id>, blockSize: Option<nat>, targets: seq<Target>,
    transitions: seq<Transition>)

  /** What is known about the interrupted job. */
  datatype Evidence = Evidence(planId: Id, planDigest: Digest, closedControl: Option<Id>)

  datatype Reason =
    | NotFresh | NoRecipe | NoContract | ContractMismatch | IncompleteTargets | UnknownBlockSize | OutsideCoverage
    | NotOneWrite | WrongOffset | Unverified | RangeNotCovered | NoPostflight | WrongEnding | WrongControl

  const PROVIDER: Id := "arkforge.rockchip"
  const CONTRACT: Id := "arkforge.rockchip.complete-overwrite"
  const ENTER_UPDATER: Id := "enter-updater"

  // ----- The parts of the decision

  predicate IsFresh(plan: Plan, source: Evidence, now: nat) {
    plan.superseding && plan.id != source.planId && plan.digest != source.planDigest
    && plan.createdAt <= now < plan.expiresAt
  }

  predicate HasRecipe(plan: Plan, profile: Profile) {
    && profile.identity == Some(plan.profile) && profile.completeOverwrite && profile.unsupportedStates == []
    && plan.provider == PROVIDER && profile.targets != []
  }

  predicate ContractHolds(contract: Contract, profile: Profile) {
    contract.id == CONTRACT && contract.version == profile.recoveryVersion && profile.coverage == Some(contract.digest)
  }

  function OfKind(steps: seq<Step>, kind: StepKind): (r: seq<nat>) {
    Filter(|steps|, (i: nat) => i < |steps| && steps[i].kind == kind)
  }

  predicate CountsMatch(plan: Plan, profile: Profile) {
    |plan.effects| == |OfKind(plan.steps, WriteTarget)| == |OfKind(plan.steps, VerifyTarget)| == |profile.targets|
  }

  function EffectsOn(effects: seq<Effect>, partition: Id): (r: seq<nat>)
    ensures forall i :: i in r <==> 0 <= i < |effects| && effects[i].Partition() == Some(partition)
  {
    Filter(|effects|, (i: nat) => i < |effects| && effects[i].Partition() == Some(partition))
  }

  predicate IsStep(step: Step, kind: StepKind, partition: Id, content: Digest) {
    step.kind == kind && step.target == Some(OnPartition(partition)) && step.content == Some(content)
  }

  function Matching(steps: seq<Step>, kind: StepKind, partition: Id, content: Digest): (r: seq<nat>)
    ensures forall i :: i in r <==> 0 <= i < |steps| && IsStep(steps[i], kind, partition, content)
  {
    Filter(|steps|, (i: nat) => i < |steps| && IsStep(steps[i], kind, partition, content))
  }

  predicate OneWrite(plan: Plan, target: Target) {
    var on := EffectsOn(plan.effects, target.partition);
    |on| == 1 && on[0] in on && plan.effects[on[0]].WritePartition?
  }

  function TheWrite(plan: Plan, target: Target): (e: Effect)
    requires OneWrite(plan, target)
    ensures e.WritePartition? && e in plan.effects && e.partition == target.partition
  {
    var on := EffectsOn(plan.effects, target.partition);
    plan.effects[on[0]]
  }

  predicate OffsetHolds(plan: Plan, target: Target, block: nat)
    requires OneWrite(plan, target)
  {
    var range := TheWrite(plan, target).range;
    target.offsetSectors * block < U64_LIMIT && target.offsetSectors * block == range.start && range.length != 0
  }

  predicate VerifiedLater(plan: Plan, target: Target)
    requires OneWrite(plan, target)
  {
    var content := TheWrite(plan, target).content;
    var writes := Matching(plan.steps, WriteTarget, target.partition, content);
    var verifies := Matching(plan.steps, VerifyTarget, target.partition, content);
    |writes| == 1 && |verifies| == 1 && writes[0] < verifies[0]
  }

  predicate TargetHolds(plan: Plan, profile: Profile, target: Target, block: nat) {
    && target.partition in profile.coveredEffects
    && OneWrite(plan, target) && OffsetHolds(plan, target, block) && VerifiedLater(plan, target)
  }

  function WriteAt(plan: Plan, target: Target): (i: nat)
    requires OneWrite(plan, target) && VerifiedLater(plan, target)
  {
    Matching(plan.steps, WriteTarget, target.partition, TheWrite(plan, target).content)[0]
  }

  function VerifyAt(plan: Plan, target: Target): (i: nat)
    requires OneWrite(plan, target) && VerifiedLater(plan, target)
  {
    Matching(plan.steps, VerifyTarget, target.partition, TheWrite(plan, target).content)[0]
  }

  /** `next` overwrites every byte of `prior`, both ends representable. */
  predicate Covers(next: Effect, prior: Effect) {
    && prior.Partition().Some? && next.Partition() == prior.Partition()
    && next.range.start <= prior.range.start
    && next.range.start + next.range.length < U64_LIMIT && prior.range.start + prior.range.length < U64_LIMIT
    && next.range.start + next.range.length >= prior.range.start + prior.range.length
  }

  predicate IsCovered(plan: Plan, prior: Effect) {
    exists i :: 0 <= i < |plan.effects| && Covers(plan.effects[i], prior)
  }

  /** The plan ends with a reboot into the required mode and a postflight in it. */
  predicate EndsRight(plan: Plan, lastVerification: nat) {
    var n := |plan.steps|;
    && n >= 2
    && plan.steps[n - 1].kind == PostflightProbe && plan.steps[n - 2].kind == Reboot
    && lastVerification < n - 2
    && plan.postflight.exactLineage && plan.postflight.mode.Some? && plan.postflight.runtimeFacts != []
    && plan.steps[n - 2].modeAfter == plan.postflight.mode
    && plan.steps[n - 1].modeBefore == plan.postflight.mode
  }

  predicate AtLeastMutating(s: Severity) {
    s == Mutating || s == Destructive
  }

  predicate ControlHolds(plan: Plan, profile: Profile, control: Id) {
    && plan.steps != []
    && var first := plan.steps[0];
    && control == ENTER_UPDATER && first.kind == EnsureMode && AtLeastMutating(first.effect)
    && first.modeBefore == plan.postflight.mode
    && exists i :: 0 <= i < |profile.transitions|
                   && profile.transitions[i].action == control && Some(profile.transitions[i].from) == first.modeBefore
                   && Some(profile.transitions[i].to) == first.modeAfter && profile.transitions[i].requireDisconnect
  }

  // ----- The decision

  ghost predicate Accepts(plan: Plan, profile: Profile, source: Evidence, possible: seq<Effect>, now: nat) {
    && IsFresh(plan, source, now) && HasRecipe(plan, profile)
    && plan.contract.Some? && ContractHolds(plan.contract.value, profile)
    && CountsMatch(plan, profile) && profile.blockSize.Some?
    && (forall i :: 0 <= i < |profile.targets| ==> TargetHolds(plan, profile, profile.targets[i], profile.blockSize.value))
    && (forall i :: 0 <= i < |possible| ==> IsCovered(plan, possible[i]))
    && EndsRight(plan, 0)
    && (forall i :: 0 <= i < |profile.targets| ==> VerifyAt(plan, profile.targets[i]) < |plan.steps| - 2)
    && (source.closedControl.Some? ==> ControlHolds(plan, profile, source.closedControl.value))
  }

  /** One target; on success, where it is verified. */
  method CheckTarget(plan: Plan, profile: Profile, target: Target, block: nat) returns (r: Result<nat, Reason>)
    ensures r.Ok? <==> TargetHolds(plan, profile, target, block)
    ensures r.Ok? ==> r.value == VerifyAt(plan, target)
  {
    if target.partition !in profile.coveredEffects {
      return Err(OutsideCoverage);
    }
    if !OneWrite(plan, target) {
      return Err(NotOneWrite);
    }
    if !OffsetHolds(plan, target, block) {
      return Err(WrongOffset);
    }
    if !VerifiedLater(plan, target) {
      return Err(Unverified);
    }
    return Ok(VerifyAt(plan, target));
  }

  /** The loop over the targets, with the running last verification. */
  method CheckTargets(plan: Plan, profile: Profile, block: nat) returns (r: Result<nat, Reason>)
    ensures r.Ok? <==> forall i :: 0 <= i < |profile.targets| ==> TargetHolds(plan, profile, profile.targets[i], block)
    ensures r.Ok? ==> forall i :: 0 <= i < |profile.targets| ==> VerifyAt(plan, profile.targets[i]) <= r.value
    ensures r.Ok? && r.value != 0 ==> exists i :: 0 <= i < |profile.targets| && VerifyAt(plan, profile.targets[i]) == r.value
  {
    var last := 0;
    for i := 0 to |profile.targets|
      invariant forall j :: 0 <= j < i ==> TargetHolds(plan, profile, profile.targets[j], block)
      invariant forall j :: 0 <= j < i ==> VerifyAt(plan, profile.targets[j]) <= last
      invariant last != 0 ==> exists j :: 0 <= j < i && VerifyAt(plan, profile.targets[j]) == last
    {
      var at := CheckTarget(plan, profile, profile.targets[i], block);
      if at.Err? {
        return Err(at.error);
      }
      last := if at.value > last then at.value else last;
    }
    return Ok(last);
  }

  method CheckCoverage(plan: Plan, possible: seq<Effect>) returns (r: Result<(), Reason>)
    ensures r.Ok? <==> forall i :: 0 <= i < |possible| ==> IsCovered(plan, possible[i])
  {
    for i := 0 to |possible|
      invariant forall j :: 0 <= j < i ==> IsCovered(plan, possible[j])
    {
      if !IsCovered(plan, possible[i]) {
        return Err(RangeNotCovered);
      }
    }
    return Ok(());
  }

  method CheckEnding(plan: Plan, lastVerification: nat) returns (r: Result<(), Reason>)
    ensures r.Ok? <==> EndsRight(plan, lastVerification)
  {
    var n := |plan.steps|;
    if n == 0 {
      return Err(NoPostflight);
    }
    // With one step the reboot and the postflight would be the same step.
    if !EndsRight(plan, lastVerification) {
      return Err(WrongEnding);
    }
    return Ok(());
  }

  method ValidateCandidate(plan: Plan, profile: Profile, source: Evidence, possible: seq<Effect>, now: nat)
    returns (r: Result<(), Reason>)
    ensures r.Ok? <==> Accepts(plan, profile, source, possible, now)
  {
    if !IsFresh(plan, source, now) {
      return Err(NotFresh);
    }
    if !HasRecipe(plan, profile) {
      return Err(NoRecipe);
    }
    if plan.contract.None? {
      return Err(NoContract);
    }
    if !ContractHolds(plan.contract.value, profile) {
      return Err(ContractMismatch);
    }
    if !CountsMatch(plan, profile) {
      return Err(IncompleteTargets);
    }
    if profile.blockSize.None? {
      return Err(UnknownBlockSize);
    }
    var last := CheckTargets(plan, profile, profile.blockSize.value);
    if last.Err? {
      return Err(last.error);
    }
    r := CheckCoverage(plan, possible);
    if r.Err? {
      return;
    }
    r := CheckEnding(plan, last.value);
    if r.Err? {
      return;
    }
    if source.closedControl.Some? && !ControlHolds(plan, profile, source.closedControl.value) {
      return Err(WrongControl);
    }
    return Ok(());
  }

  // ----- Bijections with the targets

  predicate DistinctTargets(profile: Profile) {
    forall i, j :: 0 <= i < j < |profile.targets| ==> profile.targets[i].partition != profile.targets[j].partition
  }

  /** Every effect is the one content-bound write of some target. */
  lemma EveryEffectIsATarget(plan: Plan, profile: Profile, source: Evidence, possible: seq<Effect>, now: nat, e: nat)
    requires Accepts(plan, profile, source, possible, now) && DistinctTargets(profile) && e < |plan.effects|
    ensures exists i :: 0 <= i < |profile.targets| && TheWrite(plan, profile.targets[i]) == plan.effects[e]
  {
    var n := |profile.targets|;
    var image := seq(n, i requires 0 <= i < n => EffectsOn(plan.effects, profile.targets[i].partition)[0]);
    var all := seq(n, i => i);
    forall i | 0 <= i < n
      ensures image[i] in all && plan.effects[image[i]] == TheWrite(plan, profile.targets[i])
    {
      assert OneWrite(plan, profile.targets[i]);
      assert all[image[i]] == image[i];
    }
    Pigeonhole(image, all);
    assert all[e] == e;
    assert e in image;
  }

  lemma EveryStepIsATarget(plan: Plan, profile: Profile, source: Evidence, possible: seq<Effect>, now: nat,
                           image: seq<nat>, kind: StepKind)
    requires Accepts(plan, profile, source, possible, now) && DistinctTargets(profile)
    requires kind == WriteTarget || kind == VerifyTarget
    requires |image| == |profile.targets|
    requires forall i :: 0 <= i < |image| ==>
               image[i] < |plan.steps|
               && IsStep(plan.steps[image[i]], kind, profile.targets[i].partition, TheWrite(plan, profile.targets[i]).content)
    ensures forall k :: 0 <= k < |plan.steps| && plan.steps[k].kind == kind ==> k in image
  {
    var all := OfKind(plan.steps, kind);
    Pigeonhole(image, all);
  }

  function Writes(plan: Plan, profile: Profile): (r: seq<nat>)
    requires forall i :: 0 <= i < |profile.targets| ==> OneWrite(plan, profile.targets[i]) && VerifiedLater(plan, profile.targets[i])
  {
    seq(|profile.targets|, i requires 0 <= i < |profile.targets| => WriteAt(plan, profile.targets[i]))
  }

  function Verifies(plan: Plan, profile: Profile): (r: seq<nat>)
    requires forall i :: 0 <= i < |profile.targets| ==> OneWrite(plan, profile.targets[i]) && VerifiedLater(plan, profile.targets[i])
  {
    seq(|profile.targets|, i requires 0 <= i < |profile.targets| => VerifyAt(plan, profile.targets[i]))
  }

  lemma StepsOfTarget(plan: Plan, target: Target)
    requires OneWrite(plan, target) && VerifiedLater(plan, target)
    ensures WriteAt(plan, target) < VerifyAt(plan, target) < |plan.steps|
    ensures IsStep(plan.steps[WriteAt(plan, target)], WriteTarget, target.partition, TheWrite(plan, target).content)
    ensures IsStep(plan.steps[VerifyAt(plan, target)], VerifyTarget, target.partition, TheWrite(plan, target).content)
  {
    var content := TheWrite(plan, target).content;
    var writes := Matching(plan.steps, WriteTarget, target.partition, content);
    var verifies := Matching(plan.steps, VerifyTarget, target.partition, content);
    assert writes[0] in writes && verifies[0] in verifies;
  }

  /**
   * Effects, write steps and verify steps of an accepted plan are each in
   * bijection with the targets; a write precedes its verification, and every
   * verification precedes the reboot, behind which only the postflight stands.
   */
  lemma AcceptedShape(plan: Plan, profile: Profile, source: Evidence, possible: seq<Effect>, now: nat)
    requires Accepts(plan, profile, source, possible, now) && DistinctTargets(profile)
    ensures var n := |plan.steps|;
            && n >= 2 && plan.steps[n - 2].kind == Reboot && plan.steps[n - 1].kind == PostflightProbe
            && Distinct(Writes(plan, profile)) && Distinct(Verifies(plan, profile))
            && (forall k :: 0 <= k < n && plan.steps[k].kind == WriteTarget ==> k in Writes(plan, profile))
            && (forall k :: 0 <= k < n && plan.steps[k].kind == VerifyTarget ==> k in Verifies(plan, profile))
            && (forall i :: 0 <= i < |profile.targets| ==>
                  Writes(plan, profile)[i] < Verifies(plan, profile)[i] < n - 2)
    ensures forall e :: 0 <= e < |plan.effects| ==>
              exists i :: 0 <= i < |profile.targets| && TheWrite(plan, profile.targets[i]) == plan.effects[e]
  {
    forall i | 0 <= i < |profile.targets|
      ensures TargetHolds(plan, profile, profile.targets[i], profile.blockSize.value)
    {
      StepsOfTarget(plan, profile.targets[i]);
    }
    StepsAreTargets(plan, profile, source, possible, now);
    forall e | 0 <= e < |plan.effects|
      ensures exists i :: 0 <= i < |profile.targets| && TheWrite(plan, profile.targets[i]) == plan.effects[e]
    {
      EveryEffectIsATarget(plan, profile, source, possible, now, e);
    }
  }

  lemma StepsAreTargets(plan: Plan, profile: Profile, source: Evidence, possible: seq<Effect>, now: nat)
    requires Accepts(plan, profile, source, possible, now) && DistinctTargets(profile)
    ensures Distinct(Writes(plan, profile)) && Distinct(Verifies(plan, profile))
    ensures forall k :: 0 <= k < |plan.steps| && plan.steps[k].kind == WriteTarget ==> k in Writes(plan, profile)
    ensures forall k :: 0 <= k < |plan.steps| && plan.steps[k].kind == VerifyTarget ==> k in Verifies(plan, profile)
    ensures forall i :: 0 <= i < |profile.targets| ==> Writes(plan, profile)[i] < Verifies(plan, profile)[i] < |plan.steps|
  {
    forall i | 0 <= i < |profile.targets|
      ensures WriteAt(plan, profile.targets[i]) < VerifyAt(plan, profile.targets[i]) < |plan.steps|
    {
      StepsOfTarget(plan, profile.targets[i]);
    }
    WritesAreTargets(plan, profile, source, possible, now);
    VerifiesAreTargets(plan, profile, source, possible, now);
  }

  lemma WritesAreTargets(plan: Plan, profile: Profile, source: Evidence, possible: seq<Effect>, now: nat)
    requires Accepts(plan, profile, source, possible, now) && DistinctTargets(profile)
    ensures Distinct(Writes(plan, profile))
    ensures forall k :: 0 <= k < |plan.steps| && plan.steps[k].kind == WriteTarget ==> k in Writes(plan, profile)
  {
    forall i | 0 <= i < |profile.targets|
      ensures var t := profile.targets[i];
              WriteAt(plan, t) < |plan.steps| && IsStep(plan.steps[WriteAt(plan, t)], WriteTarget, t.partition, TheWrite(plan, t).content)
    {
      StepsOfTarget(plan, profile.targets[i]);
    }
    EveryStepIsATarget(plan, profile, source, possible, now, Writes(plan, profile), WriteTarget);
  }

  lemma VerifiesAreTargets(plan: Plan, profile: Profile, source: Evidence, possible: seq<Effect>, now: nat)
    requires Accepts(plan, profile, source, possible, now) && DistinctTargets(profile)
    ensures Distinct(Verifies(plan, profile))
    ensures forall k :: 0 <= k < |plan.steps| && plan.steps[k].kind == VerifyTarget ==> k in Verifies(plan, profile)
  {
    forall i | 0 <= i < |profile.targets|
      ensures var t := profile.targets[i];
              VerifyAt(plan, t) < |plan.steps| && IsStep(plan.steps[VerifyAt(plan, t)], VerifyTarget, t.partition, TheWrite(plan, t).content)
    {
      StepsOfTarget(plan, profile.targets[i]);
    }
    EveryStepIsATarget(plan, profile, source, possible, now, Verifies(plan, profile), VerifyTarget);
  }

  // ----- Running the plan

  /** The bytes of the device, by address. */
  type Device = nat -> byte

  /** The byte that writing the content with this digest puts at an offset of its range. */
  type Image = (Digest, nat) -> byte

  predicate Inside(range: ByteRange, a: nat) {
    range.start <= a < range.start + range.length
  }

  function Overwrite(d: Device, range: ByteRange, content: Digest, image: Image): (r: Device) {
    (a: nat) => if Inside(range, a) then image(content, a - range.start) else d(a)
  }

  /** Where a write step writes: the range of the effect on its partition. */
  function Destination(plan: Plan, step: Step): (r: Option<ByteRange>) {
    if step.kind == WriteTarget && step.target.Some? && step.target.value.OnPartition? && step.content.Some? then
      var on := EffectsOn(plan.effects, step.target.value.id);
      if on == [] then None
      else
        assert on[0] in on;
        Some(plan.effects[on[0]].range)
    else None
  }

  function RunStep(plan: Plan, step: Step, d: Device, image: Image): (r: Device) {
    match Destination(plan, step)
    case None => d
    case Some(range) => Overwrite(d, range, step.content.value, image)
  }

  function Run(plan: Plan, n: nat, d: Device, image: Image): (r: Device)
    requires n <= |plan.steps|
  {
    if n == 0 then d else RunStep(plan, plan.steps[n - 1], Run(plan, n - 1, d, image), image)
  }

  predicate Hits(plan: Plan, step: Step, a: nat) {
    Destination(plan, step).Some? && Inside(Destination(plan, step).value, a)
  }

  /** A byte that no step writes keeps its value, and one that some step writes no longer depends on what was there. */
  lemma {:induction false} RunMisses(plan: Plan, n: nat, d: Device, image: Image, a: nat)
    requires n <= |plan.steps| && forall k :: 0 <= k < n ==> !Hits(plan, plan.steps[k], a)
    ensures Run(plan, n, d, image)(a) == d(a)
  {
    if n == 0 {
    } else {
      RunMisses(plan, n - 1, d, image, a);
    }
  }

  lemma {:induction false} RunForgets(plan: Plan, n: nat, d: Device, e: Device, image: Image, a: nat)
    requires n <= |plan.steps| && (d(a) == e(a) || exists k :: 0 <= k < n && Hits(plan, plan.steps[k], a))
    ensures Run(plan, n, d, image)(a) == Run(plan, n, e, image)(a)
  {
    if n == 0 || Hits(plan, plan.steps[n - 1], a) {
    } else {
      RunForgets(plan, n - 1, d, e, image, a);
    }
  }

  /** The write step of a target writes the whole range of its effect. */
  lemma WriteHits(plan: Plan, target: Target, a: nat)
    requires OneWrite(plan, target) && VerifiedLater(plan, target) && Inside(TheWrite(plan, target).range, a)
    ensures WriteAt(plan, target) < |plan.steps| && Hits(plan, plan.steps[WriteAt(plan, target)], a)
  {
    StepsOfTarget(plan, target);
  }

  /** Every byte that the interrupted job may have touched is written by some step. */
  lemma CoveredIsWritten(plan: Plan, profile: Profile, source: Evidence, possible: seq<Effect>, now: nat, i: nat, a: nat)
    requires Accepts(plan, profile, source, possible, now) && DistinctTargets(profile)
    requires i < |possible| && possible[i].Range().Some? && Inside(possible[i].Range().value, a)
    ensures exists k :: 0 <= k < |plan.steps| && Hits(plan, plan.steps[k], a)
  {
    assert IsCovered(plan, possible[i]);
    var e :| 0 <= e < |plan.effects| && Covers(plan.effects[e], possible[i]);
    EveryEffectIsATarget(plan, profile, source, possible, now, e);
    var t :| 0 <= t < |profile.targets| && TheWrite(plan, profile.targets[t]) == plan.effects[e];
    var target := profile.targets[t];
    assert TargetHolds(plan, profile, target, profile.blockSize.value);
    WriteHits(plan, target, a);
  }

  /**
   * Non-interference: two devices that differ only where the interrupted job
   * may have written are the same device after the accepted plan has run.
   */
  lemma RecoveryForgets(plan: Plan, profile: Profile, source: Evidence, possible: seq<Effect>, now: nat,
                        d: Device, e: Device, image: Image)
    requires Accepts(plan, profile, source, possible, now) && DistinctTargets(profile)
    requires forall a: nat :: d(a) != e(a) ==>
               exists i :: 0 <= i < |possible| && possible[i].Range().Some? && Inside(possible[i].Range().value, a)
    ensures forall a: nat :: Run(plan, |plan.steps|, d, image)(a) == Run(plan, |plan.steps|, e, image)(a)
  {
    forall a: nat
      ensures Run(plan, |plan.steps|, d, image)(a) == Run(plan, |plan.steps|, e, image)(a)
    {
      if d(a) != e(a) {
        var i :| 0 <= i < |possible| && possible[i].Range().Some? && Inside(possible[i].Range().value, a);
        CoveredIsWritten(plan, profile, source, possible, now, i, a);
      }
      RunForgets(plan, |plan.steps|, d, e, image, a);
    }
  }

  /** The coverage test is needed: what no step writes stays as the job left it. */
  lemma UncoveredIsKept(plan: Plan, d: Device, image: Image, a: nat)
    requires forall k :: 0 <= k < |plan.steps| ==> !Hits(plan, plan.steps[k], a)
    ensures Run(plan, |plan.steps|, d, image)(a) == d(a)
  {
    RunMisses(plan, |plan.steps|, d, image, a);
  }
}
