/** The durable snapshot maintenance works from, and when it is accepted. */
module MaintenanceSource {
  import opened Results
  import opened Widths
  import opened Seal
  import opened Indices

  datatype Error =
    | InvalidInput | SourceRefused | IdentityChanged | BudgetExhausted | PersistenceFailed | AuthorityRefused(reason: string)

  datatype Effect = Effect(kind: string, target: string, rangeStart: nat, rangeLength: nat, content: string)

  datatype Step = Step(id: string, kind: string, semanticTarget: string, content: string)

  datatype Plan = Plan(
    id: string, sha256: string, purpose: string, effects: seq<Effect>, steps: seq<Step>,
    supportCampaign: string, maturityCampaign: string)

  datatype Job = Job(
    id: string, planId: string, planDigest: nat, state: string, terminal: bool, completed: nat, total: nat)

  /** `digestible`: whether the receipt's own digest can be computed. */
  datatype Receipt = Receipt(
    stepId: string, jobId: string, planId: string, disposition: string, failure: string, digestible: bool)

  datatype Identity = Identity(serial: string, topology: string, descriptor: string)

  datatype Source = Source(
    authority: string, profile: string, campaign: string, job: Job, plan: Plan, receipts: seq<Receipt>,
    identity: Identity, latestJob: string, activeJobs: nat)

  /** Reading a SHA-256 digest from text. */
  type Digests = string -> Option<nat>

  const MAX_RANGE: nat := 16 * 1024 * 1024 * 1024
  const RESTORATION_SHA256: string := "bdd1f4eacbe545f5a553b529980bc487723d37554148058dd551c241abf86de4"
  const RAMDISK_START: nat := 121_634_816
  const RAMDISK_BYTES: nat := 4 * 1024 * 1024
  const TARGETS: set<string> :=
    {"uboot", "resource", "boot_linux", "ramdisk", "system", "vendor", "updater", "chip_ckm", "userdata"}

  predicate IsIdChar(c: char) {
    '0' <= c <= '9' || 'a' <= c <= 'z' || 'A' <= c <= 'Z' || c == '.' || c == '_' || c == ':' || c == '-'
  }

  /** `OpaqueId::new`. */
  predicate IsOpaqueId(s: string) {
    1 <= |s| <= 128 && forall i :: 0 <= i < |s| ==> IsIdChar(s[i])
  }

  predicate OriginalRamdisk(e: Effect) {
    && e.kind == "writePartition" && e.target == "ramdisk" && e.rangeStart == RAMDISK_START
    && e.rangeLength == RAMDISK_BYTES && e.content == RESTORATION_SHA256
  }

  predicate IdentityIsValid(id: Identity, parse: Digests) {
    parse(id.serial).Some? && parse(id.topology).Some? && parse(id.descriptor).Some?
  }

  // ----- The parts of the decision

  /** Stopped right before the final reboot. */
  predicate AtReboot(job: Job) {
    && (job.state == "rebindWait" || job.state == "cancelledSafe")
    && job.completed + 1 < U64_LIMIT && job.completed + 1 == job.total && job.terminal == (job.state == "cancelledSafe")
  }

  predicate Complete(job: Job) {
    job.state == "succeeded" && job.terminal && job.completed == job.total
  }

  predicate Correlated(s: Source, requested: string, restoring: bool, parse: Digests) {
    && s.authority == "arkdeck" && s.profile == "org.openharmony.dayu200@1.0.0" && IdentityIsValid(s.identity, parse)
    && s.latestJob == requested && s.job.id == requested && s.job.planId == s.plan.id
    && parse(s.plan.sha256) == Some(s.job.planDigest) && s.plan.purpose == "primaryFlash"
    && (Complete(s.job) || (restoring && AtReboot(s.job)))
    && s.activeJobs == (if s.job.terminal then 0 else 1)
    && s.job.total == |s.plan.steps| && |s.plan.steps| >= 2
    && s.campaign != "" && s.plan.supportCampaign == s.campaign && s.plan.maturityCampaign == s.campaign
    && s.plan.steps[|s.plan.steps| - 2].kind == "reboot" && s.plan.steps[|s.plan.steps| - 1].kind == "postflightProbe"
    && |s.receipts| == s.job.completed
  }

  predicate StepsDistinct(steps: seq<Step>) {
    && (forall i, j :: 0 <= i < j < |steps| ==> steps[i].id != steps[j].id)
    && (forall i :: 0 <= i < |steps| ==> IsOpaqueId(steps[i].id))
  }

  predicate ReceiptHolds(r: Receipt, job: Job) {
    r.jobId == job.id && r.planId == job.planId && r.disposition == "semanticSuccess" && r.failure == "" && r.digestible
  }

  function ReceiptsOf(receipts: seq<Receipt>, step: string): (r: seq<nat>)
    ensures forall i :: i in r <==> 0 <= i < |receipts| && receipts[i].stepId == step
  {
    Filter(|receipts|, (i: nat) => i < |receipts| && receipts[i].stepId == step)
  }

  /** Exactly one receipt for the step, and a good one. */
  predicate Receipted(s: Source, step: string) {
    var on := ReceiptsOf(s.receipts, step);
    |on| == 1 && on[0] in on && ReceiptHolds(s.receipts[on[0]], s.job)
  }

  predicate IsStepFor(step: Step, kind: string, e: Effect) {
    step.kind == kind && step.semanticTarget == "partition:" + e.target && step.content == e.content
  }

  function StepsFor(steps: seq<Step>, kind: string, e: Effect): (r: seq<nat>) {
    Filter(|steps|, (i: nat) => i < |steps| && IsStepFor(steps[i], kind, e))
  }

  predicate EffectHolds(s: Source, e: Effect, parse: Digests) {
    && e.kind == "writePartition" && e.target in TARGETS
    && 0 < e.rangeLength <= MAX_RANGE && e.rangeStart % 512 == 0 && e.rangeStart + e.rangeLength < U64_LIMIT
    && parse(e.content).Some?
    && |StepsFor(s.plan.steps, "writeTarget", e)| == 1 && |StepsFor(s.plan.steps, "verifyTarget", e)| == 1
  }

  predicate TargetsDistinct(effects: seq<Effect>) {
    forall i, j :: 0 <= i < j < |effects| ==> effects[i].target != effects[j].target
  }

  function TargetSet(effects: seq<Effect>): (r: set<string>)
    ensures forall t :: t in r <==> exists i :: 0 <= i < |effects| && effects[i].target == t
  {
    if effects == [] then {} else TargetSet(effects[..|effects| - 1]) + {effects[|effects| - 1].target}
  }

  /** All nine targets, or when only verifying, the original ramdisk alone. */
  predicate Extent(effects: seq<Effect>, restoring: bool) {
    TargetSet(effects) == TARGETS || (!restoring && |effects| == 1 && OriginalRamdisk(effects[0]))
  }

  /** The decision, as the orchestration carries it around. */
  ghost predicate ValidSource(s: Source, requested: string, restoring: bool, parse: Digests) {
    forall k: nat {:trigger Look(k)} :: Look(k) ==> SourceHolds(s, requested, restoring, parse)
  }

  ghost predicate SourceHolds(s: Source, requested: string, restoring: bool, parse: Digests) {
    && Correlated(s, requested, restoring, parse) && StepsDistinct(s.plan.steps)
    && (forall i :: 0 <= i < s.job.completed ==> Receipted(s, s.plan.steps[i].id))
    && EffectsValid(s, restoring, parse)
  }

  ghost predicate EffectsValid(s: Source, restoring: bool, parse: Digests) {
    && (forall i :: 0 <= i < |s.plan.effects| ==> EffectHolds(s, s.plan.effects[i], parse))
    && TargetsDistinct(s.plan.effects) && Extent(s.plan.effects, restoring)
  }

  // ----- The checks

  method CheckSteps(steps: seq<Step>) returns (ok: bool)
    ensures ok <==> StepsDistinct(steps)
  {
    var seen: set<string> := {};
    for i := 0 to |steps|
      invariant StepsDistinct(steps[..i])
      invariant forall id :: id in seen <==> exists j :: 0 <= j < i && steps[j].id == id
    {
      if steps[i].id in seen || !IsOpaqueId(steps[i].id) {
        return false;
      }
      seen := seen + {steps[i].id};
    }
    assert steps[..|steps|] == steps;
    return true;
  }

  method CheckReceipts(s: Source) returns (ok: bool)
    requires s.job.completed <= |s.plan.steps|
    ensures ok <==> forall i :: 0 <= i < s.job.completed ==> Receipted(s, s.plan.steps[i].id)
  {
    for i := 0 to s.job.completed
      invariant forall j :: 0 <= j < i ==> Receipted(s, s.plan.steps[j].id)
    {
      if !Receipted(s, s.plan.steps[i].id) {
        return false;
      }
    }
    return true;
  }

  /** The loop over the effects, for any test of one effect. */
  method CheckEffects(effects: seq<Effect>, holds: Effect -> bool) returns (r: Option<set<string>>)
    ensures r.Some? <==> (forall i :: 0 <= i < |effects| ==> holds(effects[i])) && TargetsDistinct(effects)
    ensures r.Some? ==> r.value == TargetSet(effects)
  {
    var targets: set<string> := {};
    for i := 0 to |effects|
      invariant forall j :: 0 <= j < i ==> holds(effects[j])
      invariant TargetsDistinct(effects[..i]) && targets == TargetSet(effects[..i])
    {
      if !holds(effects[i]) {
        return None;
      }
      if effects[i].target in targets {
        ghost var j :| 0 <= j < i && effects[..i][j].target == effects[i].target;
        assert effects[j].target == effects[i].target;
        return None;
      }
      assert effects[..i + 1][..i] == effects[..i];
      targets := targets + {effects[i].target};
    }
    assert effects[..|effects|] == effects;
    return Some(targets);
  }

  method ValidateEffects(s: Source, restoring: bool, parse: Digests) returns (ok: bool)
    ensures ok <==> EffectsValid(s, restoring, parse)
  {
    var holds := (e: Effect) => EffectHolds(s, e, parse);
    var targets := CheckEffects(s.plan.effects, holds);
    assert (forall i :: 0 <= i < |s.plan.effects| ==> holds(s.plan.effects[i]))
      <==> (forall i :: 0 <= i < |s.plan.effects| ==> EffectHolds(s, s.plan.effects[i], parse));
    if targets.None? {
      return false;
    }
    var full := targets.value == TARGETS;
    var ramdisk := |s.plan.effects| == 1 && OriginalRamdisk(s.plan.effects[0]);
    return full || (!restoring && ramdisk);
  }

  method ValidateSource(s: Source, requested: string, restoring: bool, parse: Digests) returns (r: Result<(), Error>)
    ensures r == if ValidSource(s, requested, restoring, parse) then Ok(()) else Err(SourceRefused)
  {
    assert Look(0);
    if !Correlated(s, requested, restoring, parse) {
      return Err(SourceRefused);
    }
    var steps := CheckSteps(s.plan.steps);
    if !steps {
      return Err(SourceRefused);
    }
    var receipts := CheckReceipts(s);
    if !receipts {
      return Err(SourceRefused);
    }
    var effects := ValidateEffects(s, restoring, parse);
    return if effects then Ok(()) else Err(SourceRefused);
  }

  // ----- What acceptance means

  lemma OneReceiptEach(receipts: seq<Receipt>, ids: seq<string>, k: nat)
    requires |receipts| == |ids| && k < |receipts|
    requires forall i, j :: 0 <= i < j < |ids| ==> ids[i] != ids[j]
    requires forall i :: 0 <= i < |ids| ==> ReceiptsOf(receipts, ids[i]) != []
    ensures receipts[k].stepId in ids
  {
    var n := |ids|;
    var image := seq(n, i requires 0 <= i < n => ReceiptsOf(receipts, ids[i])[0]);
    var all := seq(n, i => i);
    forall i | 0 <= i < n
      ensures image[i] in all && receipts[image[i]].stepId == ids[i]
    {
      assert image[i] in ReceiptsOf(receipts, ids[i]);
      assert all[image[i]] == image[i];
    }
    Pigeonhole(image, all);
    assert all[k] == k;
    assert k in image;
  }

  /** Every receipt of an accepted source belongs to a completed step: none is left over. */
  lemma EveryReceiptIsAStep(s: Source, requested: string, restoring: bool, parse: Digests, k: nat)
    requires ValidSource(s, requested, restoring, parse) && k < |s.receipts|
    ensures s.job.completed <= |s.plan.steps|
    ensures exists i :: 0 <= i < s.job.completed && s.receipts[k].stepId == s.plan.steps[i].id
  {
    assert Look(0);
    var n := s.job.completed;
    var ids := seq(n, i requires 0 <= i < n => s.plan.steps[i].id);
    forall i | 0 <= i < n
      ensures ReceiptsOf(s.receipts, ids[i]) != []
    {
      assert Receipted(s, s.plan.steps[i].id);
    }
    OneReceiptEach(s.receipts, ids, k);
  }

  /** A restoration source seals a write of each of the nine targets, once. */
  lemma RestorationCoversAllTargets(s: Source, requested: string, parse: Digests, target: string)
    requires ValidSource(s, requested, true, parse) && target in TARGETS
    ensures exists i :: 0 <= i < |s.plan.effects| && s.plan.effects[i].target == target
                        && forall j :: 0 <= j < |s.plan.effects| && s.plan.effects[j].target == target ==> j == i
  {
    assert Look(0);
    assert target in TargetSet(s.plan.effects);
    var i :| 0 <= i < |s.plan.effects| && s.plan.effects[i].target == target;
  }
}
