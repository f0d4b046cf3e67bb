/** A restoration that is reported although its read-back ends at the restoration's own deadline. */
module RestorationExample {
  import opened Results
  import opened Widths
  import opened Seal
  import opened Indices
  import opened MaintenanceSource
  import opened Maintenance

  // ----- Snapshots built from their steps

  /** Identifiers told apart by their length. */
  function Id(i: nat): (s: string)
    ensures |s| == i + 1 && forall k :: 0 <= k < |s| ==> s[k] == 'a'
  {
    seq(i + 1, _ => 'a')
  }

  lemma IdIsOpaque(i: nat)
    requires i < 128
    ensures IsOpaqueId(Id(i))
  {
  }

  function Numbered(steps: seq<Step>): (r: seq<Step>)
    ensures |r| == |steps|
  {
    seq(|steps|, i requires 0 <= i < |steps| => steps[i].(id := Id(i)))
  }

  lemma NumberedDistinct(steps: seq<Step>)
    requires |steps| <= 128
    ensures StepsDistinct(Numbered(steps))
  {
    forall i | 0 <= i < |steps|
      ensures IsOpaqueId(Numbered(steps)[i].id)
    {
      IdIsOpaque(i);
    }
    forall i, j | 0 <= i < j < |steps|
      ensures Numbered(steps)[i].id != Numbered(steps)[j].id
    {
      assert |Id(i)| != |Id(j)|;
    }
  }

  function ReceiptsFor(steps: seq<Step>, job: string, plan: string): (r: seq<Receipt>)
    ensures |r| == |steps|
  {
    seq(|steps|, i requires 0 <= i < |steps| => Receipt(steps[i].id, job, plan, "semanticSuccess", "", true))
  }

  lemma EachReceipted(s: Source, i: nat)
    requires StepsDistinct(s.plan.steps) && i < |s.plan.steps| && s.receipts == ReceiptsFor(s.plan.steps, s.job.id, s.job.planId)
    ensures Receipted(s, s.plan.steps[i].id)
  {
    OneReceipt(s.receipts, s.plan.steps[i].id, i);
  }

  lemma OneReceipt(receipts: seq<Receipt>, id: string, i: nat)
    requires i < |receipts| && forall k :: 0 <= k < |receipts| ==> (receipts[k].stepId == id <==> k == i)
    ensures ReceiptsOf(receipts, id) == [i]
  {
    FilterOne(|receipts|, (k: nat) => k < |receipts| && receipts[k].stepId == id, i);
  }

  // ----- Steps that write and verify some effects

  function StepOf(kind: string, e: Effect): (s: Step) {
    Step("", kind, "partition:" + e.target, e.content)
  }

  function StepsOf(kind: string, effects: seq<Effect>): (r: seq<Step>)
    ensures |r| == |effects|
  {
    seq(|effects|, i requires 0 <= i < |effects| => StepOf(kind, effects[i]))
  }

  const ENDING: seq<Step> := [Step("", "reboot", "", ""), Step("", "postflightProbe", "", "")]

  function AllSteps(head: seq<Step>, effects: seq<Effect>): (r: seq<Step>)
    ensures |r| == |head| + 2 * |effects| + 2
  {
    Numbered(head + StepsOf("writeTarget", effects) + StepsOf("verifyTarget", effects) + ENDING)
  }

  predicate OtherKind(kind: string) {
    kind != "writeTarget" && kind != "verifyTarget"
  }

  /** What stands where. */
  lemma StepAt(head: seq<Step>, effects: seq<Effect>, k: nat)
    requires k < |AllSteps(head, effects)| && forall i :: 0 <= i < |head| ==> OtherKind(head[i].kind)
    ensures var h, n, s := |head|, |effects|, AllSteps(head, effects)[k];
            && (k < h || k >= h + 2 * n ==> OtherKind(s.kind))
            && (h <= k < h + n ==> s.kind == "writeTarget" && s.semanticTarget == "partition:" + effects[k - h].target && s.content == effects[k - h].content)
            && (h + n <= k < h + 2 * n ==>
                  s.kind == "verifyTarget" && s.semanticTarget == "partition:" + effects[k - h - n].target && s.content == effects[k - h - n].content)
  {
  }

  lemma SameTarget(a: string, b: string)
    requires "partition:" + a == "partition:" + b
    ensures a == b
  {
    assert ("partition:" + a)[10..] == a && ("partition:" + b)[10..] == b;
  }

  lemma KindsDiffer()
    ensures "writeTarget" != "verifyTarget"
  {
    assert |"writeTarget"| == 11 && |"verifyTarget"| == 12;
  }

  lemma OneWrite(head: seq<Step>, effects: seq<Effect>, i: nat)
    requires i < |effects| && TargetsDistinct(effects) && forall k :: 0 <= k < |head| ==> OtherKind(head[k].kind)
    ensures StepsFor(AllSteps(head, effects), "writeTarget", effects[i]) == [|head| + i]
  {
    var steps := AllSteps(head, effects);
    KindsDiffer();
    forall k: nat | k < |steps|
      ensures IsStepFor(steps[k], "writeTarget", effects[i]) <==> k == |head| + i
    {
      StepAt(head, effects, k);
      if IsStepFor(steps[k], "writeTarget", effects[i]) {
        SameTarget(effects[k - |head|].target, effects[i].target);
      }
    }
    FilterOne(|steps|, (k: nat) => k < |steps| && IsStepFor(steps[k], "writeTarget", effects[i]), |head| + i);
  }

  lemma OneVerify(head: seq<Step>, effects: seq<Effect>, i: nat)
    requires i < |effects| && TargetsDistinct(effects) && forall k :: 0 <= k < |head| ==> OtherKind(head[k].kind)
    ensures StepsFor(AllSteps(head, effects), "verifyTarget", effects[i]) == [|head| + |effects| + i]
  {
    var steps := AllSteps(head, effects);
    KindsDiffer();
    forall k: nat | k < |steps|
      ensures IsStepFor(steps[k], "verifyTarget", effects[i]) <==> k == |head| + |effects| + i
    {
      StepAt(head, effects, k);
      if IsStepFor(steps[k], "verifyTarget", effects[i]) {
        SameTarget(effects[k - |head| - |effects|].target, effects[i].target);
      }
    }
    FilterOne(|steps|, (k: nat) => k < |steps| && IsStepFor(steps[k], "verifyTarget", effects[i]), |head| + |effects| + i);
  }

  // ----- Whole snapshots

  const DEVICE: Identity := Identity("serial", "topology", "descriptor")

  /** Every text counts as a digest. */
  function AnyDigest(): (parse: Digests) {
    _ => Some(0)
  }

  function PlanOf(id: string, head: seq<Step>, effects: seq<Effect>): (p: Plan) {
    Plan(id, "sha", "primaryFlash", effects, AllSteps(head, effects), "campaign", "campaign")
  }

  function SourceOf(job: string, plan: Plan): (s: Source) {
    Source("arkdeck", "org.openharmony.dayu200@1.0.0", "campaign", Job(job, plan.id, 0, "succeeded", true, |plan.steps|, |plan.steps|), plan,
           ReceiptsFor(plan.steps, job, plan.id), DEVICE, job, 0)
  }

  predicate PlainEffect(e: Effect) {
    && e.kind == "writePartition" && e.target in TARGETS && 0 < e.rangeLength <= MAX_RANGE && e.rangeStart % 512 == 0
    && e.rangeStart + e.rangeLength < U64_LIMIT
  }

  lemma EndsWithReboot(head: seq<Step>, effects: seq<Effect>)
    ensures var steps := AllSteps(head, effects);
            steps[|steps| - 2].kind == "reboot" && steps[|steps| - 1].kind == "postflightProbe"
  {
  }

  lemma SourceIsValid(job: string, id: string, head: seq<Step>, effects: seq<Effect>, restoring: bool)
    requires |head| + 2 * |effects| + 2 <= 128 && forall k :: 0 <= k < |head| ==> OtherKind(head[k].kind)
    requires (forall i :: 0 <= i < |effects| ==> PlainEffect(effects[i])) && TargetsDistinct(effects) && Extent(effects, restoring)
    ensures ValidSource(SourceOf(job, PlanOf(id, head, effects)), job, restoring, AnyDigest())
  {
    var plan := PlanOf(id, head, effects);
    var s := SourceOf(job, plan);
    NumberedDistinct(head + StepsOf("writeTarget", effects) + StepsOf("verifyTarget", effects) + ENDING);
    EndsWithReboot(head, effects);
    assert Correlated(s, job, restoring, AnyDigest());
    forall i | 0 <= i < s.job.completed
      ensures Receipted(s, s.plan.steps[i].id)
    {
      EachReceipted(s, i);
    }
    forall i | 0 <= i < |effects|
      ensures EffectHolds(s, effects[i], AnyDigest())
    {
      OneWrite(head, effects, i);
      OneVerify(head, effects, i);
    }
    assert SourceHolds(s, job, restoring, AnyDigest());
  }

  // ----- The nine targets and the ramdisk

  const NAMES: seq<string> :=
    ["uboot", "resource", "boot_linux", "ramdisk", "system", "vendor", "updater", "chip_ckm", "userdata"]

  function NineEffects(): (r: seq<Effect>)
    ensures |r| == 9
  {
    seq(9, i requires 0 <= i < 9 => Effect("writePartition", NAMES[i], 0, 512, "content"))
  }

  /** Length and first letter tell the names apart. */
  lemma NamesDiffer()
    ensures forall i, j :: 0 <= i < j < 9 ==> NAMES[i] != NAMES[j]
  {
    var n := NAMES;
    assert |n[0]| == 5 && |n[1]| == 8 && |n[2]| == 10 && |n[3]| == 7 && |n[4]| == 6 && |n[5]| == 6 && |n[6]| == 7 && |n[7]| == 8 && |n[8]| == 8;
    assert n[1][0] == 'r' && n[7][0] == 'c' && n[8][0] == 'u' && n[3][0] == 'r' && n[6][0] == 'u' && n[4][0] == 's' && n[5][0] == 'v';
  }

  lemma NineCover()
    ensures Extent(NineEffects(), true) && TargetsDistinct(NineEffects())
    ensures forall i :: 0 <= i < 9 ==> PlainEffect(NineEffects()[i])
  {
    var es := NineEffects();
    NamesDiffer();
    assert forall i :: 0 <= i < 9 ==> es[i].target == NAMES[i];
    forall t
      ensures t in TargetSet(es) <==> t in TARGETS
    {
      assert t in TARGETS <==> t in NAMES;
      if t in NAMES {
        var i :| 0 <= i < 9 && NAMES[i] == t;
        assert es[i].target == t;
      }
    }
    assert TargetSet(es) == TARGETS;
  }

  const RAMDISK: Effect := Effect("writePartition", "ramdisk", RAMDISK_START, RAMDISK_BYTES, RESTORATION_SHA256)

  const LOADER_HEAD: seq<Step> := [Step("", "probeDevice", "", ""), Step("", "validateLayout", "", "")]

  lemma HeadKinds()
    ensures forall k :: 0 <= k < |LOADER_HEAD| ==> OtherKind(LOADER_HEAD[k].kind)
  {
    assert "probeDevice"[0] == 'p' && "writeTarget"[0] == 'w' && "verifyTarget"[0] == 'v';
    assert |"validateLayout"| == 14 && |"writeTarget"| == 11 && |"verifyTarget"| == 12;
  }

  function Original(job: string): (s: Source) {
    SourceOf(job, PlanOf("original", [], NineEffects()))
  }

  function RestoringPlan(): (p: Plan) {
    PlanOf("restoring", LOADER_HEAD, [RAMDISK])
  }

  function RestoredSource(job: string): (s: Source) {
    SourceOf(job, RestoringPlan())
  }

  lemma OriginalIsValid(job: string)
    ensures ValidSource(Original(job), job, true, AnyDigest())
  {
    NineCover();
    SourceIsValid(job, "original", [], NineEffects(), true);
  }

  lemma RestoredIsValid(job: string)
    ensures ValidSource(RestoredSource(job), job, false, AnyDigest())
  {
    HeadKinds();
    SourceIsValid(job, "restoring", LOADER_HEAD, [RAMDISK], false);
  }

  lemma PlanIsRestoring(job: string)
    ensures PlanRestores(RestoringPlan(), Original(job), AnyDigest()) && StepsRestore(RestoringPlan().steps)
  {
    var steps := RestoringPlan().steps;
    assert |"restoring"| == 9 && |"original"| == 8;
    assert Kinds(steps) == LOADER;
    HeadKinds();
    forall i | 0 <= i < |steps| && (steps[i].kind == "writeTarget" || steps[i].kind == "verifyTarget")
      ensures steps[i].semanticTarget == "partition:ramdisk" && steps[i].content == RESTORATION_SHA256
    {
      StepAt(LOADER_HEAD, [RAMDISK], i);
      assert "partition:" + "ramdisk" == "partition:ramdisk";
    }
  }

  // ----- The run

  function Check(source: Source, deadline: nat, at: nat): (seg: seq<Event>)
    ensures |seg| == 3
  {
    [Clock(at), FreshIdentity(source, deadline, Ok(source.identity)), Clock(at)]
  }

  lemma CheckMatches(source: Source, deadline: nat, at: nat)
    requires at < deadline
    ensures Matched(Check(source, deadline, at), source, deadline)
  {
  }

  function Preparing(job: string, artifact: string, budget: nat): (run: seq<Event>)
    ensures |run| == 8
  {
    var source, plan := Original(job), RestoringPlan();
    Check(source, budget, 0) + [RestorationPlan(source, artifact, budget, Ok(plan))]
    + (Check(source, budget, 0) + [Reserve(source, plan, budget, Ok(0))])
  }

  function Preparation(job: string, artifact: string, budget: nat): (run: seq<Event>)
    ensures |run| == 10
  {
    [Clock(0)] + [LoadSource(job, Ok(Original(job)))] + Preparing(job, artifact, budget)
  }

  function ThePermit(job: string, budget: nat): (p: Permit) {
    Permit(Original(job), RestoringPlan(), budget, 0)
  }

  lemma PreparingIs(job: string, artifact: string, budget: nat)
    requires budget > 0
    ensures PlanAndReserveRun(Preparing(job, artifact, budget), Original(job), artifact, budget, Ok(ThePermit(job, budget)), AnyDigest())
  {
    var source, plan, run := Original(job), RestoringPlan(), Preparing(job, artifact, budget);
    var first, second := run[..4], run[4..];
    var check := Check(source, budget, 0);
    PlanIsRestoring(job);
    CheckMatches(source, budget, 0);
    assert first == check + [RestorationPlan(source, artifact, budget, Ok(plan))] && first[..3] == check;
    assert second == check + [Reserve(source, plan, budget, Ok(0))] && second[..3] == check;
    assert run[3] == first[3] && run[7] == second[3];
  }

  lemma PreparationIs(job: string, artifact: string, budget: nat)
    requires budget > 0
    ensures Prepared(Preparation(job, artifact, budget), job, artifact, budget, AnyDigest())
    ensures PermitOf(Preparation(job, artifact, budget), budget) == ThePermit(job, budget)
  {
    var rest, run := Preparing(job, artifact, budget), Preparation(job, artifact, budget);
    OriginalIsValid(job);
    PreparingIs(job, artifact, budget);
    Begins(0, job, Original(job), rest);
    Prepares(run, job, artifact, budget, AnyDigest(), Original(job), rest, Ok(ThePermit(job, budget)));
  }

  function Turn(source: Source, deadline: nat, at: nat): (seg: seq<Event>)
    ensures |seg| == 7
  {
    Check(source, deadline, at) + [ReadPartition(source, RAMDISK, deadline, Ok(FullHash(RESTORATION_SHA256)))] + Check(source, deadline, at)
  }

  function Reading(): (t: TargetResult) {
    Judge(RAMDISK, Ok(FullHash(RESTORATION_SHA256)))
  }

  lemma TurnIs(source: Source, deadline: nat, at: nat)
    requires at < deadline
    ensures Bracketed(Turn(source, deadline, at), source, deadline, Reading())
  {
    var seg := Turn(source, deadline, at);
    CheckMatches(source, deadline, at);
    assert seg[..3] == Check(source, deadline, at) && seg[4..] == Check(source, deadline, at);
  }

  /** A verification of the restored job that starts at `slip`. */
  function TheTrace(restored: string, budget: nat, slip: nat): (t: Trace) {
    var source := RestoredSource(restored);
    Trace(slip, source, Check(source, slip + budget, slip), [Turn(source, slip + budget, slip)], [Reading()], None,
          VerificationResult(restored, source.plan.id, source.plan.sha256, [Reading()]))
  }

  lemma TraceIs(restored: string, budget: nat, slip: nat)
    requires budget > 0
    ensures Verification(TheTrace(restored, budget, slip), restored, budget, AnyDigest())
  {
    var source := RestoredSource(restored);
    RestoredIsValid(restored);
    CheckMatches(source, slip + budget, slip);
    TurnIs(source, slip + budget, slip);
  }

  lemma ReadingConfirms(restored: string, budget: nat, slip: nat)
    ensures IsConfirmation(TheTrace(restored, budget, slip).result, RestoringPlan())
  {
    var targets := [Reading()];
    assert targets[1..] == [];
    assert Count(targets, NotVerified) == 0 && Count(targets, TypedSkip) == 0;
  }

  function Verifying(restored: string, budget: nat, slip: nat): (run: seq<Event>) {
    var t := TheTrace(restored, budget, slip);
    Opening(t, restored, budget) + Joined(t.segs) + [VerificationRecord(t.result, Ok(()))]
  }

  function Confirmation(restored: string, budget: nat, slip: nat): (run: seq<Event>)
    ensures |run| >= 2
  {
    [Clock(0), LoadSource(restored, Ok(RestoredSource(restored)))] + Verifying(restored, budget, slip)
  }

  lemma ConfirmationIs(job: string, restored: string, budget: nat, slip: nat)
    requires job != restored && ValidRequest(restored, budget)
    ensures var t := TheTrace(restored, budget, slip);
            Confirmed(Confirmation(restored, budget, slip), job, ThePermit(job, budget), restored, t.result, t, AnyDigest())
  {
    var run, permit := Confirmation(restored, budget, slip), ThePermit(job, budget);
    TraceIs(restored, budget, slip);
    ReadingConfirms(restored, budget, slip);
    assert run[2..] == Verifying(restored, budget, slip);
    assert Followed(run, job, permit, restored);
  }

  function TheRun(job: string, restored: string, artifact: string, budget: nat, slip: nat): (run: seq<Event>) {
    Preparation(job, artifact, budget) + [Execute(0, budget, Ok(restored))] + Confirmation(restored, budget, slip)
  }

  lemma VerifyingDispatchesNothing(restored: string, budget: nat, slip: nat)
    requires budget > 0
    ensures NoDispatch(Confirmation(restored, budget, slip))
  {
    var t := TheTrace(restored, budget, slip);
    TraceIs(restored, budget, slip);
    TurnsDispatchNothing(t.segs, t.raw, t.source, slip + budget, None);
    assert NoDispatch(Opening(t, restored, budget));
  }

  lemma PreparationDispatchesNothing(job: string, artifact: string, budget: nat)
    ensures NoDispatch(Preparation(job, artifact, budget))
  {
  }

  lemma TheRunSucceeds(job: string, restored: string, artifact: string, budget: nat, slip: nat)
    requires job != restored && ValidRequest(restored, budget)
    ensures var t := TheTrace(restored, budget, slip);
            Success(TheRun(job, restored, artifact, budget, slip), job, artifact, budget, Restored(restored, t.result), t, AnyDigest())
  {
    var prepared, e, rest := Preparation(job, artifact, budget), Execute(0, budget, Ok(restored)), Confirmation(restored, budget, slip);
    var run, t := TheRun(job, restored, artifact, budget, slip), TheTrace(restored, budget, slip);
    PreparationIs(job, artifact, budget);
    ConfirmationIs(job, restored, budget, slip);
    PreparationDispatchesNothing(job, artifact, budget);
    VerifyingDispatchesNothing(restored, budget, slip);
    OneDispatch(prepared, e, rest, job, artifact, budget, AnyDigest());
    assert run == prepared + [e] + rest;
    assert run[..10] == prepared && run[10] == e && run[11..] == rest;
    assert Carried(e, rest, job, ThePermit(job, budget), Restored(restored, t.result), Some(t), AnyDigest());
  }

  /**
   * For every pair of jobs, every budget and every time that passes between the
   * two clock readings, there is a reported restoration whose last clock reading
   * is at the restoration's own deadline.
   */
  lemma LateRestoration(job: string, restored: string, artifact: string, budget: nat, slip: nat)
    returns (run: seq<Event>, result: RestorationResult, t: Trace)
    requires job != restored && ValidRequest(job, budget) && ValidRequest(restored, budget) && slip > 0
    ensures Success(run, job, artifact, budget, result, t, AnyDigest())
    ensures |run| == 27 && run[0].Clock? && run[11] == Clock(run[0].at) && run[13] == Clock(run[0].at + slip)
    ensures run[25] == Clock(run[0].at + budget)
  {
    run := TheRun(job, restored, artifact, budget, slip);
    t := TheTrace(restored, budget, slip);
    result := Restored(restored, t.result);
    TheRunSucceeds(job, restored, artifact, budget, slip);
    SuccessShape(run, job, artifact, budget, result, t, AnyDigest());
    assert run[0] == Clock(0) && run[11] == Clock(0);
    t := LateSuccess(run, job, artifact, budget, result, t, AnyDigest(), budget);
    run := run[25 := Clock(budget)];
  }
}
