/** The last decision about a generated patch: stop, ask for approval, or apply to the trusted repository. */
module Finalizer {
  import opened Prelude
  import opened GitModel
  import ApprovalModel
  import ApprovedApply
  import ChangeRisk
  import Intent
  import SafeApply

  datatype Status = Completed | Failed | TimedOut | Blocked | ApprovalRequired | CleanupFailed

  datatype Outcome = NotGenerated | NotApplied | Applied | PendingApproval | ApplyFailed

  datatype Submission = Submission(status: Status, exit: Option<int>, timedOut: bool, patch: Option<PatchDiff>,
                                   report: Option<ChangeRisk.Report>, intent: Option<Intent.Evaluation>, hasQueue: bool,
                                   requestedBy: string, environment: string)

  // ---------------------------------------------------------------- whether approval is required

  predicate AboveLow(reasons: seq<ChangeRisk.Reason>) {
    exists k :: 0 <= k < |reasons| && reasons[k].level != ChangeRisk.Low
  }

  /** A MEDIUM or HIGH reason; a CRITICAL one is the gate's. */
  predicate Reviewable(reasons: seq<ChangeRisk.Reason>) {
    exists k :: 0 <= k < |reasons| && (reasons[k].level == ChangeRisk.Medium || reasons[k].level == ChangeRisk.High)
  }

  predicate FileNeedsApproval(file: ChangeRisk.FileRisk) {
    !SafeApply.DocsOrTests(file) || Reviewable(file.reasons)
  }

  predicate SomeFileNeedsApproval(files: seq<ChangeRisk.FileRisk>) {
    exists k :: 0 <= k < |files| && FileNeedsApproval(files[k])
  }

  /** _approval_reasons finds at least one. */
  predicate NeedsApproval(patch: PatchDiff, report: ChangeRisk.Report) {
    || patch.ignoredCount != 0
    || ChangeRisk.Overall(report) != ChangeRisk.Low
    || AboveLow(report.reasons)
    || SomeFileNeedsApproval(report.files)
  }

  /** evaluate_patch_approval_requirement. */
  predicate Required(patch: PatchDiff, report: ChangeRisk.Report) {
    !ChangeRisk.Blocked(report) && NeedsApproval(patch, report)
  }

  // ---------------------------------------------------------------- patches that may go without approval

  predicate HarmlessFile(file: ChangeRisk.FileRisk) {
    SafeApply.PlainFile(file) && !AboveLow(file.reasons)
  }

  predicate HarmlessFiles(files: seq<ChangeRisk.FileRisk>) {
    forall k :: 0 <= k < |files| ==> HarmlessFile(files[k])
  }

  /** Only plain documentation and test files, nothing ignored, nothing above LOW, no diff limit touched. */
  predicate Harmless(patch: PatchDiff, report: ChangeRisk.Report) {
    && patch.fileCount != 0 && patch.ignoredCount == 0
    && !AboveLow(report.reasons) && SafeApply.WithinLimits(report.reasons)
    && HarmlessFiles(report.files)
  }

  lemma LowOverall(report: ChangeRisk.Report)
    ensures ChangeRisk.Overall(report) == ChangeRisk.Low <==>
            !AboveLow(report.reasons) && forall k :: 0 <= k < |report.files| ==> report.files[k].level == ChangeRisk.Low
  {
    var files, reasons := ChangeRisk.FileLevels(report.files), ChangeRisk.LevelsOf(report.reasons);
    ChangeRisk.HighestConcat(files, reasons);
    ChangeRisk.HighestIsHighest(files);
    ChangeRisk.HighestIsHighest(reasons);
    if k :| 0 <= k < |report.reasons| && report.reasons[k].level != ChangeRisk.Low {
      assert reasons[k] != ChangeRisk.Low;
    }
    if k :| 0 <= k < |report.files| && report.files[k].level != ChangeRisk.Low {
      assert files[k] != ChangeRisk.Low;
    }
  }

  lemma FileHarmlessExactly(file: ChangeRisk.FileRisk)
    ensures HarmlessFile(file) <==>
            SafeApply.PlainFile(file) && !FileNeedsApproval(file) && !ChangeRisk.AnyCritical(file.reasons)
  {}

  lemma FilesHarmlessExactly(files: seq<ChangeRisk.FileRisk>)
    ensures HarmlessFiles(files) <==>
            && SafeApply.PlainFiles(files) && !SomeFileNeedsApproval(files)
            && forall k :: 0 <= k < |files| ==> !ChangeRisk.AnyCritical(files[k].reasons)
  {
    forall k | 0 <= k < |files|
      ensures HarmlessFile(files[k]) <==>
              SafeApply.PlainFile(files[k]) && !FileNeedsApproval(files[k]) && !ChangeRisk.AnyCritical(files[k].reasons)
    {
      FileHarmlessExactly(files[k]);
    }
  }

  /** The gate, the approval requirement and the skip reasons together let through exactly the harmless patches. */
  lemma HarmlessExactly(patch: PatchDiff, report: ChangeRisk.Report)
    ensures Harmless(patch, report) <==>
            && !ChangeRisk.Blocked(report) && !Required(patch, report)
            && SafeApply.Eligible(patch, report, ChangeRisk.Blocked(report))
  {
    ChangeRisk.SomeNamed(report);
    LowOverall(report);
    FilesHarmlessExactly(report.files);
    if ChangeRisk.AnyCritical(report.reasons) {
      var k :| 0 <= k < |report.reasons| && report.reasons[k].level == ChangeRisk.Critical;
      assert AboveLow(report.reasons);
    }
    if HarmlessFiles(report.files) {
      forall k | 0 <= k < |report.files| ensures report.files[k].level == ChangeRisk.Low {
        assert HarmlessFile(report.files[k]);
      }
    }
  }

  lemma HarmlessIsLow(patch: PatchDiff, report: ChangeRisk.Report)
    requires Harmless(patch, report)
    ensures ChangeRisk.Overall(report) == ChangeRisk.Low
  {
    forall k | 0 <= k < |report.files| ensures report.files[k].level == ChangeRisk.Low {
      assert HarmlessFile(report.files[k]);
    }
    LowOverall(report);
  }

  // ---------------------------------------------------------------- the decision

  datatype Course = Stop(status: Status, outcome: Outcome) | Ask(forced: Option<string>) | TryApply

  const RISKY_POLICY: string := "guarded-workspace-risky-patch-approval"
  const INTENT_POLICY: string := "guarded-workspace-intent-approval"
  const NON_AUTO_POLICY: string := "guarded-workspace-non-auto-apply-approval"

  function Normalize(status: Status): Status {
    if status == CleanupFailed then Failed else status
  }

  predicate ShouldBlock(intent: Option<Intent.Evaluation>) {
    intent.Some? && intent.value.effective == Intent.Block
  }

  predicate IntentAsks(intent: Option<Intent.Evaluation>) {
    intent.Some? && intent.value.effective == Intent.RequireApproval
  }

  /** finalize_guarded_patch up to its first effect. */
  function Decide(s: Submission, evaluationRaises: bool): Course {
    if s.timedOut || Normalize(s.status) == TimedOut then Stop(TimedOut, NotApplied)
    else if (s.exit.Some? && s.exit.value != 0) || Normalize(s.status) == Failed then Stop(Failed, NotApplied)
    else if Normalize(s.status) == Blocked then Stop(Blocked, NotApplied)
    else if ShouldBlock(s.intent) then Stop(Blocked, NotApplied)
    else if s.patch.None? || s.patch.value.fileCount == 0 then
      Stop(if IntentAsks(s.intent) then ApprovalRequired else Completed, NotGenerated)
    else if s.report.None? || evaluationRaises then Stop(Failed, ApplyFailed)
    else if ChangeRisk.Blocked(s.report.value) || ChangeRisk.Overall(s.report.value) == ChangeRisk.Critical then
      Stop(Blocked, NotApplied)
    else if Required(s.patch.value, s.report.value) then Ask(None)
    else if IntentAsks(s.intent) then Ask(Some(INTENT_POLICY))
    else TryApply
  }

  /** The command succeeded, as far as the finalizer is told. */
  predicate Succeeded(s: Submission) {
    && !s.timedOut && (s.exit == None || s.exit == Some(0))
    && (s.status == Completed || s.status == ApprovalRequired)
  }

  /** What must hold of a submission before the trusted repository may change without approval. */
  predicate MayApply(s: Submission) {
    && Succeeded(s)
    && !ShouldBlock(s.intent) && !IntentAsks(s.intent)
    && s.patch.Some? && s.report.Some? && Harmless(s.patch.value, s.report.value)
  }

  predicate Eligible(s: Submission) {
    s.patch.Some? && s.report.Some?
    && SafeApply.Eligible(s.patch.value, s.report.value, ChangeRisk.Blocked(s.report.value))
  }

  /** The whole chain reaches a trusted mutation exactly for these submissions. */
  lemma AppliesExactly(s: Submission, evaluationRaises: bool)
    ensures Decide(s, evaluationRaises) == TryApply && Eligible(s) <==> MayApply(s) && !evaluationRaises
  {
    if s.patch.Some? && s.report.Some? {
      HarmlessExactly(s.patch.value, s.report.value);
      LowOverall(s.report.value);
      if Harmless(s.patch.value, s.report.value) {
        assert ChangeRisk.Overall(s.report.value) == ChangeRisk.Low;
      }
    }
  }

  /** Nothing is applied or asked about after a command that did not succeed. */
  lemma FailureStops(s: Submission, evaluationRaises: bool)
    ensures !Succeeded(s) <==>
            || Decide(s, evaluationRaises) == Stop(TimedOut, NotApplied)
            || Decide(s, evaluationRaises) == Stop(Failed, NotApplied)
            || (Decide(s, evaluationRaises) == Stop(Blocked, NotApplied) && s.status == Blocked)
    ensures Decide(s, evaluationRaises) == Stop(TimedOut, NotApplied) <==> s.timedOut || s.status == TimedOut
  {}

  /**
    Whether a patch that nothing stops needs approval: something above LOW, ignored, or outside documentation and
    tests.
  */
  lemma AsksExactly(s: Submission)
    requires Succeeded(s) && !ShouldBlock(s.intent)
    requires s.patch.Some? && s.patch.value.fileCount != 0 && s.report.Some? && ChangeRisk.AllConsistent(s.report.value)
    ensures Decide(s, false).Ask? <==>
            && !ChangeRisk.SomeCritical(s.report.value)
            && (IntentAsks(s.intent) || s.patch.value.ignoredCount != 0 || AboveLow(s.report.value.reasons)
                || SomeFileNeedsApproval(s.report.value.files))
    ensures Decide(s, false) == Ask(Some(INTENT_POLICY)) ==>
        IntentAsks(s.intent) && !NeedsApproval(s.patch.value, s.report.value)
  {
    ChangeRisk.SomeNamed(s.report.value);
    ChangeRisk.BlockedIsCritical(s.report.value);
    LowOverall(s.report.value);
  }

  /** A patch with a CRITICAL reason is blocked: it is neither applied nor offered for approval. */
  lemma CriticalIsBlocked(s: Submission)
    requires Succeeded(s) && s.patch.Some? && s.patch.value.fileCount != 0 && s.report.Some?
    requires ChangeRisk.AllConsistent(s.report.value)
    ensures Decide(s, false) == Stop(Blocked, NotApplied) <==>
            ShouldBlock(s.intent) || ChangeRisk.SomeCritical(s.report.value)
  {
    ChangeRisk.SomeNamed(s.report.value);
    ChangeRisk.BlockedIsCritical(s.report.value);
  }

  // ---------------------------------------------------------------- the approval request

  function SeverityFor(level: ChangeRisk.RiskLevel): ApprovalModel.Severity {
    match level
    case Critical => ApprovalModel.CriticalSeverity
    case High => ApprovalModel.HighSeverity
    case Medium => ApprovalModel.MediumSeverity
    case Low => ApprovalModel.LowSeverity
  }

  /** create_patch_approval_request, or _forced_approval_request when a policy is forced. */
  function ApprovalRequestFor(s: Submission, patch: PatchDiff, report: ChangeRisk.Report, forced: Option<string>,
                              approvalId: string): ApprovalModel.Request {
    ApprovalModel.Request(approvalId, s.requestedBy, s.environment, "guarded_workspace", Some("approve_patch_apply"),
                          Some(patch.digest), Some(if forced.Some? then forced.value else RISKY_POLICY),
                          SeverityFor(ChangeRisk.Overall(report)), Some(patch.baseline), forced.Some?, "")
  }

  /** The ways the finalizer asks: for a required approval, or under one of two forced policies. */
  predicate Asked(patch: PatchDiff, report: ChangeRisk.Report, forced: Option<string>) {
    (forced == None && Required(patch, report)) || forced == Some(INTENT_POLICY) || forced == Some(NON_AUTO_POLICY)
  }

  /** A decision that approves this very request for this very patch. */
  predicate Approves(d: ApprovalModel.Decision, approvalId: string, patch: PatchDiff) {
    && d.status == ApprovalModel.Approved && d.approved && d.approvalId == approvalId
    && d.metadata.patchDigest == Some(patch.digest) && d.metadata.baseline == Some(patch.baseline)
  }

  /** What apply_approved_patch works out again from the same patch and report. */
  function Reassessed(patch: PatchDiff, report: ChangeRisk.Report, pathsSafe: bool, expired: bool, receiptValid: bool)
    : ApprovedApply.Assessment
  {
    ApprovedApply.Assessment(pathsSafe, ChangeRisk.Blocked(report), Required(patch, report), expired, receiptValid)
  }

  /** The finalizer asks, at once or after an automatic apply that skipped. */
  predicate AsksFor(s: Submission, forced: Option<string>) {
    Decide(s, false) == Ask(forced) || (Decide(s, false) == TryApply && forced == Some(NON_AUTO_POLICY))
  }

  /**
    Every request the finalizer makes can be used: once approved, apply_approved_patch admits it for the same patch
    and report exactly as long as the paths are safe, the approval has not expired and its receipt is valid.
  */
  lemma RequestsAreUsable(s: Submission, forced: Option<string>, call: ApprovedApply.Call,
                          pathsSafe: bool, expired: bool, receiptValid: bool)
    requires AsksFor(s, forced)
    requires call.patch == s.patch.value
    requires call.request == ApprovalRequestFor(s, s.patch.value, s.report.value, forced, call.request.approvalId)
    requires Approves(call.decision, call.request.approvalId, s.patch.value)
    requires call.assessment == Reassessed(s.patch.value, s.report.value, pathsSafe, expired, receiptValid)
    ensures ApprovedApply.Admission(call) == None <==> pathsSafe && !expired && receiptValid
  {
    ApprovedApply.AdmittedExactly(call);
    assert call.request.policyId.value in ApprovedApply.SUPPORTED_POLICIES;
  }

  // ---------------------------------------------------------------- effects

  datatype Artifact = Artifact(text: string, digest: string, baseline: string, approvalId: string)

  datatype Pending = Pending(request: ApprovalModel.Request, artifactId: string)

  datatype Persistence = Stored | NothingWritten | WrittenUnverified

  datatype Deletion = Deletes | Declines | Crashes

  /** What the finalizer finds around it: fresh ids, and which of the calls it makes raise. */
  datatype Around = Around(
    approvalId: string,
    artifactId: string,
    evaluationRaises: bool,
    storeOpens: bool,
    formsSafe: bool,
    persistence: Persistence,
    bindRaises: bool,
    submitRaises: bool,
    deletion: Deletion,
    apply: SafeApply.Conditions)

  datatype Ending = Ending(status: Status, outcome: Outcome, artifact: Option<string>)

  function ArtifactFor(patch: PatchDiff, around: Around): Artifact {
    Artifact(patch.text, patch.digest, patch.baseline, around.approvalId)
  }

  function PendingFor(s: Submission, patch: PatchDiff, report: ChangeRisk.Report, forced: Option<string>,
                      around: Around): Pending
  {
    Pending(ApprovalRequestFor(s, patch, report, forced, around.approvalId), around.artifactId)
  }

  /** A request waits behind the artifact that holds its patch. */
  predicate BackedBy(artifacts: map<string, Artifact>, p: Pending) {
    && p.artifactId in artifacts
    && artifacts[p.artifactId].approvalId == p.request.approvalId
    && p.request.target == Some(artifacts[p.artifactId].digest)
    && p.request.baseline == Some(artifacts[p.artifactId].baseline)
  }

  predicate Persists(artifacts: map<string, Artifact>, hasQueue: bool, forced: Option<string>, around: Around) {
    && around.storeOpens && (forced.Some? || around.formsSafe)
    && around.artifactId !in artifacts && around.apply.intact && around.persistence == Stored
    && !around.bindRaises && (!hasQueue || !around.submitRaises)
  }

  /** The two ways an artifact outlives a request that was never made. */
  predicate Orphans(hasQueue: bool, around: Around) {
    || around.persistence == WrittenUnverified
    || ((around.bindRaises || (hasQueue && around.submitRaises)) && around.deletion != Deletes)
  }

  /** A patch that is not stopped ends up waiting when it has to be asked about, or turns out not to be eligible. */
  predicate Pends(g: Git, repo: Repo, artifacts: map<string, Artifact>, s: Submission, around: Around) {
    match Decide(s, around.evaluationRaises)
    case Stop(_, _) => false
    case Ask(forced) => Persists(artifacts, s.hasQueue, forced, around)
    case TryApply =>
      && SafeApply.Admitted(g, repo, s.patch.value, around.apply) && !Eligible(s)
      && Persists(artifacts, s.hasQueue, Some(NON_AUTO_POLICY), around)
  }

  const PERSISTENCE_FAILED: Option<Ending> := Some(Ending(Failed, ApplyFailed, None))

  class Boundary {
    const target: SafeApply.Target
    var artifacts: map<string, Artifact>
    var queue: seq<Pending>

    constructor (target: SafeApply.Target)
      ensures this.target == target && artifacts == map[] && queue == [] && Backed()
    {
      this.target, artifacts, queue := target, map[], [];
    }

    /** No request without its artifact. */
    ghost predicate Backed()
      reads this
    {
      forall k :: 0 <= k < |queue| ==> BackedBy(artifacts, queue[k])
    }

    /** _persist_pending_approval: artifact and request both, or neither; None when the cleanup itself raises. */
    method PersistPendingApproval(s: Submission, patch: PatchDiff, report: ChangeRisk.Report,
                                  forced: Option<string>, around: Around) returns (ending: Option<Ending>)
      requires Backed()
      modifies this
      ensures Backed()
      ensures var id := around.artifactId;
              if Persists(old(artifacts), s.hasQueue, forced, around) then
                && ending == Some(Ending(ApprovalRequired, PendingApproval, Some(id)))
                && artifacts == old(artifacts)[id := ArtifactFor(patch, around)]
                && queue == old(queue) + if s.hasQueue then [PendingFor(s, patch, report, forced, around)] else []
              else
                && (ending == PERSISTENCE_FAILED || (ending == None && around.deletion == Crashes))
                && queue == old(queue)
                && (if Orphans(s.hasQueue, around) then artifacts - {id} == old(artifacts) - {id}
                    else artifacts == old(artifacts))
    {
      var id := around.artifactId;
      if !around.storeOpens { return PERSISTENCE_FAILED; }
      if forced.None? && !around.formsSafe { return PERSISTENCE_FAILED; }
      if !around.apply.intact || id in artifacts || around.persistence == NothingWritten {
        return PERSISTENCE_FAILED;
      }
      ghost var before := artifacts;
      artifacts := artifacts[id := ArtifactFor(patch, around)];
      if around.persistence == WrittenUnverified { return PERSISTENCE_FAILED; }
      if around.bindRaises || (s.hasQueue && around.submitRaises) {
        match around.deletion {
          case Deletes =>
            artifacts := artifacts - {id};
            assert artifacts == before;
            return PERSISTENCE_FAILED;
          case Declines => return PERSISTENCE_FAILED;
          case Crashes => return None;
        }
      }
      if s.hasQueue {
        queue := queue + [PendingFor(s, patch, report, forced, around)];
      }
      ending := Some(Ending(ApprovalRequired, PendingApproval, Some(id)));
    }

    /** finalize_guarded_patch. */
    method Finalize(s: Submission, around: Around) returns (ending: Option<Ending>)
      requires Backed()
      modifies this, target
      ensures Backed()
      // Applied: exactly for a submission that may apply, on a repository where it succeeds.
      ensures ending.Some? && ending.value.outcome == Applied <==>
              && MayApply(s) && !around.evaluationRaises
              && SafeApply.Succeeds(target.g, old(target.repo), s.patch.value, s.report.value, false, around.apply)
      ensures ending.Some? && ending.value.outcome == Applied ==>
                && ending.value.status == Completed
                && target.repo.head == old(target.repo).head
                && target.g.patched(s.patch.value.text, old(target.repo).work) == Some(target.repo.work)
      // After a command that did not succeed, nothing is applied, asked or written.
      ensures !Succeeded(s) ==>
                && ending.Some? && ending.value.outcome == NotApplied
                && (ending.value.status == TimedOut <==> s.timedOut || s.status == TimedOut)
      // Whatever the ending, no other submission changes the trusted repository.
      ensures target.repo != old(target.repo) ==> MayApply(s) && !around.evaluationRaises
      ensures target.repo != old(target.repo) ==>
                ending == Some(Ending(Completed, Applied, None)) || ending == Some(Ending(Failed, ApplyFailed, None))
      // A request appears exactly when approval is pending, and can be used once approved.
      ensures queue != old(queue) ==> |queue| == |old(queue)| + 1 && queue[..|old(queue)|] == old(queue)
      ensures queue != old(queue) ==>
                && s.patch.Some? && s.report.Some? && ending.Some? && ending.value.outcome == PendingApproval
                && var patch, report, request := s.patch.value, s.report.value, queue[|queue| - 1];
                   exists forced :: && Asked(patch, report, forced)
                                    && request == PendingFor(s, patch, report, forced, around)
      ensures ending.Some? && ending.value.outcome == PendingApproval <==>
                Pends(target.g, old(target.repo), old(artifacts), s, around)
      ensures ending.Some? && ending.value.status == Completed ==> ending.value.outcome in {NotGenerated, Applied}
      ensures ending.Some? && ending.value.outcome == PendingApproval ==> ending.value.status == ApprovalRequired
      ensures ending.Some? && ending.value.outcome == ApplyFailed ==> ending.value.status == Failed
      ensures ending.Some? && ending.value.outcome == PendingApproval ==>
                && ending.value.artifact == Some(around.artifactId)
                && Succeeded(s) && s.patch.Some? && !ShouldBlock(s.intent)
                && around.artifactId in artifacts && artifacts[around.artifactId].digest == s.patch.value.digest
                && (s.hasQueue ==> queue != old(queue))
      ensures ending == None ==> around.deletion == Crashes
      ensures var course := Decide(s, around.evaluationRaises);
              course.Stop? ==> ending == Some(Ending(course.status, course.outcome, None))
      ensures ending.Some? && (ending.value.status == Blocked || ending.value.outcome in {NotGenerated, NotApplied}) ==>
                artifacts == old(artifacts) && queue == old(queue) && target.repo == old(target.repo)
    {
      AppliesExactly(s, around.evaluationRaises);
      FailureStops(s, around.evaluationRaises);
      match Decide(s, around.evaluationRaises)
      case Stop(status, outcome) =>
        ending := Some(Ending(status, outcome, None));
      case Ask(forced) =>
        ending := PersistPendingApproval(s, s.patch.value, s.report.value, forced, around);
        assert Asked(s.patch.value, s.report.value, forced);
      case TryApply =>
        var attempt := target.AutoApply(s.patch.value, s.report.value, ChangeRisk.Blocked(s.report.value),
            around.apply);
        match attempt {
          case Applied => ending := Some(Ending(Completed, Outcome.Applied, None));
          case Skipped(_) =>
            ending := PersistPendingApproval(s, s.patch.value, s.report.value, Some(NON_AUTO_POLICY), around);
            assert Asked(s.patch.value, s.report.value, Some(NON_AUTO_POLICY));
          case _ => ending := Some(Ending(Failed, ApplyFailed, None));
        }
    }
  }
}
