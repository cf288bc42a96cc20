/** One guarded run, from its command to its report: status, intent and finalization, with every exception path. */
module GuardedRun {
  import opened Prelude
  import opened GitModel
  import opened Finalizer
  import ChangeRisk
  import GuardedRisk
  import Intent
  import SafeApply

  /** How a call ends: normally, with an error the run catches, or with any other exception. */
  datatype Fault = Fine | Listed | Other

  datatype Command = Raised(listed: bool) | Ran(exit: Option<int>, timedOut: bool, sandboxFailed: bool)

  datatype IntentFault = NoFault | BeforeEvaluation | AfterEvaluation

  datatype Cleanup = Preserved | Cleaned | FailedOrQuarantined | CleanupRaises

  /** Everything a run meets. The audit flags say which audit writes raise. */
  datatype Run = Run(
    sessionCreated: bool,
    startAuditRaises: bool,
    command: Command,
    commandAuditRaises: bool,
    detection: Fault,
    detectionAuditRaises: bool,
    anyFiles: bool,
    generation: Fault,
    patch: PatchDiff,
    classification: Fault,
    report: ChangeRisk.Report,
    classifiedAuditRaises: bool,
    generatedAuditRaises: bool,
    handlerAuditRaises: bool,
    normalizationRaises: bool,
    actions: seq<Intent.Action>,
    recordedAuditRaises: bool,
    contract: Option<Intent.Contract>,
    intentFault: IntentFault,
    intentAuditRaises: bool,
    around: Around,
    finalAuditRaises: bool,
    failureAuditRaises: bool,
    cleanup: Cleanup,
    cleanupAuditRaises: bool,
    hasQueue: bool,
    requestedBy: string,
    environment: string)

  // ---------------------------------------------------------------- what a trusted mutation needs

  predicate CommandSucceeded(command: Command) {
    command == Ran(Some(0), false, false)
  }

  /** Under an enforced contract, every action of the run matched, and there was one. */
  predicate ContractMet(lib: Intent.Library, run: Run) {
    run.contract.Some? && run.contract.value.mode == Intent.Enforce ==>
      && run.actions != []
      && forall k :: 0 <= k < |run.actions| ==>
          Intent.Matched(Intent.MatchAction(lib, run.actions[k], run.contract.value))
  }

  /** The command succeeded, the contract is met, and the patch is harmless. */
  predicate Clears(lib: Intent.Library, run: Run) {
    && CommandSucceeded(run.command)
    && ContractMet(lib, run)
    && Harmless(run.patch, run.report)
  }

  /** Nothing raises on the way from the command to a classified patch. */
  predicate Classified(run: Run) {
    && !run.startAuditRaises && !run.commandAuditRaises
    && run.detection == Fine && !run.detectionAuditRaises && run.anyFiles
    && run.generation == Fine && run.classification == Fine
  }

  /** Nor from there to the finalizer's decision. */
  predicate Arrives(run: Run) {
    && run.sessionCreated && Classified(run)
    && !run.normalizationRaises && !run.recordedAuditRaises
    && (run.contract.Some? ==> run.intentFault == NoFault)
    && !run.around.evaluationRaises
  }

  /** The patch lands in the trusted repository. */
  predicate Lands(lib: Intent.Library, g: Git, repo: Repo, run: Run) {
    && Clears(lib, run) && Arrives(run)
    && SafeApply.Succeeds(g, repo, run.patch, run.report, false, run.around.apply)
  }

  /** Nothing raises from then on, either. */
  predicate Concludes(run: Run) {
    && !run.classifiedAuditRaises && !run.generatedAuditRaises
    && !run.finalAuditRaises
    && run.cleanup != CleanupRaises && !run.cleanupAuditRaises
  }

  /** A run whose patch carries a lock marker never lands, even if the lock itself was lost to a failing kernel. */
  lemma LockedNeverLands(lib: Intent.Library, run: Run, p: GuardedRisk.Patch, rust: GuardedRisk.Rust)
    requires GuardedRisk.Fits(p, rust) && run.report == GuardedRisk.GuardedReport(p, rust)
    requires GuardedRisk.SomeLocked(p)
    ensures !Clears(lib, run)
  {
    GuardedRisk.LockedIsHigh(p, rust);
    if Harmless(run.patch, run.report) {
      HarmlessIsLow(run.patch, run.report);
    }
  }

  predicate Unopposed(intent: Option<Intent.Evaluation>) {
    !ShouldBlock(intent) && !IntentAsks(intent)
  }

  function Evaluated(lib: Intent.Library, run: Run): Option<Intent.Evaluation> {
    if run.contract.None? then None else Some(Intent.Evaluate(lib, run.actions, run.contract.value))
  }

  /** Only an enforced contract opposes, and exactly when it is not met. */
  lemma UnopposedExactly(lib: Intent.Library, run: Run)
    ensures Unopposed(Evaluated(lib, run)) <==> ContractMet(lib, run)
  {
    if run.contract.Some? && run.contract.value.mode == Intent.Enforce {
      Intent.EnforcedMeansMatched(lib, run.actions, run.contract.value);
    }
  }

  // ---------------------------------------------------------------- the run

  datatype Progress = Progress(status: Status, exit: Option<int>, timedOut: bool, patch: Option<PatchDiff>,
                               report: Option<ChangeRisk.Report>, raised: Fault)

  datatype Cause = SessionFailed | StepFailed | IntentFailed | FinalizerStopped | FinalizationFailed

  datatype Warning = Reason(cause: Cause) | WorkspacePreserved | CleanupMessage

  datatype RunReport = RunReport(status: Status, outcome: Option<Outcome>, artifact: Option<string>,
                                 blocked: Option<Cause>, warnings: seq<Warning>)

  function CommandStatus(c: Command): Status
    requires c.Ran?
  {
    if c.sandboxFailed then Blocked
    else if c.timedOut then TimedOut
    else if c.exit == Some(0) then Completed
    else Failed
  }

  /** The protected block of run_guarded, up to its end or to what it raises. */
  method Execute(run: Run) returns (p: Progress)
    requires run.sessionCreated
    ensures p.status == Completed ==> CommandSucceeded(run.command) && p.exit == Some(0) && !p.timedOut
    ensures p.status != ApprovalRequired && p.status != CleanupFailed
    ensures p.patch == None || p.patch == Some(run.patch)
    ensures p.report == None || p.report == Some(run.report)
    ensures p.status == Completed && p.patch.Some? && p.report.Some? && p.raised != Listed <==>
            CommandSucceeded(run.command) && Classified(run)
    ensures p.report.Some? ==> p.raised == if run.classifiedAuditRaises || run.generatedAuditRaises then Other else Fine
  {
    p := Progress(Failed, None, false, None, None, Fine);
    if run.startAuditRaises { return p.(raised := Other); }
    match run.command {
      case Raised(listed) => return p.(raised := if listed then Listed else Other);
      case Ran(exit, timedOut, _) =>
        p := p.(status := CommandStatus(run.command), exit := exit, timedOut := timedOut);
    }
    if run.commandAuditRaises { return p.(raised := Other); }
    if run.detection != Fine { return p.(raised := run.detection); }
    if run.detectionAuditRaises { return p.(raised := Other); }
    if run.anyFiles {
      if run.generation != Fine { return p.(raised := run.generation); }
      p := p.(patch := Some(run.patch));
      if run.classification != Fine { return p.(raised := run.classification); }
      p := p.(report := Some(run.report));
      if run.classifiedAuditRaises { return p.(raised := Other); }
    }
    if run.generatedAuditRaises { return p.(raised := Other); }
  }

  /** What the finalizer is told is what happened. */
  predicate Tells(lib: Intent.Library, run: Run, s: Submission) {
    && (Succeeded(s) ==> CommandSucceeded(run.command) && s.intent == Evaluated(lib, run))
    && (s.patch == None || s.patch == Some(run.patch))
    && (s.report == None || s.report == Some(run.report))
    && (Succeeded(s) && s.patch.Some? && s.report.Some? && !run.around.evaluationRaises <==>
        CommandSucceeded(run.command) && Arrives(run))
  }

  lemma ToldClears(lib: Intent.Library, run: Run, s: Submission)
    requires Tells(lib, run, s)
    ensures MayApply(s) && !run.around.evaluationRaises <==> Clears(lib, run) && Arrives(run)
  {
    UnopposedExactly(lib, run);
  }

  datatype Prepared = Prepared(submission: Submission, blocked: Option<Cause>, warnings: seq<Warning>, escaping: bool)

  /** The protected block and the handlers of what it raises: a caught error fails the run, any other escapes. */
  method Handle(run: Run) returns (p: Progress, escaping: bool)
    requires run.sessionCreated
    ensures p.status == Completed ==> CommandSucceeded(run.command) && p.exit == Some(0) && !p.timedOut
    ensures p.status != ApprovalRequired
    ensures p.patch == None || p.patch == Some(run.patch)
    ensures p.report == None || p.report == Some(run.report)
    ensures p.status == Completed && p.patch.Some? && p.report.Some? <==>
            CommandSucceeded(run.command) && Classified(run)
    ensures CommandSucceeded(run.command) && Classified(run) ==>
              (escaping <==> run.classifiedAuditRaises || run.generatedAuditRaises)
  {
    p := Execute(run);
    escaping := p.raised == Other;
    if p.raised == Listed {
      p := p.(status := Failed);
      escaping := run.handlerAuditRaises;
    }
  }

  /**
    The handlers, the recorded actions and the intent evaluation; None when an exception leaves before finalization.
  */
  method Prepare(lib: Intent.Library, run: Run) returns (prepared: Option<Prepared>)
    requires run.sessionCreated
    ensures prepared == None ==> !Arrives(run)
    ensures prepared.Some? ==> Tells(lib, run, prepared.value.submission)
    ensures prepared.Some? && CommandSucceeded(run.command) && Arrives(run) ==>
              (prepared.value.escaping <==> run.classifiedAuditRaises || run.generatedAuditRaises)
  {
    var p, escaping := Handle(run);
    var status, blocked, warnings := p.status, None, [];
    if p.raised == Listed {
      blocked, warnings := Some(StepFailed), [Reason(StepFailed)];
    }
    if run.normalizationRaises || run.recordedAuditRaises { return None; }
    var intent, failed := EvaluateIntent(lib, run);
    if failed {
      status, blocked, warnings := Failed, Some(IntentFailed), warnings + [Reason(IntentFailed)];
      if run.intentAuditRaises { return None; }
    }
    var s := Submission(status, p.exit, p.timedOut, p.patch, p.report, intent, run.hasQueue, run.requestedBy,
        run.environment);
    prepared := Some(Prepared(s, blocked, warnings, escaping));
  }

  /** The evaluation, kept even where what follows it raises. */
  method EvaluateIntent(lib: Intent.Library, run: Run) returns (intent: Option<Intent.Evaluation>, failed: bool)
    ensures failed <==> run.contract.Some? && run.intentFault != NoFault
    ensures !failed ==> intent == Evaluated(lib, run)
  {
    intent, failed := None, false;
    if run.contract.Some? {
      if run.intentFault != BeforeEvaluation {
        intent := Evaluated(lib, run);
      }
      failed := run.intentFault != NoFault;
    }
  }

  /** What the report makes of the finalizer's ending, the last audit writes and the cleanup. */
  method Conclude(run: Run, prepared: Prepared, ending: Option<Ending>) returns (report: Option<RunReport>)
    ensures report.Some? && report.value.outcome == Some(Applied) <==>
            && ending.Some? && ending.value.outcome == Applied
            && !run.finalAuditRaises && !prepared.escaping && run.cleanup != CleanupRaises && !run.cleanupAuditRaises
    ensures report.Some? && (ending == None || run.finalAuditRaises) ==>
              report.value.outcome == Some(ApplyFailed) && report.value.status in {Failed, CleanupFailed}
    ensures report.Some? && ending.Some? && !run.finalAuditRaises ==>
              && report.value.outcome == Some(ending.value.outcome) && report.value.artifact == ending.value.artifact
              && report.value.status in {ending.value.status, CleanupFailed}
    ensures report.Some? && report.value.status !in {Completed, CleanupFailed} ==>
              report.value.blocked.Some? && Reason(report.value.blocked.value) in report.value.warnings
  {
    var status, blocked, warnings := Failed, prepared.blocked, prepared.warnings;
    var outcome, artifact := None, None;
    if ending.Some? {
      status, outcome, artifact := ending.value.status, Some(ending.value.outcome), ending.value.artifact;
      if status != Completed {
        blocked := Some(FinalizerStopped);
        if Reason(FinalizerStopped) !in warnings {
          warnings := warnings + [Reason(FinalizerStopped)];
        }
      }
    }
    if ending.None? || run.finalAuditRaises {
      status, outcome, blocked := Failed, Some(ApplyFailed), Some(FinalizationFailed);
      warnings := warnings + [Reason(FinalizationFailed)];
      if run.failureAuditRaises { return None; }
    }
    match run.cleanup {
      case Preserved => warnings := warnings + [WorkspacePreserved];
      case Cleaned =>
      case FailedOrQuarantined =>
        status := CleanupFailed;
        warnings := warnings + [CleanupMessage];
      case CleanupRaises => return None;
    }
    if run.cleanupAuditRaises || prepared.escaping { return None; }
    report := Some(RunReport(status, outcome, artifact, blocked, warnings));
  }

  class Runner {
    const lib: Intent.Library
    const boundary: Boundary

    constructor (lib: Intent.Library, boundary: Boundary)
      ensures this.lib == lib && this.boundary == boundary
    {
      this.lib, this.boundary := lib, boundary;
    }

    /** run_guarded from the creation of its workspace on; None when an exception leaves it. */
    method RunGuarded(run: Run) returns (report: Option<RunReport>)
      requires boundary.Backed()
      modifies boundary, boundary.target
      ensures boundary.Backed()
      // The trusted repository changes only for a run that clears every check.
      ensures boundary.target.repo != old(boundary.target.repo) ==> Clears(lib, run) && Arrives(run)
      ensures Lands(lib, boundary.target.g, old(boundary.target.repo), run) ==>
                boundary.target.g.patched(run.patch.text, old(boundary.target.repo).work) ==
                    Some(boundary.target.repo.work)
      // APPLIED is reported exactly when the patch landed and nothing raised afterwards.
      ensures report.Some? && report.value.outcome == Some(Applied) <==>
                Lands(lib, boundary.target.g, old(boundary.target.repo), run) && Concludes(run)
      // A failing audit write after the apply turns the report into APPLY_FAILED; the patch stays.
      ensures report.Some? && Lands(lib, boundary.target.g, old(boundary.target.repo), run) && run.finalAuditRaises ==>
                report.value.outcome == Some(ApplyFailed) && report.value.status in {Failed, CleanupFailed}
      ensures report.Some? && report.value.status == Completed ==>
                report.value.outcome == Some(Applied) || report.value.outcome == Some(NotGenerated)
      ensures report.Some? && report.value.outcome == Some(PendingApproval) ==>
                && CommandSucceeded(run.command)
                && run.around.artifactId in boundary.artifacts
                && report.value.artifact == Some(run.around.artifactId)
      // A command that did not succeed leads to nothing, unless reporting it fails.
      ensures report.Some? && run.sessionCreated && !CommandSucceeded(run.command) ==>
                report.value.outcome == Some(if run.finalAuditRaises then ApplyFailed else NotApplied)
      // Every refusal says why.
      ensures report.Some? && report.value.status !in {Completed, CleanupFailed} ==>
                report.value.blocked.Some? && Reason(report.value.blocked.value) in report.value.warnings
    {
      if !run.sessionCreated {
        return Some(RunReport(Blocked, None, None, Some(SessionFailed), [Reason(SessionFailed)]));
      }
      var prepared := Prepare(lib, run);
      if prepared.None? { return None; }
      ToldClears(lib, run, prepared.value.submission);
      var ending := boundary.Finalize(prepared.value.submission, run.around);
      report := Conclude(run, prepared.value, ending);
    }
  }
}
