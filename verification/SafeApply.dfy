/** Automatic apply: which patches need no approval, and the apply itself with its verification and rollback. */
module SafeApply {
  import opened Prelude
  import opened GitModel
  import opened ChangeRisk

  // ---------------------------------------------------------------- files that may go without approval

  predicate DocsOrTestsCode(code: string) {
    code == "documentation-change" || code == "test-change"
  }

  predicate DocsOrTests(file: FileRisk) {
    && file.level == Low
    && file.reasons != []
    && forall k :: 0 <= k < |file.reasons| ==> DocsOrTestsCode(file.reasons[k].code)
  }

  function ModeSet(mode: Option<string>): set<string> {
    if mode.Some? && mode.value != "" then {mode.value} else {}
  }

  function Modes(file: FileRisk): set<string> {
    ModeSet(file.oldMode) + ModeSet(file.newMode)
  }

  /** _unsafe_mode_skip_reason. */
  function ModeSkip(file: FileRisk): Option<string> {
    if "120000" in Modes(file) then Some("symlink-mode")
    else if "100755" in Modes(file) then Some("executable-mode")
    else if file.modeChanged then Some("mode-change")
    else if Modes(file) - {"100644"} != {} then Some("unsupported-file-mode")
    else None
  }

  /** A regular, non-executable file before and after. */
  predicate PlainMode(file: FileRisk) {
    !file.modeChanged && Modes(file) <= {"100644"}
  }

  lemma PlainModeExactly(file: FileRisk)
    ensures ModeSkip(file).None? <==> PlainMode(file)
  {
    assert "120000" != "100644" && "100755" != "100644" by {
      assert "120000"[1] != "100644"[1] && "100755"[3] != "100644"[3];
    }
  }

  // ---------------------------------------------------------------- reasons to skip

  datatype SkipReason = SkipReason(code: string, path: Option<string>)

  predicate LimitCode(code: string) {
    "large-diff-" <= code || "hard-diff-" <= code
  }

  predicate FileSkips(file: FileRisk, r: SkipReason) {
    && r.path == Some(file.path)
    && (|| (!DocsOrTests(file) && r.code == "not-docs-or-tests-only")
        || (file.binary && r.code == "binary-file-change")
        || ModeSkip(file) == Some(r.code))
  }

  predicate PatchSkips(patch: PatchDiff, report: Report, blocked: bool, r: SkipReason) {
    && r.path == None
    && (|| (blocked && r.code == "blocked-by-change-gate")
        || (patch.fileCount == 0 && r.code == "empty-patch")
        || (patch.ignoredCount != 0 && r.code == "ignored-workspace-changes")
        || (Overall(report) != Low && r.code == "not-low-risk"))
  }

  predicate LimitSkips(reasons: seq<Reason>, r: SkipReason) {
    r.path == None && LimitCode(r.code) && exists k :: 0 <= k < |reasons| && reasons[k].code == r.code
  }

  predicate SomeFileSkips(files: seq<FileRisk>, r: SkipReason) {
    exists k :: 0 <= k < |files| && FileSkips(files[k], r)
  }

  predicate Skips(patch: PatchDiff, report: Report, blocked: bool, r: SkipReason) {
    PatchSkips(patch, report, blocked, r) || LimitSkips(report.reasons, r) || SomeFileSkips(report.files, r)
  }

  predicate PlainFile(file: FileRisk) {
    DocsOrTests(file) && !file.binary && PlainMode(file)
  }

  predicate PlainFiles(files: seq<FileRisk>) {
    forall k :: 0 <= k < |files| ==> PlainFile(files[k])
  }

  predicate WithinLimits(reasons: seq<Reason>) {
    forall k :: 0 <= k < |reasons| ==> !LimitCode(reasons[k].code)
  }

  predicate Eligible(patch: PatchDiff, report: Report, blocked: bool) {
    && !blocked
    && patch.fileCount != 0 && patch.ignoredCount == 0
    && Overall(report) == Low
    && WithinLimits(report.reasons)
    && PlainFiles(report.files)
  }

  lemma FileSkipsNothing(file: FileRisk)
    ensures PlainFile(file) <==> forall r :: !FileSkips(file, r)
  {
    PlainModeExactly(file);
    if !DocsOrTests(file) { assert FileSkips(file, SkipReason("not-docs-or-tests-only", Some(file.path))); }
    if file.binary { assert FileSkips(file, SkipReason("binary-file-change", Some(file.path))); }
    if ModeSkip(file).Some? { assert FileSkips(file, SkipReason(ModeSkip(file).value, Some(file.path))); }
  }

  lemma FilesSkipNothing(files: seq<FileRisk>)
    ensures PlainFiles(files) <==> forall r :: !SomeFileSkips(files, r)
  {
    forall k | 0 <= k < |files| ensures PlainFile(files[k]) <==> forall r :: !FileSkips(files[k], r) {
      FileSkipsNothing(files[k]);
    }
    if k :| 0 <= k < |files| && !PlainFile(files[k]) {
      var r :| FileSkips(files[k], r);
      assert SomeFileSkips(files, r);
    }
  }

  lemma LimitsSkipNothing(reasons: seq<Reason>)
    ensures WithinLimits(reasons) <==> forall r :: !LimitSkips(reasons, r)
  {
    if k :| 0 <= k < |reasons| && LimitCode(reasons[k].code) {
      assert LimitSkips(reasons, SkipReason(reasons[k].code, None));
    }
  }

  lemma PatchSkipsNothing(patch: PatchDiff, report: Report, blocked: bool)
    ensures !blocked && patch.fileCount != 0 && patch.ignoredCount == 0 && Overall(report) == Low <==>
            forall r :: !PatchSkips(patch, report, blocked, r)
  {
    if blocked { assert PatchSkips(patch, report, blocked, SkipReason("blocked-by-change-gate", None)); }
    if patch.fileCount == 0 { assert PatchSkips(patch, report, blocked, SkipReason("empty-patch", None)); }
    if patch.ignoredCount != 0 { assert PatchSkips(patch, report, blocked,
        SkipReason("ignored-workspace-changes", None)); }
    if Overall(report) != Low { assert PatchSkips(patch, report, blocked, SkipReason("not-low-risk", None)); }
  }

  /** No reason to skip is left exactly for an eligible patch. */
  lemma EligibleExactly(patch: PatchDiff, report: Report, blocked: bool)
    ensures Eligible(patch, report, blocked) <==> forall r :: !Skips(patch, report, blocked, r)
  {
    PatchSkipsNothing(patch, report, blocked);
    LimitsSkipNothing(report.reasons);
    FilesSkipNothing(report.files);
    if !(forall r :: !PatchSkips(patch, report, blocked, r)) {
      var r :| PatchSkips(patch, report, blocked, r);
      assert Skips(patch, report, blocked, r);
    }
    if !(forall r :: !LimitSkips(report.reasons, r)) {
      var r :| LimitSkips(report.reasons, r);
      assert Skips(patch, report, blocked, r);
    }
    if !(forall r :: !SomeFileSkips(report.files, r)) {
      var r :| SomeFileSkips(report.files, r);
      assert Skips(patch, report, blocked, r);
    }
  }

  /** The first of each reason, in order. */
  function FirstOnes(reasons: seq<SkipReason>): seq<SkipReason> {
    if reasons == [] then []
    else
      var before, last := FirstOnes(reasons[..|reasons| - 1]), reasons[|reasons| - 1];
      if last in before then before else before + [last]
  }

  method DedupeReasons(reasons: seq<SkipReason>) returns (deduped: seq<SkipReason>)
    ensures deduped == FirstOnes(reasons)
    ensures forall r :: r in deduped <==> r in reasons
    ensures forall i, j :: 0 <= i < j < |deduped| ==> deduped[i] != deduped[j]
  {
    deduped := [];
    for i := 0 to |reasons|
      invariant deduped == FirstOnes(reasons[..i])
      invariant forall r :: r in deduped <==> r in reasons[..i]
      invariant forall i, j :: 0 <= i < j < |deduped| ==> deduped[i] != deduped[j]
    {
      assert reasons[..i + 1] == reasons[..i] + [reasons[i]];
      if reasons[i] !in deduped {
        deduped := deduped + [reasons[i]];
      }
    }
    assert reasons[..|reasons|] == reasons;
  }

  method FileSkipReasons(file: FileRisk) returns (reasons: seq<SkipReason>)
    ensures forall r :: r in reasons <==> FileSkips(file, r)
  {
    reasons := [];
    if !DocsOrTests(file) {
      reasons := reasons + [SkipReason("not-docs-or-tests-only", Some(file.path))];
    }
    if file.binary {
      reasons := reasons + [SkipReason("binary-file-change", Some(file.path))];
    }
    if ModeSkip(file).Some? {
      reasons := reasons + [SkipReason(ModeSkip(file).value, Some(file.path))];
    }
  }

  method PatchSkipReasons(patch: PatchDiff, report: Report, blocked: bool) returns (reasons: seq<SkipReason>)
    ensures forall r :: r in reasons <==> PatchSkips(patch, report, blocked, r)
  {
    reasons := [];
    if blocked {
      reasons := reasons + [SkipReason("blocked-by-change-gate", None)];
    }
    if patch.fileCount == 0 {
      reasons := reasons + [SkipReason("empty-patch", None)];
    }
    if patch.ignoredCount != 0 {
      reasons := reasons + [SkipReason("ignored-workspace-changes", None)];
    }
    if Overall(report) != Low {
      reasons := reasons + [SkipReason("not-low-risk", None)];
    }
  }

  method LimitSkipReasons(given: seq<Reason>) returns (reasons: seq<SkipReason>)
    ensures forall r :: r in reasons <==> LimitSkips(given, r)
  {
    reasons := [];
    for i := 0 to |given|
      invariant forall r :: r in reasons <==> LimitSkips(given[..i], r)
    {
      ghost var before := reasons;
      if LimitCode(given[i].code) {
        reasons := reasons + [SkipReason(given[i].code, None)];
      }
      forall r ensures r in reasons <==> LimitSkips(given[..i + 1], r) {
        assert LimitSkips(given[..i], r) ==> LimitSkips(given[..i + 1], r) by {
          if k :| 0 <= k < i && given[..i][k].code == r.code { assert given[..i + 1][k].code == r.code; }
        }
        assert given[..i + 1][i] == given[i];
      }
    }
    assert given[..|given|] == given;
  }

  method FilesSkipReasons(files: seq<FileRisk>) returns (reasons: seq<SkipReason>)
    ensures forall r :: r in reasons <==> SomeFileSkips(files, r)
  {
    reasons := [];
    for i := 0 to |files|
      invariant forall r :: r in reasons <==> exists k :: 0 <= k < i && FileSkips(files[k], r)
    {
      var more := FileSkipReasons(files[i]);
      reasons := reasons + more;
    }
  }

  /** _auto_apply_skip_reasons: exactly the reasons there are, each once; none for an eligible patch. */
  method AutoApplySkipReasons(patch: PatchDiff, report: Report, blocked: bool) returns (reasons: seq<SkipReason>)
    ensures forall r :: r in reasons <==> Skips(patch, report, blocked, r)
    ensures reasons == [] <==> Eligible(patch, report, blocked)
    ensures forall i, j :: 0 <= i < j < |reasons| ==> reasons[i] != reasons[j]
  {
    var general := PatchSkipReasons(patch, report, blocked);
    var limits := LimitSkipReasons(report.reasons);
    var files := FilesSkipReasons(report.files);
    reasons := DedupeReasons(general + limits + files);
    assert forall r :: r in reasons <==> Skips(patch, report, blocked, r);
    EligibleExactly(patch, report, blocked);
    assert reasons != [] ==> reasons[0] in reasons;
  }

  // ---------------------------------------------------------------- the apply

  datatype Logger = NoLogger | Writes | Raises

  /** What the call finds around it: argument checks, the re-derived diff, the logger, and `git apply --reverse`. */
  datatype Conditions = Conditions(isRepository: bool, pathsSafe: bool, intact: bool, reproduced: bool, logger: Logger,
                                   undone: Option<string>)

  datatype Attempt = Applied | Skipped(reasons: seq<SkipReason>) | Refused | RolledBack | RollbackFailed

  /** The checks before anything is decided about the patch. */
  predicate Admitted(g: Git, repo: Repo, patch: PatchDiff, c: Conditions) {
    c.isRepository && c.pathsSafe && Clean(g, repo) && c.intact && repo.head == patch.baseline
  }

  /** The whole condition under which an automatic apply succeeds. */
  predicate Succeeds(g: Git, repo: Repo, patch: PatchDiff, report: Report, blocked: bool, c: Conditions) {
    && Admitted(g, repo, patch, c)
    && Eligible(patch, report, blocked)
    && g.patched(patch.text, repo.work).Some?
    && c.reproduced && c.logger != Raises
  }

  class Target {
    const g: Git
    var repo: Repo
    var log: seq<string>

    constructor (g: Git, repo: Repo)
      ensures this.g == g && this.repo == repo && log == []
    {
      this.g, this.repo, this.log := g, repo, [];
    }

    /** _rollback_after_failed_apply: true when the error it raises reports a safe rollback. */
    method RollBack(baseline: string, undone: Option<string>) returns (restored: bool)
      modifies this`repo
      ensures restored ==> Clean(g, repo) && repo.head == baseline
      ensures repo.head == old(repo).head
    {
      if undone.None? { return false; }
      repo := repo.(work := undone.value);
      restored := repo.head == baseline && Clean(g, repo);
    }

    /**
      auto_apply_safe_patch: applied exactly when everything holds; otherwise untouched, unless the rollback itself
      fails.
    */
    method AutoApply(patch: PatchDiff, report: Report, blocked: bool, c: Conditions) returns (attempt: Attempt)
      modifies this
      ensures attempt.Applied? <==> Succeeds(g, old(repo), patch, report, blocked, c)
      ensures attempt.Skipped? <==> Admitted(g, old(repo), patch, c) && !Eligible(patch, report, blocked)
      ensures attempt.Applied? ==> g.patched(patch.text, old(repo).work) == Some(repo.work)
      ensures log == if attempt.Applied? && c.logger == Writes then old(log) + [patch.digest] else old(log)
      ensures repo.head == old(repo).head
      ensures repo != old(repo) ==> Eligible(patch, report, blocked)
      ensures attempt.Skipped? || attempt.Refused? || attempt.RolledBack? ==> repo == old(repo)
    {
      if !c.isRepository || !c.pathsSafe || !Clean(g, repo) || !c.intact || repo.head != patch.baseline {
        return Refused;
      }
      var reasons := AutoApplySkipReasons(patch, report, blocked);
      if reasons != [] { return Skipped(reasons); }
      match g.patched(patch.text, repo.work) {
        case None => return Refused;
        case Some(work) => repo := repo.(work := work);
      }
      if c.reproduced && c.logger != Raises {
        if c.logger == Writes {
          log := log + [patch.digest];
        }
        return Applied;
      }
      var restored := RollBack(patch.baseline, c.undone);
      attempt := if restored then RolledBack else RollbackFailed;
    }
  }
}
