/**
  The report of a guarded run. The patch is classified, each file's human context is weighed, with the Rust
  kernel's judgement where the file is not LOW, and the patch is classified again with the reasons found.
*/
module GuardedRisk {
  import opened Prelude
  import opened ChangeRisk
  import Text

  /** What collecting a file's context gives: whether the file carries a lock marker, or an error. */
  datatype Context = Collected(locked: bool) | Uncollectable

  datatype Answer = Unavailable | Fails | Allows | Objects

  /** The kernel's judgement of a path at a system risk. */
  type Kernel = (string, Option<RiskLevel>) -> Answer

  datatype Patch = Patch(diffs: seq<FileDiff>, contexts: seq<Context>, others: seq<Reason>)

  /** Everything Rust says: the shadows of the first and of the second classification, and the kernel's answers. */
  datatype Rust = Rust(first: seq<CriticalityShadow>, second: seq<CriticalityShadow>, kernel: Kernel)

  predicate Fits(p: Patch, rust: Rust) {
    |p.diffs| == |p.contexts| == |rust.first| == |rust.second|
  }

  // ---------------------------------------------------------------- the subjective layer

  const LOCK_REASON: Reason := Reason("subjective-human-context-risk", Critical)
  const OBJECTION: Reason := Reason("subjective-human-context-risk", High)
  const COLLECTION_FAILED: Reason := Reason("subjective-risk-collection-failed", High)

  /** The level a dictionary by path gives: the last file's of that path. */
  function LevelAt(files: seq<FileRisk>, path: string): Option<RiskLevel> {
    if files == [] then None
    else if files[|files| - 1].path == path then Some(files[|files| - 1].level)
    else LevelAt(files[..|files| - 1], path)
  }

  datatype Inspection = Quiet | Adds(reason: Reason) | Aborts

  /** One round of the loop. */
  function Inspect(kernel: Kernel, path: string, context: Context, level: Option<RiskLevel>): Inspection {
    match context
    case Uncollectable => Aborts
    case Collected(true) => Adds(LOCK_REASON)
    case Collected(false) =>
      if level == Some(Low) then Quiet
      else
        match kernel(path, level)
        case Unavailable => Quiet
        case Fails => Aborts
        case Allows => Quiet
        case Objects => Adds(OBJECTION)
  }

  function Round(p: Patch, kernel: Kernel, files: seq<FileRisk>, k: nat): Inspection
    requires k < |p.diffs| == |p.contexts|
  {
    Inspect(kernel, p.diffs[k].path, p.contexts[k], LevelAt(files, p.diffs[k].path))
  }

  /** The reasons of the first n files; None when the loop raises. */
  function Subjective(p: Patch, kernel: Kernel, files: seq<FileRisk>, n: nat): Option<seq<Reason>>
    requires n <= |p.diffs| == |p.contexts|
  {
    if n == 0 then Some([])
    else
      match Subjective(p, kernel, files, n - 1)
      case None => None
      case Some(reasons) =>
        match Round(p, kernel, files, n - 1)
        case Quiet => Some(reasons)
        case Adds(reason) => Some(reasons + [reason])
        case Aborts => None
  }

  /** collect_subjective_patch_reasons: one failure anywhere and every reason found is gone. */
  method CollectSubjectivePatchReasons(p: Patch, kernel: Kernel, files: seq<FileRisk>)
      returns (found: Option<seq<Reason>>)
    requires |p.diffs| == |p.contexts|
    ensures found == Subjective(p, kernel, files, |p.diffs|)
    ensures found == None <==> exists k :: 0 <= k < |p.diffs| && Round(p, kernel, files, k) == Aborts
  {
    RaisesExactly(p, kernel, files, |p.diffs|);
    var reasons := [];
    for i := 0 to |p.diffs|
      invariant Subjective(p, kernel, files, i) == Some(reasons)
    {
      match Round(p, kernel, files, i)
      case Quiet =>
      case Adds(reason) => reasons := reasons + [reason];
      case Aborts =>
        assert Subjective(p, kernel, files, i + 1) == None;
        RaisesExactly(p, kernel, files, i + 1);
        return None;
    }
    return Some(reasons);
  }

  lemma {:induction false} RaisesExactly(p: Patch, kernel: Kernel, files: seq<FileRisk>, n: nat)
    requires n <= |p.diffs| == |p.contexts|
    ensures Subjective(p, kernel, files, n) == None <==> exists k :: 0 <= k < n && Round(p, kernel, files, k) == Aborts
  {
    if n > 0 {
      RaisesExactly(p, kernel, files, n - 1);
    }
  }

  // ---------------------------------------------------------------- the report

  function FirstReport(p: Patch, rust: Rust): Report
    requires Fits(p, rust)
  {
    ClassifyPatch(p.diffs, rust.first, [], p.others)
  }

  /** _collect_subjective_validation_reasons. */
  function Validation(p: Patch, rust: Rust): seq<Reason>
    requires Fits(p, rust)
  {
    match Subjective(p, rust.kernel, FirstReport(p, rust).files, |p.diffs|)
    case None => [COLLECTION_FAILED]
    case Some(reasons) => reasons
  }

  /** The report of classify_and_decide_patch. */
  function GuardedReport(p: Patch, rust: Rust): Report
    requires Fits(p, rust)
  {
    if Validation(p, rust) == [] then FirstReport(p, rust)
    else ClassifyPatch(p.diffs, rust.second, Validation(p, rust), p.others)
  }

  lemma GuardedConsistently(p: Patch, rust: Rust)
    requires Fits(p, rust)
    ensures AllConsistent(GuardedReport(p, rust))
  {
    ClassifiedConsistently(p.diffs, rust.first, [], p.others);
    ClassifiedConsistently(p.diffs, rust.second, Validation(p, rust), p.others);
  }

  // ---------------------------------------------------------------- what is blocked

  /** The classifier has a CRITICAL reason of its own. */
  predicate Deterministic(p: Patch) {
    AnyCritical(p.others) || exists k :: 0 <= k < |p.diffs| && AnyCritical(ClassifyFile(p.diffs[k]).reasons)
  }

  predicate SomeLocked(p: Patch) {
    exists k :: 0 <= k < |p.contexts| && p.contexts[k] == Collected(true)
  }

  /** A file whose context cannot be collected, or an unlocked file above LOW on which the kernel fails. */
  predicate FailsAt(p: Patch, rust: Rust, k: nat)
    requires Fits(p, rust) && k < |p.diffs|
  {
    var level := LevelAt(FirstReport(p, rust).files, p.diffs[k].path);
    || p.contexts[k] == Uncollectable
    || (p.contexts[k] == Collected(false) && level != Some(Low) && rust.kernel(p.diffs[k].path, level) == Fails)
  }

  predicate CollectionFails(p: Patch, rust: Rust)
    requires Fits(p, rust)
  {
    exists k :: 0 <= k < |p.diffs| && FailsAt(p, rust, k)
  }

  lemma {:induction false} CriticalsFound(p: Patch, kernel: Kernel, files: seq<FileRisk>, n: nat)
    requires n <= |p.diffs| == |p.contexts| && Subjective(p, kernel, files, n).Some?
    ensures var reasons := Subjective(p, kernel, files, n).value;
            && (AnyCritical(reasons) <==> exists k :: 0 <= k < n && p.contexts[k] == Collected(true))
            && forall r :: r in reasons ==> r == LOCK_REASON || r == OBJECTION
  {
    if n > 0 {
      CriticalsFound(p, kernel, files, n - 1);
      var reasons := Subjective(p, kernel, files, n - 1).value;
      match Round(p, kernel, files, n - 1)
      case Quiet =>
      case Adds(reason) =>
        CriticalsConcat(reasons, [reason]);
        assert AnyCritical([reason]) <==> [reason][0].level == Critical;
      case Aborts =>
    }
  }

  lemma CriticalsConcat(a: seq<Reason>, b: seq<Reason>)
    ensures AnyCritical(a + b) <==> AnyCritical(a) || AnyCritical(b)
  {
    if k :| 0 <= k < |a| && a[k].level == Critical {
      assert (a + b)[k].level == Critical;
    }
    if k :| 0 <= k < |b| && b[k].level == Critical {
      assert (a + b)[|a| + k].level == Critical;
    }
  }

  lemma FailureIsAbort(p: Patch, rust: Rust)
    requires Fits(p, rust)
    ensures Subjective(p, rust.kernel, FirstReport(p, rust).files, |p.diffs|) == None <==> CollectionFails(p, rust)
  {
    var files := FirstReport(p, rust).files;
    RaisesExactly(p, rust.kernel, files, |p.diffs|);
    forall k | 0 <= k < |p.diffs| ensures Round(p, rust.kernel, files, k) == Aborts <==> FailsAt(p, rust, k) {}
  }

  /**
    The layer adds a CRITICAL reason only for a lock marker, and never after a failure; a failure adds one HIGH
    reason.
  */
  lemma ValidationExactly(p: Patch, rust: Rust)
    requires Fits(p, rust)
    ensures AnyCritical(Validation(p, rust)) <==> SomeLocked(p) && !CollectionFails(p, rust)
    ensures CollectionFails(p, rust) ==> Validation(p, rust) == [COLLECTION_FAILED]
    ensures forall r :: r in Validation(p, rust) && r.level == Critical ==> r == LOCK_REASON
  {
    FailureIsAbort(p, rust);
    if !CollectionFails(p, rust) {
      CriticalsFound(p, rust.kernel, FirstReport(p, rust).files, |p.diffs|);
    }
  }

  /** The CRITICAL reasons of a classified patch: the validation's and the classifier's own. */
  lemma ClassifiedCritical(p: Patch, shadows: seq<CriticalityShadow>, validation: seq<Reason>)
    requires |p.diffs| == |shadows|
    ensures Blocked(ClassifyPatch(p.diffs, shadows, validation, p.others)) <==>
        Deterministic(p) || AnyCritical(validation)
  {
    var r := ClassifyPatch(p.diffs, shadows, validation, p.others);
    SomeNamed(r);
    CriticalsConcat(validation, p.others);
    forall k | 0 <= k < |p.diffs|
      ensures AnyCritical(r.files[k].reasons) <==> AnyCritical(ClassifyFile(p.diffs[k]).reasons)
    {
      AttachedCritical(ClassifyFile(p.diffs[k]), shadows[k]);
    }
  }

  /**
    A guarded patch is blocked exactly for a CRITICAL reason of the classifier, or a lock marker while nothing fails.
  */
  lemma GuardedBlocksExactly(p: Patch, rust: Rust)
    requires Fits(p, rust)
    ensures Blocked(GuardedReport(p, rust)) <==> Deterministic(p) || (SomeLocked(p) && !CollectionFails(p, rust))
  {
    ValidationExactly(p, rust);
    ClassifiedCritical(p, rust.first, []);
    ClassifiedCritical(p, rust.second, Validation(p, rust));
  }

  // ---------------------------------------------------------------- what Rust can do about it

  /** The same run without the Rust extension. */
  function Silent(shadow: CriticalityShadow): CriticalityShadow {
    CriticalityShadow(false, None, None, shadow.invalidBypass)
  }

  function Without(rust: Rust): Rust {
    Rust(seq(|rust.first|, i requires 0 <= i < |rust.first| => Silent(rust.first[i])),
         seq(|rust.second|, i requires 0 <= i < |rust.second| => Silent(rust.second[i])),
         (path, level) => Unavailable)
  }

  /** Rust never blocks a patch that would pass without it; it unblocks exactly the locked ones on which it fails. */
  lemma RustNeverBlocks(p: Patch, rust: Rust)
    requires Fits(p, rust)
    ensures Blocked(GuardedReport(p, rust)) <==>
            Blocked(GuardedReport(p, Without(rust))) && (Deterministic(p) || !CollectionFails(p, rust))
  {
    GuardedBlocksExactly(p, rust);
    GuardedBlocksExactly(p, Without(rust));
    if k :| 0 <= k < |p.diffs| && FailsAt(p, Without(rust), k) {
      assert p.contexts[k] == Uncollectable;
      assert FailsAt(p, rust, k);
    }
  }

  /**
    Two outcomes of the Rust analysis block alike exactly when something else is CRITICAL, nothing is locked, or both
    or neither fail.
  */
  lemma RustDecidesExactly(p: Patch, one: Rust, other: Rust)
    requires Fits(p, one) && Fits(p, other)
    ensures (Blocked(GuardedReport(p, one)) <==> Blocked(GuardedReport(p, other))) <==>
            Deterministic(p) || !SomeLocked(p) || (CollectionFails(p, one) <==> CollectionFails(p, other))
  {
    GuardedBlocksExactly(p, one);
    GuardedBlocksExactly(p, other);
  }

  /** A lock marker never goes unseen: the patch is blocked, or at least HIGH. So does a failure. */
  lemma LockedIsHigh(p: Patch, rust: Rust)
    requires Fits(p, rust) && (SomeLocked(p) || CollectionFails(p, rust))
    ensures Order(Overall(GuardedReport(p, rust))) >= Order(High)
  {
    var r := GuardedReport(p, rust);
    if CollectionFails(p, rust) {
      ValidationExactly(p, rust);
      assert r.reasons[0] == COLLECTION_FAILED;
      HighestConcat(FileLevels(r.files), LevelsOf(r.reasons));
      HighestIsHighest(LevelsOf(r.reasons));
      assert LevelsOf(r.reasons)[0] == High;
    } else {
      GuardedBlocksExactly(p, rust);
      GuardedConsistently(p, rust);
      BlockedIsCritical(r);
    }
  }

  // ---------------------------------------------------------------- it happens

  /** An unlocked file first, a locked one second, neither with a CRITICAL reason. */
  predicate LockedBehind(a: FileDiff, b: FileDiff) {
    a.path != b.path && !AnyCritical(ClassifyFile(a).reasons) && !AnyCritical(ClassifyFile(b).reasons)
  }

  function Two(a: FileDiff, b: FileDiff): Patch {
    Patch([a, b], [Collected(false), Collected(true)], [])
  }

  /** A kernel that fails on whatever it is asked. */
  function Failing(shadow: CriticalityShadow): Rust {
    Rust([shadow, Silent(shadow)], [shadow, Silent(shadow)], (path, level) => Fails)
  }

  lemma FirstLevels(a: FileDiff, b: FileDiff, shadow: CriticalityShadow)
    requires LockedBehind(a, b)
    ensures LevelAt(FirstReport(Two(a, b), Failing(shadow)).files, a.path) ==
        Some(Attach(ClassifyFile(a), shadow).level)
  {
    var files := FirstReport(Two(a, b), Failing(shadow)).files;
    assert files == [Attach(ClassifyFile(a), shadow), Attach(ClassifyFile(b), Silent(shadow))];
    assert files[..1] == [Attach(ClassifyFile(a), shadow)];
  }

  /**
    With a failing kernel the lock holds exactly while the other file is LOW, after the Rust signal: nobody asks about
    it.
  */
  lemma LockHoldsWhileLow(a: FileDiff, b: FileDiff, shadow: CriticalityShadow)
    requires LockedBehind(a, b)
    ensures Blocked(GuardedReport(Two(a, b), Failing(shadow))) <==> Attach(ClassifyFile(a), shadow).level == Low
  {
    GuardedBlocksExactly(Two(a, b), Failing(shadow));
    assert Two(a, b).contexts[1] == Collected(true);
    TwoUndecided(a, b);
    FirstFails(a, b, shadow);
  }

  lemma TwoUndecided(a: FileDiff, b: FileDiff)
    requires LockedBehind(a, b)
    ensures !Deterministic(Two(a, b))
  {}

  lemma FirstFails(a: FileDiff, b: FileDiff, shadow: CriticalityShadow)
    requires LockedBehind(a, b)
    ensures CollectionFails(Two(a, b), Failing(shadow)) <==> Attach(ClassifyFile(a), shadow).level != Low
  {
    FirstLevels(a, b, shadow);
    var p, rust := Two(a, b), Failing(shadow);
    assert FailsAt(p, rust, 0) <==> Attach(ClassifyFile(a), shadow).level != Low;
    assert !FailsAt(p, rust, 1);
  }

  /**
    A LOW file and a locked one: blocked without the Rust signal on the first, and with the signal only sent to
    approval.
  */
  lemma SignalUnblocks(a: FileDiff, b: FileDiff, loud: CriticalityShadow)
    requires LockedBehind(a, b) && ClassifyFile(a).level == Low && Signals(ClassifyFile(a), loud)
    ensures Blocked(GuardedReport(Two(a, b), Failing(Silent(loud).(invalidBypass := false))))
    ensures !Blocked(GuardedReport(Two(a, b), Failing(loud)))
    ensures Overall(GuardedReport(Two(a, b), Failing(loud))) == High
  {
    var quiet := Silent(loud).(invalidBypass := false);
    LockHoldsWhileLow(a, b, quiet);
    LockHoldsWhileLow(a, b, loud);
    AttachExactly(ClassifyFile(a), quiet);
    AttachExactly(ClassifyFile(a), loud);
    var p, rust := Two(a, b), Failing(loud);
    assert p.contexts[1] == Collected(true);
    LockedIsHigh(p, rust);
    GuardedConsistently(p, rust);
    BlockedIsCritical(GuardedReport(p, rust));
  }

  /** Such a file and such a signal. */
  lemma SignalUnblocksReadme()
    ensures var docs := Reason("documentation-change", Low);
            var a := FileDiff("README.md", false, None, None, false, [docs], docs);
            var b := FileDiff("NOTES.md", false, None, None, false, [docs], docs);
            var loud := CriticalityShadow(true, Some(9.0), Some("high"), false);
            && Blocked(GuardedReport(Two(a, b), Failing(Silent(loud))))
            && !Blocked(GuardedReport(Two(a, b), Failing(loud)))
  {
    var docs := Reason("documentation-change", Low);
    var a := FileDiff("README.md", false, None, None, false, [docs], docs);
    var b := FileDiff("NOTES.md", false, None, None, false, [docs], docs);
    var loud := CriticalityShadow(true, Some(9.0), Some("high"), false);
    assert LevelsOf([docs]) == [Low];
    HighestIsUnique([Low], Low);
    assert a.path[0] != b.path[0];
    TrimNothingHigh();
    SignalUnblocks(a, b, loud);
  }

  lemma SolidEnds()
    ensures !Text.PythonSpace('h')
  {}

  lemma LowerHigh()
    ensures Text.Lower("high") == "high"
  {}

  lemma TrimNothingHigh()
    ensures Enforced("high")
  {
    SolidEnds();
    Text.TrimNothing("high", Text.PythonSpace);
    LowerHigh();
  }
}
