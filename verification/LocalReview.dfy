/**
  The local review store over whole runs. Persist, decide and apply each hold the store's lock, so each
  is one step; each may crash at any of its writes, leaving what was written so far. Between them
  anything may happen to the repository.
*/
module LocalReview {
  import opened Prelude
  import opened Text
  import opened GitModel
  import opened LocalDecision

  /** A file: absent, present but unreadable (torn by a crash), or readable. */
  datatype File<+T> = Absent | Torn | Readable(value: T)

  /** summary.json, which carries neither decision nor application. */
  datatype Summary = Summary(runId: string, baseline: string, patchSha: string, patchDigest: string, approval: Approval)

  datatype RunDir = RunDir(summary: File<Summary>, patch: Option<string>, decision: File<DecisionRecord>,
      applied: File<()>)

  const EMPTY_DIR := RunDir(Absent, None, Absent, Absent)

  type Store = map<string, RunDir>

  /** What the environment computes: directory names, receipts, file digests, git. */
  datatype World = World(dirOf: string -> string, receipt: Hash, sha: string -> string, git: Git)

  function DirAt(store: Store, dir: string): RunDir {
    if dir in store then store[dir] else EMPTY_DIR
  }

  /** A run's directory as the listing loads it; None when the listing skips it. */
  function Load(store: Store, dir: string): Option<Review> {
    var d := DirAt(store, dir);
    match d.summary
    case Readable(s) =>
      Some(Review(s.runId, s.baseline, s.patchSha, s.patchDigest, s.approval,
                  if d.decision.Readable? then Some(d.decision.value) else None,
                  d.decision.Torn?, d.applied.Readable?))
    case _ => None
  }

  // ---------------------------------------------------------------- commands

  /** A finished guarded run, with the raw patch if one was generated. */
  datatype Completed = Completed(runId: string, baseline: string, patchSha: string, generated: bool, raw: string,
      approval: Approval)

  datatype PersistCrash = NoPersistCrash | PatchTorn(partial: string) | BeforeSummary | SummaryTorn

  datatype DecideCrash = NoDecideCrash | DecisionTorn

  datatype ApplyCrash = NoApplyCrash | BeforeRecord | RecordTorn

  datatype Step =
    | Persist(run: Completed, persistCrash: PersistCrash)
    | DecideRun(dir: string, authority: Authority, options: Options, decideCrash: DecideCrash)
    | ApplyRun(dir: string, yes: bool, applyCrash: ApplyCrash)
    | Outside(repo: Repo)

  datatype State = State(store: Store, repo: Repo)

  function PersistIn(w: World, d: RunDir, run: Completed, crash: PersistCrash): RunDir {
    var writesPatch := run.generated && run.raw != "";
    var patch := if !writesPatch then d.patch
                 else if crash.PatchTorn? then Some(crash.partial)
                 else Some(run.raw);
    var digest := if writesPatch then w.sha(run.raw) else "";
    var summary := Summary(run.runId, run.baseline, run.patchSha, digest, run.approval);
    match crash
    case PatchTorn(_) => d.(patch := patch)
    case BeforeSummary => d.(patch := patch)
    case SummaryTorn => d.(patch := patch, summary := Torn)
    case NoPersistCrash => d.(patch := patch, summary := Readable(summary))
  }

  /** The record a decide command writes on this directory, if it gets that far; the file is created exclusively. */
  function Written(w: World, s: State, dir: string, authority: Authority, options: Options): Option<DecisionRecord> {
    match Load(s.store, dir)
    case None => None
    case Some(review) =>
      match Decide(w.receipt, authority, review, options)
      case Err(_) => None
      case Ok(d) => if DirAt(s.store, w.dirOf(review.runId)).decision.Absent? then Some(d) else None
  }

  /** assertPatchDigestMatches. */
  predicate DigestMatches(w: World, review: Review, patch: string) {
    && (review.patchSha == "" || w.sha(patch) == review.patchSha)
    && (review.patchDigest == "" || w.sha(patch) == review.patchDigest)
  }

  /** The working tree an apply command produces, if every check passes. */
  function Produced(w: World, s: State, dir: string, yes: bool): Option<string> {
    if !yes then None
    else match Load(s.store, dir)
      case None => None
      case Some(review) =>
        var patch := DirAt(s.store, dir).patch;
        if ApplyRefused(w.receipt, review).Some? || patch.None? || Trim(patch.value, RustSpace) == ""
           || !DigestMatches(w, review, patch.value)
           || !DirAt(s.store, w.dirOf(review.runId)).applied.Absent?
           || (review.baseline != "" && s.repo.head != review.baseline)
           || !Clean(w.git, s.repo)
        then None
        else w.git.patched(patch.value, s.repo.work)
  }

  function WithDecision(s: State, dir: string, file: File<DecisionRecord>): State {
    s.(store := s.store[dir := DirAt(s.store, dir).(decision := file)])
  }

  /** What a step does, given the record its decide command writes or the tree its apply command produces. */
  function Effect(w: World, s: State, step: Step, written: Option<DecisionRecord>, produced: Option<string>): State
    requires step.ApplyRun? && produced.Some? ==> Load(s.store, step.dir).Some?
  {
    match step
    case Persist(run, crash) =>
      var dir := w.dirOf(run.runId);
      s.(store := s.store[dir := PersistIn(w, DirAt(s.store, dir), run, crash)])
    case DecideRun(_, _, _, crash) =>
      (match written
       case None => s
       case Some(d) => WithDecision(s, w.dirOf(d.runId), if crash.DecisionTorn? then Torn else Readable(d)))
    case ApplyRun(dir, _, crash) =>
      (match produced
       case None => s
       case Some(work) =>
         var target := w.dirOf(Load(s.store, dir).value.runId);
         var file := match crash case NoApplyCrash => Readable(()) case BeforeRecord => Absent case RecordTorn => Torn;
         State(s.store[target := DirAt(s.store, target).(applied := file)], s.repo.(work := work)))
    case Outside(repo) => s.(repo := repo)
  }

  function WrittenBy(w: World, s: State, step: Step): Option<DecisionRecord> {
    if step.DecideRun? then Written(w, s, step.dir, step.authority, step.options) else None
  }

  function ProducedBy(w: World, s: State, step: Step): (work: Option<string>)
    ensures work.Some? ==> step.ApplyRun? && Load(s.store, step.dir).Some?
  {
    if step.ApplyRun? then Produced(w, s, step.dir, step.yes) else None
  }

  function Next(w: World, s: State, step: Step): State {
    Effect(w, s, step, WrittenBy(w, s, step), ProducedBy(w, s, step))
  }

  predicate IsRun(w: World, states: seq<State>, steps: seq<Step>) {
    && |states| == |steps| + 1
    && states[0].store == map[]
    && forall i :: 0 <= i < |steps| ==> states[i + 1] == Next(w, states[i], steps[i])
  }

  /** Step n applies the patch of the run in `dir`. */
  predicate Applies(w: World, states: seq<State>, steps: seq<Step>, n: nat, dir: string)
    requires |states| == |steps| + 1 && n < |steps|
  {
    steps[n].ApplyRun? && steps[n].dir == dir && Produced(w, states[n], dir, steps[n].yes).Some?
  }

  // ---------------------------------------------------------------- what every step keeps

  /** A summary lies in the directory named after its run. */
  predicate Placed(w: World, store: Store) {
    forall dir :: dir in store && store[dir].summary.Readable? ==> w.dirOf(store[dir].summary.value.runId) == dir
  }

  lemma PlacedKept(w: World, s: State, step: Step, written: Option<DecisionRecord>, produced: Option<string>)
    requires step.ApplyRun? && produced.Some? ==> Load(s.store, step.dir).Some?
    requires Placed(w, s.store)
    ensures Placed(w, Effect(w, s, step, written, produced).store)
  {}

  lemma {:induction false} PlacedThroughout(w: World, states: seq<State>, steps: seq<Step>, n: nat)
    requires IsRun(w, states, steps) && n <= |steps|
    ensures Placed(w, states[n].store)
  {
    if n > 0 {
      PlacedThroughout(w, states, steps, n - 1);
      assert states[n] == Next(w, states[n - 1], steps[n - 1]);
      PlacedKept(w, states[n - 1], steps[n - 1], WrittenBy(w, states[n - 1], steps[n - 1]),
          ProducedBy(w, states[n - 1], steps[n - 1]));
    }
  }

  /** Between two states no decision or apply file this directory had has changed. */
  predicate SameFiles(s: State, s': State, dir: string) {
    var d, d' := DirAt(s.store, dir), DirAt(s'.store, dir);
    && (!d.decision.Absent? ==> d'.decision == d.decision)
    && (!d.applied.Absent? ==> d'.applied == d.applied)
  }

  lemma WrittenIsNew(w: World, s: State, step: Step, d: DecisionRecord)
    requires WrittenBy(w, s, step) == Some(d)
    ensures DirAt(s.store, w.dirOf(d.runId)).decision.Absent?
  {
    WrittenRecordBinds(w.receipt, step.authority, Load(s.store, step.dir).value, step.options, d);
  }

  lemma ProducedIsNew(w: World, s: State, step: Step)
    requires ProducedBy(w, s, step).Some?
    ensures DirAt(s.store, w.dirOf(Load(s.store, step.dir).value.runId)).applied.Absent?
  {}

  lemma EffectKeepsFiles(w: World, s: State, step: Step, written: Option<DecisionRecord>, produced: Option<string>,
      dir: string)
    requires step.ApplyRun? && produced.Some? ==>
               && Load(s.store, step.dir).Some?
               && DirAt(s.store, w.dirOf(Load(s.store, step.dir).value.runId)).applied.Absent?
    requires written.Some? ==> DirAt(s.store, w.dirOf(written.value.runId)).decision.Absent?
    ensures SameFiles(s, Effect(w, s, step, written, produced), dir)
    ensures var d, d' := DirAt(s.store, dir).decision, DirAt(Effect(w, s, step, written, produced).store, dir).decision;
            d'.Readable? && d' != d ==> step.DecideRun? && written == Some(d'.value)
  {}

  /** Decision and apply files, once there, are never changed; decisions come only from the decide command. */
  lemma FilesKept(w: World, s: State, step: Step, dir: string)
    ensures SameFiles(s, Next(w, s, step), dir)
    ensures var d, d' := DirAt(s.store, dir).decision, DirAt(Next(w, s, step).store, dir).decision;
            d'.Readable? && d' != d ==> step.DecideRun? && WrittenBy(w, s, step) == Some(d'.value)
  {
    var written, produced := WrittenBy(w, s, step), ProducedBy(w, s, step);
    if written.Some? {
      WrittenIsNew(w, s, step, written.value);
    }
    if produced.Some? {
      ProducedIsNew(w, s, step);
    }
    EffectKeepsFiles(w, s, step, written, produced, dir);
  }

  lemma {:induction false} ChainKeepsFiles(states: seq<State>, m: nat, n: nat, dir: string)
    requires m <= n < |states| && forall i :: 0 <= i < |states| - 1 ==> SameFiles(states[i], states[i + 1], dir)
    ensures SameFiles(states[m], states[n], dir)
  {
    if m < n {
      ChainKeepsFiles(states, m, n - 1, dir);
      assert SameFiles(states[n - 1], states[n - 1 + 1], dir);
    }
  }

  lemma FilesAreFinal(w: World, states: seq<State>, steps: seq<Step>, m: nat, n: nat, dir: string)
    requires IsRun(w, states, steps) && m <= n <= |steps|
    ensures SameFiles(states[m], states[n], dir)
  {
    forall i | 0 <= i < |states| - 1 ensures SameFiles(states[i], states[i + 1], dir) {
      FilesKept(w, states[i], steps[i], dir);
      assert states[i + 1] == Next(w, states[i], steps[i]);
    }
    ChainKeepsFiles(states, m, n, dir);
  }

  /** The last change before n. */
  lemma {:induction false} LastChange<T>(xs: seq<T>, n: nat) returns (m: nat)
    requires n < |xs| && xs[0] != xs[n]
    ensures m < n && xs[m] != xs[m + 1] == xs[n]
  {
    if xs[n - 1] == xs[n] {
      m := LastChange(xs, n - 1);
    } else {
      m := n - 1;
    }
  }

  /** Every decision on disk was written by an earlier decide step. */
  lemma DecisionHasOrigin(w: World, states: seq<State>, steps: seq<Step>, n: nat, dir: string)
    returns (m: nat)
    requires IsRun(w, states, steps) && n <= |steps|
    requires DirAt(states[n].store, dir).decision.Readable?
    ensures m < n && steps[m].DecideRun?
    ensures var step := steps[m];
            Written(w, states[m], step.dir, step.authority, step.options) ==
                Some(DirAt(states[n].store, dir).decision.value)
  {
    var decisions := seq(|states|, i requires 0 <= i < |states| => DirAt(states[i].store, dir).decision);
    assert decisions[0].Absent?;
    m := LastChange(decisions, n);
    FilesKept(w, states[m], steps[m], dir);
    assert states[m + 1] == Next(w, states[m], steps[m]);
    assert decisions[m + 1] == decisions[n];
  }

  // ---------------------------------------------------------------- main results

  /** What the decide command saw and was told when it wrote an approval of this run, digest and baseline. */
  ghost predicate ApprovedEarlier(w: World, states: seq<State>, steps: seq<Step>, n: nat, review: Review)
    requires |states| == |steps| + 1 && n <= |steps|
  {
    exists m :: 0 <= m < n && steps[m].DecideRun? && steps[m].options.status == Approved && steps[m].options.yes
      && Load(states[m].store, steps[m].dir).Some?
      && var seen := Load(states[m].store, steps[m].dir).value;
         seen.runId == review.runId && seen.patchSha == review.patchSha && seen.baseline == review.baseline
  }

  /**
    A run that requires approval, with a digest and a baseline, is applied only after someone explicitly
    approved this run with this digest and baseline; and the bytes applied have that digest.
  */
  lemma AppliedOnlyAsApproved(w: World, states: seq<State>, steps: seq<Step>, n: nat, dir: string)
    requires IsRun(w, states, steps) && n < |steps| && Applies(w, states, steps, n, dir)
    requires var review := Load(states[n].store, dir).value;
             review.approval.required && review.patchSha != "" && review.baseline != ""
    ensures var review := Load(states[n].store, dir).value;
            && ApprovedEarlier(w, states, steps, n, review)
            && w.sha(DirAt(states[n].store, dir).patch.value) == review.patchSha
            && states[n].repo.head == review.baseline
            && DirAt(states[n].store, dir).decision.Readable?
            && var d := DirAt(states[n].store, dir).decision.value;
            && d.status == Approved && d.runId == review.runId
            && d.patchSha == review.patchSha && d.baseline == review.baseline
            && d.approvalId == review.approval.approvalId
  {
    var review := Load(states[n].store, dir).value;
    ProducedFacts(w, states[n], dir, steps[n].yes);
    LoadedDecision(states[n].store, dir);
    AllowedFacts(w.receipt, review);
    var d := review.decision.value;
    var m := DecisionHasOrigin(w, states, steps, n, dir);
    DecidedFrom(w, states[m], steps[m], d);
    var seen := Load(states[m].store, steps[m].dir).value;
    assert seen.runId == review.runId && seen.patchSha == review.patchSha && seen.baseline == review.baseline;
    assert ApprovedEarlier(w, states, steps, n, review);
  }

  /** What an apply that gets through has checked. */
  lemma ProducedFacts(w: World, s: State, dir: string, yes: bool)
    requires Produced(w, s, dir, yes).Some?
    ensures Load(s.store, dir).Some? && DirAt(s.store, dir).patch.Some?
    ensures var review := Load(s.store, dir).value;
            && ApplyRefused(w.receipt, review).None?
            && DigestMatches(w, review, DirAt(s.store, dir).patch.value)
            && (review.baseline != "" ==> s.repo.head == review.baseline)
  {}

  lemma LoadedDecision(store: Store, dir: string)
    requires Load(store, dir).Some?
    ensures var d := Load(store, dir).value.decision;
            d.Some? ==> DirAt(store, dir).decision.Readable? && DirAt(store, dir).decision.value == d.value
  {}

  /** A run that requires approval and may be applied has an approval bound to it. */
  lemma AllowedFacts(h: Hash, review: Review)
    requires ApplyRefused(h, review).None? && review.approval.required && review.patchSha != "" && review.baseline != ""
    ensures review.decision.Some? && review.decision.value.status == Approved && BoundTo(review, review.decision.value)
    ensures review.decision.value.schema == Version2 ==> review.decision.value.approvalId == review.approval.approvalId
  {
    BoundChecks(review, review.decision.value);
  }

  lemma DecidedFrom(w: World, s: State, step: Step, d: DecisionRecord)
    requires step.DecideRun? && Written(w, s, step.dir, step.authority, step.options) == Some(d)
    ensures Load(s.store, step.dir).Some?
    ensures var seen := Load(s.store, step.dir).value;
            && d.schema == Version2 && d.status == step.options.status && d.runId == seen.runId
            && d.patchSha == seen.patchSha && d.baseline == seen.baseline
            && (step.options.status == Approved ==> step.options.yes)
  {
    WrittenRecordBinds(w.receipt, step.authority, Load(s.store, step.dir).value, step.options, d);
  }

  /** The review of a run just persisted in an empty directory. */
  function Fresh(w: World, run: Completed): Review {
    Review(run.runId, run.baseline, run.patchSha, if run.generated && run.raw != "" then w.sha(run.raw)
        else "", run.approval,
           None, false, false)
  }

  lemma PersistedLoads(w: World, s: State, run: Completed)
    requires DirAt(s.store, w.dirOf(run.runId)) == EMPTY_DIR && run.generated && run.raw != ""
    ensures var s' := Next(w, s, Persist(run, NoPersistCrash));
            && Load(s'.store, w.dirOf(run.runId)) == Some(Fresh(w, run))
            && DirAt(s'.store, w.dirOf(run.runId)).patch == Some(run.raw)
            && DirAt(s'.store, w.dirOf(run.runId)).decision.Absent?
            && DirAt(s'.store, w.dirOf(run.runId)).applied.Absent?
            && s'.repo == s.repo
  {}

  lemma WithDecisionLoads(s: State, dir: string, d: DecisionRecord)
    requires Load(s.store, dir).Some?
    ensures var s' := WithDecision(s, dir, Readable(d));
            && Load(s'.store, dir) == Some(Load(s.store, dir).value.(decision := Some(d), decisionCorrupt := false))
            && DirAt(s'.store, dir) == DirAt(s.store, dir).(decision := Readable(d))
            && s'.repo == s.repo
  {}

  lemma Writes(w: World, s: State, dir: string, review: Review, authority: Authority, options: Options,
      d: DecisionRecord)
    requires Load(s.store, dir) == Some(review) && w.dirOf(review.runId) == dir && DirAt(s.store, dir).decision.Absent?
    requires Decide(w.receipt, authority, review, options) == Ok(d)
    ensures Written(w, s, dir, authority, options) == Some(d)
  {}

  lemma NextDecides(w: World, s: State, dir: string, authority: Authority, options: Options, crash: DecideCrash)
    ensures Next(w, s, DecideRun(dir, authority, options, crash)) ==
            match Written(w, s, dir, authority, options)
            case None => s
            case Some(d) => WithDecision(s, w.dirOf(d.runId), if crash.DecisionTorn? then Torn else Readable(d))
  {}

  lemma Produces(w: World, s: State, dir: string, review: Review, patch: string)
    requires Load(s.store, dir) == Some(review) && w.dirOf(review.runId) == dir
    requires DirAt(s.store, dir).patch == Some(patch) && DirAt(s.store, dir).applied.Absent?
    requires ApplyRefused(w.receipt, review).None? && Trim(patch, RustSpace) != "" && DigestMatches(w, review, patch)
    requires s.repo.head == review.baseline && Clean(w.git, s.repo)
    ensures Produced(w, s, dir, true) == w.git.patched(patch, s.repo.work)
  {}

  /**
    A run persisted, approved, alone or with the shared authority, and applied undisturbed: apply writes the run's
    patch.
  */
  lemma ApprovedRunApplies(w: World, s: State, run: Completed, authority: Authority, options: Options)
    requires DirAt(s.store, w.dirOf(run.runId)) == EMPTY_DIR && run.generated && Trim(run.raw, RustSpace) != ""
    requires run.patchSha == w.sha(run.raw) != "" && run.baseline == s.repo.head != "" && Clean(w.git, s.repo)
    requires run.approval.required ==> run.approval.approvalId != "" && run.approval.target == run.patchSha
    requires options.status == Approved && options.yes && options.version != "" && forall p :: w.receipt(p) != ""
    requires Synchronize(authority, Fresh(w, run), Draft(Fresh(w, run), options)).Ok?
    ensures var dir := w.dirOf(run.runId);
            var persisted := Next(w, s, Persist(run, NoPersistCrash));
            var decided := Next(w, persisted, DecideRun(dir, authority, options, NoDecideCrash));
            Produced(w, decided, dir, true) == w.git.patched(run.raw, s.repo.work)
  {
    var dir := w.dirOf(run.runId);
    assert run.raw != "";
    PersistedLoads(w, s, run);
    var persisted := Next(w, s, Persist(run, NoPersistCrash));
    var review := Fresh(w, run);
    FreshDecides(w, run, authority, options);
    var d := Decide(w.receipt, authority, review, options).value;
    Writes(w, persisted, dir, review, authority, options, d);
    NextDecides(w, persisted, dir, authority, options, NoDecideCrash);
    WithDecisionLoads(persisted, dir, d);
    Produces(w, WithDecision(persisted, dir, Readable(d)), dir, review.(decision := Some(d)), run.raw);
  }

  lemma FreshDecides(w: World, run: Completed, authority: Authority, options: Options)
    requires run.generated && run.raw != "" && run.patchSha == w.sha(run.raw) != "" && run.baseline != ""
    requires run.approval.required ==> run.approval.approvalId != "" && run.approval.target == run.patchSha
    requires options.status == Approved && options.yes && options.version != "" && forall p :: w.receipt(p) != ""
    requires Synchronize(authority, Fresh(w, run), Draft(Fresh(w, run), options)).Ok?
    ensures var r := Decide(w.receipt, authority, Fresh(w, run), options);
            && r.Ok? && r.value.runId == run.runId
            && ApplyRefused(w.receipt, Fresh(w, run).(decision := Some(r.value))).None?
            && DigestMatches(w, Fresh(w, run).(decision := Some(r.value)), run.raw)
  {
    var review := Fresh(w, run);
    FreshUnrefused(w, run, options);
    DecideSeals(w.receipt, authority, review, options, Synchronize(authority, review, Draft(review, options)).value);
    var d := Decide(w.receipt, authority, review, options).value;
    WrittenRecordBinds(w.receipt, authority, review, options, d);
    assert d.receipt == w.receipt(Payload(d));
    WrittenRecordAccepted(w.receipt, authority, review, options, d);
  }

  lemma FreshUnrefused(w: World, run: Completed, options: Options)
    requires run.generated && run.raw != "" && run.patchSha == w.sha(run.raw) != "" && run.baseline != ""
    requires run.approval.required ==> run.approval.approvalId != "" && run.approval.target == run.patchSha
    requires options.status == Approved && options.yes
    ensures Refused(Fresh(w, run), options).None?
  {}

  /** Once a rejection is on disk, no apply of that run ever succeeds. */
  lemma RejectionIsFinal(w: World, states: seq<State>, steps: seq<Step>, m: nat, n: nat, dir: string)
    requires IsRun(w, states, steps) && m <= n < |steps|
    requires var f := DirAt(states[m].store, dir).decision; f.Readable? && f.value.status == Rejected
    ensures !Applies(w, states, steps, n, dir)
  {
    FilesAreFinal(w, states, steps, m, n, dir);
  }

  predicate CleanAt(w: World, repo: Repo, baseline: string) {
    repo.head == baseline && Clean(w.git, repo)
  }

  /** Somebody outside brought the repository back to a clean baseline between states m and n. */
  ghost predicate ResetOutside(w: World, states: seq<State>, steps: seq<Step>, m: nat, n: nat, baseline: string)
    requires |states| == |steps| + 1 && m <= n <= |steps|
  {
    exists k :: m <= k < n && steps[k].Outside?
      && !CleanAt(w, states[k].repo, baseline) && CleanAt(w, states[k + 1].repo, baseline)
  }

  /** No command moves HEAD, and none applies to a tree that is not clean, so none cleans one. */
  lemma OnlyOutsideResets(w: World, s: State, step: Step, baseline: string)
    requires !CleanAt(w, s.repo, baseline) && CleanAt(w, Next(w, s, step).repo, baseline)
    ensures step.Outside?
  {}

  lemma {:induction false} ResetFound(w: World, states: seq<State>, steps: seq<Step>, m: nat, n: nat, baseline: string)
    requires IsRun(w, states, steps) && m <= n <= |steps|
    requires !CleanAt(w, states[m].repo, baseline) && CleanAt(w, states[n].repo, baseline)
    ensures ResetOutside(w, states, steps, m, n, baseline)
  {
    if CleanAt(w, states[n - 1].repo, baseline) {
      ResetFound(w, states, steps, m, n - 1, baseline);
    } else {
      assert states[n] == Next(w, states[n - 1], steps[n - 1]);
      OnlyOutsideResets(w, states[n - 1], steps[n - 1], baseline);
    }
  }

  /**
    Two applies at one baseline, of one run or of two: somebody outside reset the repository in between,
    unless the first patch changed nothing. Of one run, moreover, the first apply crashed before recording.
  */
  lemma SecondApplyNeedsReset(w: World, states: seq<State>, steps: seq<Step>, m: nat, n: nat, dir: string, dir': string)
    requires IsRun(w, states, steps) && m < n < |steps|
    requires Applies(w, states, steps, m, dir) && Applies(w, states, steps, n, dir')
    requires Load(states[m].store, dir).value.baseline == Load(states[n].store, dir').value.baseline != ""
    ensures Produced(w, states[m], dir, steps[m].yes) == Some(states[m].repo.work)
            || ResetOutside(w, states, steps, m + 1, n, Load(states[m].store, dir).value.baseline)
    ensures dir == dir' ==> steps[m].applyCrash.BeforeRecord?
  {
    var baseline := Load(states[m].store, dir).value.baseline;
    assert states[m + 1] == Next(w, states[m], steps[m]);
    if Produced(w, states[m], dir, steps[m].yes) != Some(states[m].repo.work) {
      ResetFound(w, states, steps, m + 1, n, baseline);
    }
    PlacedThroughout(w, states, steps, m);
    PlacedThroughout(w, states, steps, n);
    FilesAreFinal(w, states, steps, m + 1, n, dir);
  }
}
