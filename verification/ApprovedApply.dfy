/**
  Applying an approved patch to the trusted repository, as interleaved atomic steps.

  One call runs the checks, scans the durable log, reserves the approval, runs `git apply` and
  records the application. Any number of calls run in one process; the process can crash between
  any two steps; anything else may happen to the repository at any time.
*/
module ApprovedApply {
  import opened Prelude
  import opened ApprovalModel
  import opened GitModel
  import Text

  // ---------------------------------------------------------------- what one call is given

  /** Results of checks that read nothing but the call's arguments. */
  datatype Assessment = Assessment(pathsSafe: bool, gateBlocked: bool, approvalRequired: bool,
                                   expired: bool, receiptValid: bool)

  datatype Call = Call(request: Request, decision: Decision, patch: PatchDiff, assessment: Assessment,
                       logger: Option<nat>)

  datatype Key = Key(approvalId: string, digest: string, baseline: string)

  function KeyOf(call: Call): Key {
    Key(call.request.approvalId, call.patch.digest, call.patch.baseline)
  }

  datatype Refusal =
    | UnsafePaths | Blocked | ApprovalNotRequired | BadTransition | WrongApproval
    | RequestDigest | DecisionDigest | RequestBaseline | DecisionBaseline | Expired | NotGranted | BadReceipt
    | WrongTool | WrongAction | WrongPolicy
    | NotClean | NotAtBaseline | NoLogger | AlreadyUsed | DoesNotApply

  const SUPPORTED_POLICIES: set<string> := {
    "guarded-workspace-risky-patch-approval",
    "guarded-workspace-intent-approval",
    "guarded-workspace-non-auto-apply-approval",
    "guarded-workspace-explicit-approval"
  }

  /** assert_patch_approval_granted, in its order. */
  function GrantRefusal(call: Call): Option<Refusal> {
    var r, d, p := call.request, call.decision, call.patch;
    if !TransitionAllowed(Pending, d.status) then Some(BadTransition)
    else if r.approvalId != d.approvalId then Some(WrongApproval)
    else if r.target != Some(p.digest) then Some(RequestDigest)
    else if d.metadata.patchDigest != Some(p.digest) then Some(DecisionDigest)
    else if r.baseline != Some(p.baseline) then Some(RequestBaseline)
    else if d.metadata.baseline != Some(p.baseline) then Some(DecisionBaseline)
    else if call.assessment.expired then Some(Expired)
    else if d.status != Approved || !d.approved then Some(NotGranted)
    else if !call.assessment.receiptValid then Some(BadReceipt)
    else None
  }

  /** Every check made before the repository is looked at, in order. */
  function Admission(call: Call): Option<Refusal> {
    var r := call.request;
    if !call.assessment.pathsSafe then Some(UnsafePaths)
    else if call.assessment.gateBlocked then Some(Blocked)
    else if !call.assessment.approvalRequired && !r.forcedApproval then Some(ApprovalNotRequired)
    else if GrantRefusal(call).Some? then GrantRefusal(call)
    else if r.toolName != "guarded_workspace" then Some(WrongTool)
    else if r.action != Some("approve_patch_apply") then Some(WrongAction)
    else if r.policyId.None? || r.policyId.value !in SUPPORTED_POLICIES then Some(WrongPolicy)
    else None
  }

  /** One approval covers this call: a granted decision and a request bound to one digest and baseline. */
  predicate Granted(call: Call) {
    && call.decision.status == Approved && call.decision.approved
    && call.decision.approvalId == call.request.approvalId
    && Some(call.patch.digest) == call.request.target == call.decision.metadata.patchDigest
    && Some(call.patch.baseline) == call.request.baseline == call.decision.metadata.baseline
    && !call.assessment.expired && call.assessment.receiptValid
    && call.assessment.pathsSafe && !call.assessment.gateBlocked
  }

  /** The request asks to apply a guarded patch, under one of the known policies. */
  predicate ForPatchApply(r: Request) {
    r.toolName == "guarded_workspace" && r.action == Some("approve_patch_apply")
    && r.policyId.Some? && r.policyId.value in SUPPORTED_POLICIES
  }

  /** Admission, exactly: a grant for this patch, of a request for this purpose, where approval is called for. */
  lemma AdmittedExactly(call: Call)
    ensures Admission(call).None? <==>
            && Granted(call) && ForPatchApply(call.request)
            && (call.assessment.approvalRequired || call.request.forcedApproval)
  {}

  // ---------------------------------------------------------------- the repository

  predicate AtBaseline(repo: Repo, baseline: string) {
    Text.Lower(repo.head) == Text.Lower(baseline)
  }

  // ---------------------------------------------------------------- the machine

  datatype Phase = Started | CleanSeen | BaselineSeen | LogScanned | Reserved | Checked | Written | Finished | Raised

  datatype Thread = Thread(call: Call, phase: Phase)

  /** The applications each logger's store holds; a logger without one has recorded nothing. */
  type Logs = map<nat, seq<Key>>

  function LogOf(logs: Logs, logger: nat): seq<Key> {
    if logger in logs then logs[logger] else []
  }

  function Recorded(logs: Logs, logger: nat, key: Key): Logs {
    logs[logger := LogOf(logs, logger) + [key]]
  }

  /** The scan a call makes: of the logger it was given, and of no other. */
  predicate Unrecorded(logs: Logs, call: Call) {
    call.logger.Some? && KeyOf(call) !in LogOf(logs, call.logger.value)
  }

  /** `used` and `threads` live in the process; `logs` and `repo` are durable. */
  datatype State = State(threads: map<nat, Thread>, used: set<Key>, logs: Logs, repo: Repo)

  datatype Step =
    | Spawn(t: nat, call: Call)
    | SeeClean(t: nat)
    | SeeBaseline(t: nat)
    | ScanLog(t: nat)
    | Reserve(t: nat)
    | CheckApplies(t: nat)
    | Apply(t: nat)
    | Record(t: nat)
    | RecordRaises(t: nat)
    | Raise(t: nat)
    | Interrupt(t: nat)
    | Crash
    | Outside(repo: Repo)

  function Move(s: State, t: nat, phase: Phase): State
    requires t in s.threads
  {
    s.(threads := s.threads[t := s.threads[t].(phase := phase)])
  }

  predicate InPhase(s: State, t: nat, phase: Phase) {
    t in s.threads && s.threads[t].phase == phase
  }

  /** One atomic step, or None where it cannot happen. */
  function Next(g: Git, s: State, step: Step): Option<State> {
    match step
    case Spawn(t, call) =>
      if t in s.threads || Admission(call).Some? then None
      else Some(s.(threads := s.threads[t := Thread(call, Started)]))
    case SeeClean(t) =>
      if InPhase(s, t, Started) && Clean(g, s.repo) then Some(Move(s, t, CleanSeen)) else None
    case SeeBaseline(t) =>
      if InPhase(s, t, CleanSeen) && AtBaseline(s.repo, s.threads[t].call.patch.baseline)
      then Some(Move(s, t, BaselineSeen)) else None
    case ScanLog(t) =>
      if InPhase(s, t, BaselineSeen) && Unrecorded(s.logs, s.threads[t].call)
      then Some(Move(s, t, LogScanned)) else None
    case Reserve(t) =>
      if InPhase(s, t, LogScanned) && KeyOf(s.threads[t].call) !in s.used
      then Some(Move(s, t, Reserved).(used := s.used + {KeyOf(s.threads[t].call)})) else None
    case CheckApplies(t) =>
      if InPhase(s, t, Reserved) && g.patched(s.threads[t].call.patch.text, s.repo.work).Some?
      then Some(Move(s, t, Checked)) else None
    case Apply(t) =>
      if !InPhase(s, t, Checked) then None
      else (
        match g.patched(s.threads[t].call.patch.text, s.repo.work)
        case None => None
        case Some(work) =>
          Some(Move(s, t, Written).(repo := s.repo.(work := work))))
    case Record(t) =>
      if InPhase(s, t, Written) && s.threads[t].call.logger.Some?
      then Some(Move(s, t, Finished).(logs := RecordedBy(s.logs, s.threads[t].call))) else None
    case RecordRaises(t) =>
      if InPhase(s, t, Written) then Some(Move(s, t, Finished)) else None
    case Raise(t) =>
      // An exception before the reservation changes nothing; while git runs, it releases the key.
      if t !in s.threads then None
      else if s.threads[t].phase in {Started, CleanSeen, BaselineSeen, LogScanned} then Some(Move(s, t, Raised))
      else if s.threads[t].phase in {Reserved, Checked}
      then Some(Move(s, t, Raised).(used := s.used - {KeyOf(s.threads[t].call)}))
      else None
    case Interrupt(t) =>
      // What is no Exception, such as a keyboard interrupt, ends the call and leaves the key reserved.
      if t in s.threads && s.threads[t].phase !in {Written, Finished, Raised} then Some(Move(s, t, Raised)) else None
    case Crash => Some(s.(threads := map[], used := {}))
    case Outside(repo) => Some(s.(repo := repo))
  }

  function RecordedBy(logs: Logs, call: Call): Logs
    requires call.logger.Some?
  {
    Recorded(logs, call.logger.value, KeyOf(call))
  }

  predicate Initial(s: State) {
    s.threads == map[] && s.used == {} && s.logs == map[]
  }

  /** A run: one state more than steps, each step taking one state to the next. */
  predicate IsRun(g: Git, states: seq<State>, steps: seq<Step>) {
    && |states| == |steps| + 1
    && Initial(states[0])
    && forall i :: 0 <= i < |steps| ==> Next(g, states[i], steps[i]) == Some(states[i + 1])
  }

  predicate ActsOn(s: State, t: nat, key: Key) {
    t in s.threads && KeyOf(s.threads[t].call) == key
  }

  /** Step n writes the patch of this key to the repository. */
  predicate WritesKey(states: seq<State>, steps: seq<Step>, n: nat, key: Key)
    requires |states| == |steps| + 1 && n < |steps|
  {
    steps[n].Apply? && ActsOn(states[n], steps[n].t, key)
  }

  // ---------------------------------------------------------------- one thread at a time

  /** Where thread t stands with the key, if it works on that key at all. */
  function PhaseOf(s: State, t: nat, key: Key): Option<Phase> {
    if ActsOn(s, t, key) then Some(s.threads[t].phase) else None
  }

  predicate Applying(p: Option<Phase>) {
    p == Some(Reserved) || p == Some(Checked)
  }

  predicate Holding(p: Option<Phase>) {
    Applying(p) || p == Some(Written) || p == Some(Finished)
  }

  predicate Early(p: Option<Phase>) {
    p == None || p == Some(Started) || p == Some(CleanSeen) || p == Some(Raised)
  }

  function Actor(step: Step): Option<nat> {
    match step
    case Crash => None
    case Outside(_) => None
    case Spawn(t, _) => Some(t)
    case SeeClean(t) => Some(t)
    case SeeBaseline(t) => Some(t)
    case ScanLog(t) => Some(t)
    case Reserve(t) => Some(t)
    case CheckApplies(t) => Some(t)
    case Apply(t) => Some(t)
    case Record(t) => Some(t)
    case RecordRaises(t) => Some(t)
    case Raise(t) => Some(t)
    case Interrupt(t) => Some(t)
  }

  /** A step leaves every thread but its own where it was; a crash ends them all. */
  lemma Frame(g: Git, s: State, step: Step, s': State, key: Key, t: nat)
    requires Next(g, s, step) == Some(s')
    ensures PhaseOf(s', t, key) ==
            if step.Crash? then None
            else if Actor(step) != Some(t) then PhaseOf(s, t, key)
            else if step.Spawn? then if KeyOf(step.call) == key then Some(Started) else None
            else if ActsOn(s, t, key) then Some(s'.threads[t].phase) else None
  {}

  // ---------------------------------------------------------------- the reservation

  /** Whoever holds the key has it in `used`, and only one thread holds it. */
  ghost predicate HoldsReservation(s: State, key: Key) {
    && (forall t: nat :: Holding(PhaseOf(s, t, key)) ==> key in s.used)
    && (forall t: nat, u: nat :: Holding(PhaseOf(s, t, key)) && Holding(PhaseOf(s, u, key)) ==> t == u)
  }

  /** Whoever holds the key afterwards held it before, or just took it from nobody. */
  lemma HolderKept(g: Git, s: State, step: Step, s': State, key: Key, t: nat)
    requires HoldsReservation(s, key) && Next(g, s, step) == Some(s') && Holding(PhaseOf(s', t, key))
    ensures !step.Crash? && (Holding(PhaseOf(s, t, key)) || (step == Reserve(t) && key !in s.used))
    ensures step.Raise? ==> step.t != t
  {
    Frame(g, s, step, s', key, t);
  }

  lemma UsedKept(g: Git, s: State, step: Step, s': State, key: Key, t: nat)
    requires HoldsReservation(s, key) && Next(g, s, step) == Some(s') && Holding(PhaseOf(s', t, key))
    ensures key in s'.used
  {
    HolderKept(g, s, step, s', key, t);
    if step.Raise? {
      assert step.t != t && !Holding(PhaseOf(s, step.t, key));
    }
  }

  lemma ReservationKept(g: Git, s: State, step: Step, s': State, key: Key)
    requires HoldsReservation(s, key) && Next(g, s, step) == Some(s')
    ensures HoldsReservation(s', key)
  {
    forall t: nat | Holding(PhaseOf(s', t, key)) ensures key in s'.used {
      UsedKept(g, s, step, s', key, t);
    }
    forall t: nat, u: nat | Holding(PhaseOf(s', t, key)) && Holding(PhaseOf(s', u, key)) ensures t == u {
      HolderKept(g, s, step, s', key, t);
      HolderKept(g, s, step, s', key, u);
    }
  }

  lemma {:induction false} ReservationHolds(g: Git, states: seq<State>, steps: seq<Step>, n: nat, key: Key)
    requires IsRun(g, states, steps) && n <= |steps|
    ensures HoldsReservation(states[n], key)
  {
    if n > 0 {
      ReservationHolds(g, states, steps, n - 1, key);
      ReservationKept(g, states[n - 1], steps[n - 1], states[n], key);
    }
  }

  // ---------------------------------------------------------------- the durable log

  /** Where thread t stands with the key, if it works on that key through this logger. */
  function PhaseThrough(s: State, t: nat, logger: nat, key: Key): Option<Phase> {
    if ActsOn(s, t, key) && s.threads[t].call.logger == Some(logger) then Some(s.threads[t].phase) else None
  }

  lemma FrameThrough(g: Git, s: State, step: Step, s': State, logger: nat, key: Key, t: nat)
    requires Next(g, s, step) == Some(s')
    ensures PhaseThrough(s', t, logger, key) ==
            if step.Crash? then None
            else if Actor(step) != Some(t) then PhaseThrough(s, t, logger, key)
            else if step.Spawn? then
              if KeyOf(step.call) == key && step.call.logger == Some(logger) then Some(Started) else None
            else if PhaseThrough(s, t, logger, key).Some? then Some(s'.threads[t].phase) else None
  {}

  /** Nobody can apply the key before a crash: it is reserved, and nobody is left to give it back. */
  ghost predicate Spent(s: State, key: Key) {
    key in s.used && forall t: nat :: !Applying(PhaseOf(s, t, key))
  }

  predicate Scanned(p: Option<Phase>) {
    p == Some(LogScanned) || Applying(p)
  }

  /** A recorded key is spent, or no call on it through this logger is past the scan. */
  ghost predicate LogCloses(s: State, logger: nat, key: Key) {
    key in LogOf(s.logs, logger) ==>
      Spent(s, key) || forall t: nat :: !Scanned(PhaseThrough(s, t, logger, key))
  }

  lemma SpentKept(g: Git, s: State, step: Step, s': State, key: Key)
    requires Spent(s, key) && Next(g, s, step) == Some(s') && !step.Crash?
    ensures Spent(s', key)
  {
    forall t: nat ensures !Applying(PhaseOf(s', t, key)) {
      Frame(g, s, step, s', key, t);
      assert !Applying(PhaseOf(s, t, key));
    }
    if step.Raise? {
      assert !Applying(PhaseOf(s, step.t, key));
    }
  }

  /** Recording spends the key, whoever records it. */
  lemma RecordingSpends(g: Git, s: State, t: nat, s': State, key: Key)
    requires HoldsReservation(s, key) && Next(g, s, Record(t)) == Some(s') && ActsOn(s, t, key)
    ensures Spent(s', key)
  {
    assert Holding(PhaseOf(s, t, key));
    forall u: nat ensures !Applying(PhaseOf(s', u, key)) {
      Frame(g, s, Record(t), s', key, u);
      assert Applying(PhaseOf(s, u, key)) ==> u == t;
    }
  }

  /** What is new in a log was recorded by this very step. */
  lemma LogChanges(g: Git, s: State, step: Step, s': State, logger: nat, key: Key)
    requires Next(g, s, step) == Some(s')
    ensures LogOf(s.logs, logger) <= LogOf(s'.logs, logger)
    ensures key in LogOf(s'.logs, logger) && key !in LogOf(s.logs, logger) ==>
              step.Record? && PhaseThrough(s, step.t, logger, key) == Some(Written)
  {}

  lemma UnscannedKept(g: Git, s: State, step: Step, s': State, logger: nat, key: Key, t: nat)
    requires Next(g, s, step) == Some(s') && key in LogOf(s.logs, logger)
    requires !Scanned(PhaseThrough(s, t, logger, key))
    ensures !Scanned(PhaseThrough(s', t, logger, key))
  {
    FrameThrough(g, s, step, s', logger, key, t);
  }

  lemma LogClosesKept(g: Git, s: State, step: Step, s': State, logger: nat, key: Key)
    requires HoldsReservation(s, key) && LogCloses(s, logger, key) && Next(g, s, step) == Some(s')
    ensures LogCloses(s', logger, key)
  {
    LogChanges(g, s, step, s', logger, key);
    if key in LogOf(s'.logs, logger) && key !in LogOf(s.logs, logger) {
      RecordingSpends(g, s, step.t, s', key);
    } else if key in LogOf(s.logs, logger) && Spent(s, key) && !step.Crash? {
      SpentKept(g, s, step, s', key);
    } else if key in LogOf(s.logs, logger) {
      forall t: nat ensures !Scanned(PhaseThrough(s', t, logger, key)) {
        FrameThrough(g, s, step, s', logger, key, t);
        if !step.Crash? {
          UnscannedKept(g, s, step, s', logger, key, t);
        }
      }
    }
  }

  lemma {:induction false} LogClosesHolds(g: Git, states: seq<State>, steps: seq<Step>, n: nat, logger: nat, key: Key)
    requires IsRun(g, states, steps) && n <= |steps|
    ensures LogCloses(states[n], logger, key)
  {
    if n > 0 {
      LogClosesHolds(g, states, steps, n - 1, logger, key);
      ReservationHolds(g, states, steps, n - 1, key);
      LogClosesKept(g, states[n - 1], steps[n - 1], states[n], logger, key);
    }
  }

  /** Step n writes the patch of this key, in a call that was given this logger. */
  predicate WritesThrough(states: seq<State>, steps: seq<Step>, n: nat, logger: nat, key: Key)
    requires |states| == |steps| + 1 && n < |steps|
  {
    steps[n].Apply? && PhaseThrough(states[n], steps[n].t, logger, key).Some?
  }

  /** Logs are append-only and durable, so what one holds is never written again by a call that reads it. */
  lemma RecordedIsFinal(g: Git, states: seq<State>, steps: seq<Step>, m: nat, n: nat, logger: nat, key: Key)
    requires IsRun(g, states, steps) && m <= n < |steps|
    requires key in LogOf(states[m].logs, logger)
    ensures !WritesThrough(states, steps, n, logger, key)
  {
    LogsGrow(g, states, steps, m, n, logger);
    LogClosesHolds(g, states, steps, n, logger, key);
    if WritesThrough(states, steps, n, logger, key) {
      assert Next(g, states[n], steps[n]) == Some(states[n + 1]);
      assert Applying(PhaseOf(states[n], steps[n].t, key));
    }
  }

  /** Every call of the run that has a logger has this one. */
  predicate OneLogger(steps: seq<Step>, logger: nat) {
    forall i :: 0 <= i < |steps| && steps[i].Spawn? ==> steps[i].call.logger in {None, Some(logger)}
  }

  ghost predicate ThreadsLog(s: State, logger: nat) {
    forall t :: t in s.threads ==> s.threads[t].call.logger in {None, Some(logger)}
  }

  lemma {:induction false} ThreadsLogThere(g: Git, states: seq<State>, steps: seq<Step>, n: nat, logger: nat)
    requires IsRun(g, states, steps) && n <= |steps| && OneLogger(steps, logger)
    ensures ThreadsLog(states[n], logger)
  {
    if n > 0 {
      ThreadsLogThere(g, states, steps, n - 1, logger);
      assert Next(g, states[n - 1], steps[n - 1]) == Some(states[n]);
      ThreadsLogKept(g, states[n - 1], steps[n - 1], states[n], logger);
    }
  }

  lemma ThreadsLogKept(g: Git, s: State, step: Step, s': State, logger: nat)
    requires Next(g, s, step) == Some(s') && ThreadsLog(s, logger)
    requires step.Spawn? ==> step.call.logger in {None, Some(logger)}
    ensures ThreadsLog(s', logger)
  {}

  /** Where all calls use one logger, a recorded key is never written again by anyone. */
  lemma RecordedIsFinalInOneLog(g: Git, states: seq<State>, steps: seq<Step>, m: nat, n: nat, logger: nat, key: Key)
    requires IsRun(g, states, steps) && m <= n < |steps| && OneLogger(steps, logger)
    requires key in LogOf(states[m].logs, logger)
    ensures !WritesKey(states, steps, n, key)
  {
    RecordedIsFinal(g, states, steps, m, n, logger, key);
    if WritesKey(states, steps, n, key) {
      WriterLogs(g, states, steps, n, logger, key);
    }
  }

  lemma WriterLogs(g: Git, states: seq<State>, steps: seq<Step>, n: nat, logger: nat, key: Key)
    requires IsRun(g, states, steps) && n < |steps| && OneLogger(steps, logger) && WritesKey(states, steps, n, key)
    ensures WritesThrough(states, steps, n, logger, key)
  {
    assert Next(g, states[n], steps[n]) == Some(states[n + 1]);
    ThreadsLogThere(g, states, steps, n, logger);
    ThreadsAdmitted(g, states, steps, n);
    assert ThreadAdmitted(states[n].threads[steps[n].t]);
  }

  lemma {:induction false} LogsGrow(g: Git, states: seq<State>, steps: seq<Step>, m: nat, n: nat, logger: nat)
    requires IsRun(g, states, steps) && m <= n <= |steps|
    ensures LogOf(states[m].logs, logger) <= LogOf(states[n].logs, logger)
  {
    if m < n {
      LogsGrow(g, states, steps, m, n - 1, logger);
      LogChanges(g, states[n - 1], steps[n - 1], states[n], logger, Key("", "", ""));
    }
  }

  // ---------------------------------------------------------------- the clean and baseline checks

  /**
    What is known of a key since it was written.
    Live: the writing process still runs. Orphaned: it died; `sawClean` once the tree was clean since.
    Exposed: since that crash the tree was clean and then, at once or later, HEAD was at the baseline.
  */
  datatype Watch = Live | Orphaned(sawClean: bool) | Exposed

  function Observe(g: Git, key: Key, w: Watch, repo: Repo): Watch {
    match w
    case Orphaned(sawClean) =>
      var c := sawClean || Clean(g, repo);
      if c && AtBaseline(repo, key.baseline) then Exposed else Orphaned(c)
    case _ => w
  }

  function Watching(g: Git, key: Key, w: Watch, step: Step, s': State): Watch {
    Observe(g, key, if step.Crash? && w.Live? then Orphaned(false) else w, s'.repo)
  }

  ghost predicate WatchHolds(g: Git, s: State, key: Key, w: Watch) {
    match w
    case Live => key in s.used && (forall t: nat :: !Applying(PhaseOf(s, t, key)))
    case Orphaned(sawClean) =>
      && (forall t: nat :: Early(PhaseOf(s, t, key)))
      && (forall t: nat :: PhaseOf(s, t, key) == Some(CleanSeen) ==> sawClean)
      && w == Observe(g, key, w, s.repo)
    case Exposed => true
  }

  lemma WatchKept(g: Git, s: State, step: Step, s': State, key: Key, w: Watch)
    requires WatchHolds(g, s, key, w) && Next(g, s, step) == Some(s')
    ensures WatchHolds(g, s', key, Watching(g, key, w, step, s'))
  {
    forall t: nat
      ensures w.Live? ==> !Applying(PhaseOf(s', t, key))
      ensures w.Orphaned? && PhaseOf(s', t, key) != PhaseOf(s, t, key) ==>
                Early(PhaseOf(s', t, key)) && (PhaseOf(s', t, key) == Some(CleanSeen) ==> Clean(g, s.repo))
    {
      Frame(g, s, step, s', key, t);
      assert w.Live? ==> !Applying(PhaseOf(s, t, key));
      assert w.Orphaned? ==> Early(PhaseOf(s, t, key));
    }
    if step.Raise? {
      assert w.Live? ==> !Applying(PhaseOf(s, step.t, key));
    }
  }

  /** The watch at state n, started by the write at step w. */
  function WatchAt(g: Git, key: Key, states: seq<State>, steps: seq<Step>, w: nat, n: nat): Watch
    requires w < n <= |steps| && |states| == |steps| + 1
  {
    if n == w + 1 then Live
    else Watching(g, key, WatchAt(g, key, states, steps, w, n - 1), steps[n - 1], states[n])
  }

  lemma {:induction false} WatchHoldsSince(g: Git, key: Key, states: seq<State>, steps: seq<Step>, w: nat, n: nat)
    requires IsRun(g, states, steps) && w < n <= |steps| && WritesKey(states, steps, w, key)
    ensures WatchHolds(g, states[n], key, WatchAt(g, key, states, steps, w, n))
  {
    if n == w + 1 {
      ReservationHolds(g, states, steps, w, key);
      var a := steps[w].t;
      assert Next(g, states[w], steps[w]) == Some(states[n]);
      assert Holding(PhaseOf(states[w], a, key));
      forall t: nat ensures !Applying(PhaseOf(states[n], t, key)) {
        Frame(g, states[w], steps[w], states[n], key, t);
        assert t != a ==> !Holding(PhaseOf(states[w], t, key));
      }
    } else {
      WatchHoldsSince(g, key, states, steps, w, n - 1);
      WatchKept(g, states[n - 1], steps[n - 1], states[n], key, WatchAt(g, key, states, steps, w, n - 1));
    }
  }

  // ---------------------------------------------------------------- main results

  /** Between steps w and n: the process crashed, then the tree was clean, then HEAD was at the baseline. */
  ghost predicate CrashedThenReset(g: Git, key: Key, states: seq<State>, steps: seq<Step>, w: nat, n: nat)
    requires w < n <= |steps| && |states| == |steps| + 1
  {
    exists c, i, j :: w < c < i <= j <= n && steps[c] == Crash
      && Clean(g, states[i].repo) && AtBaseline(states[j].repo, key.baseline)
  }

  /** One step of the watch, with what is known of the crash c and the clean state i so far. */
  predicate Explains(g: Git, key: Key, states: seq<State>, steps: seq<Step>, w: nat, n: nat, x: Watch, c: nat, i: nat)
    requires w < n <= |steps| && |states| == |steps| + 1
  {
    && (!x.Live? ==> w < c < n && steps[c] == Crash)
    && (x.Orphaned? && x.sawClean ==> c < i <= n && Clean(g, states[i].repo))
  }

  lemma ExplainedStep(g: Git, key: Key, states: seq<State>, steps: seq<Step>, w: nat, n: nat, x: Watch, c: nat, i: nat)
    returns (c': nat, i': nat)
    requires w < n < |steps| && |states| == |steps| + 1 && !x.Exposed?
    requires Explains(g, key, states, steps, w, n, x, c, i)
    ensures var x' := Watching(g, key, x, steps[n], states[n + 1]);
            && Explains(g, key, states, steps, w, n + 1, x', c', i')
            && (x'.Exposed? ==> c' < i' <= n + 1 && Clean(g, states[i'].repo)
                                && AtBaseline(states[n + 1].repo, key.baseline))
  {
    c' := if x.Live? && steps[n].Crash? then n else c;
    i' := if x.Orphaned? && x.sawClean then i else n + 1;
  }

  ghost predicate Told(g: Git, key: Key, states: seq<State>, steps: seq<Step>, w: nat, n: nat, x: Watch, c: nat, i: nat)
    requires w < n <= |steps| && |states| == |steps| + 1
  {
    if x.Exposed? then CrashedThenReset(g, key, states, steps, w, n)
    else Explains(g, key, states, steps, w, n, x, c, i)
  }

  lemma ToldStep(g: Git, key: Key, states: seq<State>, steps: seq<Step>, w: nat, n: nat, x: Watch, c: nat, i: nat)
    returns (c': nat, i': nat)
    requires w < n < |steps| && |states| == |steps| + 1 && Told(g, key, states, steps, w, n, x, c, i)
    ensures Told(g, key, states, steps, w, n + 1, Watching(g, key, x, steps[n], states[n + 1]), c', i')
  {
    c', i' := c, i;
    if x.Exposed? {
      ResetStays(g, key, states, steps, w, n);
    } else {
      c', i' := ExplainedStep(g, key, states, steps, w, n, x, c, i);
      if Watching(g, key, x, steps[n], states[n + 1]).Exposed? {
        ResetNow(g, key, states, steps, w, n + 1, c', i');
      }
    }
  }

  lemma {:induction false} WatchExplained(g: Git, key: Key, states: seq<State>, steps: seq<Step>, w: nat, n: nat)
    returns (c: nat, i: nat)
    requires w < n <= |steps| && |states| == |steps| + 1
    ensures Told(g, key, states, steps, w, n, WatchAt(g, key, states, steps, w, n), c, i)
  {
    c, i := 0, 0;
    if n > w + 1 {
      c, i := WatchExplained(g, key, states, steps, w, n - 1);
      c, i := ToldStep(g, key, states, steps, w, n - 1, WatchAt(g, key, states, steps, w, n - 1), c, i);
    }
  }

  lemma ResetNow(g: Git, key: Key, states: seq<State>, steps: seq<Step>, w: nat, n: nat, c: nat, i: nat)
    requires w < c < i <= n <= |steps| && |states| == |steps| + 1 && steps[c] == Crash
    requires Clean(g, states[i].repo) && AtBaseline(states[n].repo, key.baseline)
    ensures CrashedThenReset(g, key, states, steps, w, n)
  {}

  lemma ResetStays(g: Git, key: Key, states: seq<State>, steps: seq<Step>, w: nat, n: nat)
    requires w < n < |steps| && |states| == |steps| + 1 && CrashedThenReset(g, key, states, steps, w, n)
    ensures CrashedThenReset(g, key, states, steps, w, n + 1)
  {
    var c, i, j :| w < c < i <= j <= n && steps[c] == Crash
      && Clean(g, states[i].repo) && AtBaseline(states[j].repo, key.baseline);
  }

  /**
    What it takes to write one approval's patch twice. Each defence covers a different window:
    the reservation every run without a crash, the log every recorded write, and the clean and
    baseline checks every crash after which the target is not brought back to a clean baseline.
  */
  lemma SecondWriteNeeds(g: Git, key: Key, states: seq<State>, steps: seq<Step>, w: nat, n: nat)
    requires IsRun(g, states, steps) && w < n < |steps|
    requires WritesKey(states, steps, w, key) && WritesKey(states, steps, n, key)
    ensures CrashedThenReset(g, key, states, steps, w, n)
    ensures forall logger: nat :: WritesThrough(states, steps, n, logger, key) ==> key !in LogOf(states[n].logs, logger)
  {
    WatchHoldsSince(g, key, states, steps, w, n);
    assert Next(g, states[n], steps[n]) == Some(states[n + 1]);
    assert Applying(PhaseOf(states[n], steps[n].t, key));
    var c, i := WatchExplained(g, key, states, steps, w, n);
    forall logger: nat | WritesThrough(states, steps, n, logger, key)
      ensures key !in LogOf(states[n].logs, logger)
    {
      if key in LogOf(states[n].logs, logger) {
        RecordedIsFinal(g, states, steps, n, n, logger, key);
      }
    }
  }

  /** Once written, the target is never clean and then, at once or later, at the baseline. */
  ghost predicate NeverReset(g: Git, key: Key, states: seq<State>, steps: seq<Step>)
    requires |states| == |steps| + 1
  {
    forall w, i, j :: 0 <= w < |steps| && WritesKey(states, steps, w, key) && w < i <= j <= |steps| ==>
      Clean(g, states[i].repo) ==> !AtBaseline(states[j].repo, key.baseline)
  }

  /** Any interleaving, any crashes: the patch of one approval, digest and baseline is written at most once. */
  lemma WrittenAtMostOnce(g: Git, key: Key, states: seq<State>, steps: seq<Step>, w: nat, n: nat)
    requires IsRun(g, states, steps) && NeverReset(g, key, states, steps)
    requires w < |steps| && n < |steps|
    requires WritesKey(states, steps, w, key) && WritesKey(states, steps, n, key)
    ensures w == n
  {
    if w < n {
      SecondWriteNeeds(g, key, states, steps, w, n);
    } else if n < w {
      SecondWriteNeeds(g, key, states, steps, n, w);
    }
  }

  /** Every patch written was covered by a granted approval of exactly this patch, and nothing else was written. */
  lemma OnlyGrantedPatchesWritten(g: Git, states: seq<State>, steps: seq<Step>, n: nat)
    requires IsRun(g, states, steps) && n < |steps|
    requires states[n + 1].repo != states[n].repo && !steps[n].Outside?
    ensures steps[n].Apply? && steps[n].t in states[n].threads
    ensures var call := states[n].threads[steps[n].t].call;
            && Granted(call) && call.logger.Some?
            && states[n + 1].repo.head == states[n].repo.head
            && g.patched(call.patch.text, states[n].repo.work) == Some(states[n + 1].repo.work)
  {
    assert Next(g, states[n], steps[n]) == Some(states[n + 1]);
    ThreadsAdmitted(g, states, steps, n);
  }

  /** The digest is compared, never recomputed: the bytes written have the approved digest exactly if the call's do. */
  lemma WrittenBytesExactly(g: Git, sha: string -> string, states: seq<State>, steps: seq<Step>, n: nat)
    requires IsRun(g, states, steps) && n < |steps|
    requires states[n + 1].repo != states[n].repo && !steps[n].Outside?
    ensures var call := states[n].threads[steps[n].t].call;
            Some(sha(call.patch.text)) == call.request.target == call.decision.metadata.patchDigest <==>
            sha(call.patch.text) == call.patch.digest
  {
    OnlyGrantedPatchesWritten(g, states, steps, n);
  }

  /** A run over honest calls writes only bytes whose digest was approved. */
  lemma HonestBytesWritten(g: Git, sha: string -> string, states: seq<State>, steps: seq<Step>, n: nat)
    requires IsRun(g, states, steps) && n < |steps|
    requires states[n + 1].repo != states[n].repo && !steps[n].Outside?
    requires forall i :: 0 <= i < |steps| && steps[i].Spawn? ==> Honest(sha, steps[i].call)
    ensures var call := states[n].threads[steps[n].t].call;
            Some(sha(call.patch.text)) == call.request.target
  {
    WrittenBytesExactly(g, sha, states, steps, n);
    HonestThreads(g, sha, states, steps, n);
  }

  /** The digest of a call's patch is that of its text. */
  predicate Honest(sha: string -> string, call: Call) {
    sha(call.patch.text) == call.patch.digest
  }

  ghost predicate AllHonest(sha: string -> string, s: State) {
    forall t :: t in s.threads ==> Honest(sha, s.threads[t].call)
  }

  lemma {:induction false} HonestThreads(g: Git, sha: string -> string, states: seq<State>, steps: seq<Step>, n: nat)
    requires IsRun(g, states, steps) && n <= |steps|
    requires forall i :: 0 <= i < |steps| && steps[i].Spawn? ==> Honest(sha, steps[i].call)
    ensures AllHonest(sha, states[n])
  {
    if n > 0 {
      HonestThreads(g, sha, states, steps, n - 1);
      assert Next(g, states[n - 1], steps[n - 1]) == Some(states[n]);
      HonestKept(g, sha, states[n - 1], steps[n - 1], states[n]);
    }
  }

  lemma HonestKept(g: Git, sha: string -> string, s: State, step: Step, s': State)
    requires Next(g, s, step) == Some(s') && AllHonest(sha, s)
    requires step.Spawn? ==> Honest(sha, step.call)
    ensures AllHonest(sha, s')
  {}

  predicate ThreadAdmitted(thread: Thread) {
    && Admission(thread.call).None?
    && (thread.phase in {Started, CleanSeen, BaselineSeen, Raised} || thread.call.logger.Some?)
  }

  lemma AdmittedKept(g: Git, s: State, step: Step, s': State, t: nat)
    requires Next(g, s, step) == Some(s') && t in s'.threads
    requires t in s.threads ==> ThreadAdmitted(s.threads[t])
    ensures ThreadAdmitted(s'.threads[t])
  {
    if t in s.threads {
      assert s'.threads[t].call == s.threads[t].call;
    }
  }

  lemma {:induction false} ThreadsAdmitted(g: Git, states: seq<State>, steps: seq<Step>, n: nat)
    requires IsRun(g, states, steps) && n <= |steps|
    ensures forall t :: t in states[n].threads ==> ThreadAdmitted(states[n].threads[t])
  {
    if n > 0 {
      ThreadsAdmitted(g, states, steps, n - 1);
      assert Next(g, states[n - 1], steps[n - 1]) == Some(states[n]);
      forall t | t in states[n].threads ensures ThreadAdmitted(states[n].threads[t]) {
        AdmittedKept(g, states[n - 1], steps[n - 1], states[n], t);
      }
    }
  }

  /** A log names only patches that were written by calls with its logger. */
  lemma {:induction false} LogTellsTruth(g: Git, states: seq<State>, steps: seq<Step>, n: nat, logger: nat, key: Key)
    requires IsRun(g, states, steps) && n <= |steps|
    ensures key in LogOf(states[n].logs, logger) ==>
              exists w :: 0 <= w < n && WritesThrough(states, steps, w, logger, key)
    ensures (exists t: nat :: PhaseThrough(states[n], t, logger, key) == Some(Written)) ==>
              exists w :: 0 <= w < n && WritesThrough(states, steps, w, logger, key)
  {
    if n > 0 {
      LogTellsTruth(g, states, steps, n - 1, logger, key);
      assert Next(g, states[n - 1], steps[n - 1]) == Some(states[n]);
      LogChanges(g, states[n - 1], steps[n - 1], states[n], logger, key);
      if t: nat :| PhaseThrough(states[n], t, logger, key) == Some(Written) {
        FrameThrough(g, states[n - 1], steps[n - 1], states[n], logger, key, t);
        assert PhaseThrough(states[n - 1], t, logger, key) == Some(Written)
            || WritesThrough(states, steps, n - 1, logger, key);
      }
    }
  }

  // ---------------------------------------------------------------- one call on its own

  function Exec(g: Git, s: State, steps: seq<Step>): Option<State>
    decreases |steps|
  {
    if steps == [] then Some(s)
    else match Next(g, s, steps[0])
      case None => None
      case Some(s') => Exec(g, s', steps[1..])
  }

  function Refused(g: Git, used: set<Key>, logs: Logs, repo: Repo, call: Call): Option<Refusal> {
    if Admission(call).Some? then Admission(call)
    else if !Clean(g, repo) then Some(NotClean)
    else if !AtBaseline(repo, call.patch.baseline) then Some(NotAtBaseline)
    else if call.logger.None? then Some(NoLogger)
    else if !Unrecorded(logs, call) || KeyOf(call) in used then Some(AlreadyUsed)
    else if g.patched(call.patch.text, repo.work).None? then Some(DoesNotApply)
    else None
  }

  /** Under the same assessments another text that applies is accepted just the same, whatever its digest. */
  lemma TextIsUnchecked(g: Git, used: set<Key>, logs: Logs, repo: Repo, call: Call, text: string)
    requires g.patched(text, repo.work).Some? <==> g.patched(call.patch.text, repo.work).Some?
    ensures var other := call.(patch := call.patch.(text := text));
            Refused(g, used, logs, repo, other) == Refused(g, used, logs, repo, call)
  {}

  function UndisturbedSteps(t: nat, call: Call): seq<Step> {
    [Spawn(t, call), SeeClean(t), SeeBaseline(t), ScanLog(t), Reserve(t), CheckApplies(t), Apply(t), Record(t)]
  }

  /** A call nobody disturbs writes and records its patch exactly when no check refuses it. */
  lemma UndisturbedCall(g: Git, s: State, t: nat, call: Call)
    requires t !in s.threads
    ensures var r := Exec(g, s, UndisturbedSteps(t, call));
            && (r.Some? <==> Refused(g, s.used, s.logs, s.repo, call).None?)
            && (r.Some? ==>
                  && g.patched(call.patch.text, s.repo.work) == Some(r.value.repo.work)
                  && r.value.repo.head == s.repo.head
                  && r.value.used == s.used + {KeyOf(call)}
                  && r.value.logs == RecordedBy(s.logs, call)
                  && r.value.threads == s.threads[t := Thread(call, Finished)])
  {
    var steps := UndisturbedSteps(t, call);
    ThreadSteps(g, s, t, call);
    ExecFrom(g, s, steps, 0);
    ExecFrom(g, At(s, t, call, Started), steps, 1);
    ExecFrom(g, At(s, t, call, CleanSeen), steps, 2);
    ExecFrom(g, At(s, t, call, BaselineSeen), steps, 3);
    ExecFrom(g, At(s, t, call, LogScanned), steps, 4);
    if call.logger.Some? {
      UndisturbedRest(g, Using(s, call), t, call);
    }
  }

  /** From the reservation on, only the patch itself can still refuse. */
  lemma UndisturbedRest(g: Git, u: State, t: nat, call: Call)
    requires call.logger.Some?
    ensures Exec(g, At(u, t, call, Reserved), UndisturbedSteps(t, call)[5..]) ==
            match g.patched(call.patch.text, u.repo.work)
            case None => None
            case Some(work) => Some(At(Having(u, work).(logs := RecordedBy(u.logs, call)), t, call, Finished))
  {
    var steps := UndisturbedSteps(t, call);
    ReservedSteps(g, u, t, call);
    ExecFrom(g, At(u, t, call, Reserved), steps, 5);
    ExecFrom(g, At(u, t, call, Checked), steps, 6);
    if work :| g.patched(call.patch.text, u.repo.work) == Some(work) {
      RecordStep(g, Having(u, work), t, call);
      ExecFrom(g, At(Having(u, work), t, call, Written), steps, 7);
      assert steps[8..] == [];
    }
  }

  function At(s: State, t: nat, call: Call, phase: Phase): State {
    s.(threads := s.threads[t := Thread(call, phase)])
  }

  lemma ThreadSteps(g: Git, s: State, t: nat, call: Call)
    requires t !in s.threads
    ensures Next(g, s, Spawn(t, call)) == if Admission(call).Some? then None else Some(At(s, t, call, Started))
    ensures Next(g, At(s, t, call, Started), SeeClean(t)) ==
            if Clean(g, s.repo) then Some(At(s, t, call, CleanSeen)) else None
    ensures Next(g, At(s, t, call, CleanSeen), SeeBaseline(t)) ==
            if AtBaseline(s.repo, call.patch.baseline) then Some(At(s, t, call, BaselineSeen)) else None
    ensures Next(g, At(s, t, call, BaselineSeen), ScanLog(t)) ==
            if Unrecorded(s.logs, call) then Some(At(s, t, call, LogScanned)) else None
    ensures Next(g, At(s, t, call, LogScanned), Reserve(t)) ==
            if KeyOf(call) !in s.used then Some(At(Using(s, call), t, call, Reserved)) else None
  {
    MoveAt(s, t, call);
    assert Move(At(s, t, call, LogScanned), t, Reserved).(used := Using(s, call).used) ==
        At(Using(s, call), t, call, Reserved);
  }

  function Using(s: State, call: Call): State {
    s.(used := s.used + {KeyOf(call)})
  }

  function Having(s: State, work: string): State {
    s.(repo := s.repo.(work := work))
  }

  /** From the reservation on. */
  lemma ReservedSteps(g: Git, u: State, t: nat, call: Call)
    ensures Next(g, At(u, t, call, Reserved), CheckApplies(t)) ==
            if g.patched(call.patch.text, u.repo.work).Some? then Some(At(u, t, call, Checked)) else None
    ensures forall work :: g.patched(call.patch.text, u.repo.work) == Some(work) ==>
              Next(g, At(u, t, call, Checked), Apply(t)) == Some(At(Having(u, work), t, call, Written))
  {
    MoveAt(u, t, call);
    forall work | g.patched(call.patch.text, u.repo.work) == Some(work)
      ensures Next(g, At(u, t, call, Checked), Apply(t)) == Some(At(Having(u, work), t, call, Written))
    {
      assert Move(At(u, t, call, Checked), t, Written).(repo := Having(u, work).repo) ==
          At(Having(u, work), t, call, Written);
    }
  }

  lemma RecordStep(g: Git, v: State, t: nat, call: Call)
    requires call.logger.Some?
    ensures Next(g, At(v, t, call, Written), Record(t)) ==
            Some(At(v.(logs := RecordedBy(v.logs, call)), t, call, Finished))
  {
    MoveAt(v, t, call);
    assert Move(At(v, t, call, Written), t, Finished).(logs := RecordedBy(v.logs, call))
        == At(v.(logs := RecordedBy(v.logs, call)), t, call, Finished);
  }

  lemma MoveAt(s: State, t: nat, call: Call)
    ensures forall a: Phase, b: Phase :: Move(At(s, t, call, a), t, b) == At(s, t, call, b)
  {
    forall a: Phase, b: Phase ensures Move(At(s, t, call, a), t, b) == At(s, t, call, b) {
      assert s.threads[t := Thread(call, a)][t := Thread(call, b)] == s.threads[t := Thread(call, b)];
    }
  }

  /** From any state with a free thread, a call nobody disturbs writes its key unless a check refuses it. */
  lemma UnrefusedWrites(g: Git, s: State, t: nat, call: Call)
    requires t !in s.threads
    ensures Exec(g, s, UndisturbedSteps(t, call)).Some? <==> Refused(g, s.used, s.logs, s.repo, call).None?
    ensures Refused(g, s.used, s.logs, s.repo, call).None? ==>
              WritesKey(Visited(g, s, UndisturbedSteps(t, call)), UndisturbedSteps(t, call), 6, KeyOf(call))
  {
    UndisturbedCall(g, s, t, call);
    if Refused(g, s.used, s.logs, s.repo, call).None? {
      UndisturbedUntilApply(g, s, t, call);
      VisitedAt(g, s, UndisturbedSteps(t, call), 6);
    }
  }

  /** The same, stopped when the key is reserved. */
  lemma UndisturbedUntilReserve(g: Git, s: State, t: nat, call: Call)
    requires t !in s.threads && Admission(call).None? && Clean(g, s.repo) && AtBaseline(s.repo, call.patch.baseline)
    requires Unrecorded(s.logs, call) && KeyOf(call) !in s.used
    ensures Exec(g, s, UndisturbedSteps(t, call)[..5]) == Some(At(Using(s, call), t, call, Reserved))
  {
    var steps := UndisturbedSteps(t, call)[..5];
    ThreadSteps(g, s, t, call);
    ExecFrom(g, s, steps, 0);
    ExecFrom(g, At(s, t, call, Started), steps, 1);
    ExecFrom(g, At(s, t, call, CleanSeen), steps, 2);
    ExecFrom(g, At(s, t, call, BaselineSeen), steps, 3);
    ExecFrom(g, At(s, t, call, LogScanned), steps, 4);
    assert steps[5..] == [];
  }

  /** The same, stopped just before the patch is written. */
  lemma UndisturbedUntilApply(g: Git, s: State, t: nat, call: Call)
    requires t !in s.threads && Refused(g, s.used, s.logs, s.repo, call).None?
    ensures Exec(g, s, UndisturbedSteps(t, call)[..6]) == Some(At(Using(s, call), t, call, Checked))
  {
    var steps := UndisturbedSteps(t, call)[..6];
    UndisturbedUntilReserve(g, s, t, call);
    ReservedSteps(g, Using(s, call), t, call);
    assert steps == UndisturbedSteps(t, call)[..5] + [CheckApplies(t)];
    ExecConcat(g, s, UndisturbedSteps(t, call)[..5], [CheckApplies(t)]);
    ExecFrom(g, At(Using(s, call), t, call, Reserved), [CheckApplies(t)], 0);
    assert [CheckApplies(t)][1..] == [];
  }

  lemma ExecFrom(g: Git, s: State, steps: seq<Step>, k: nat)
    requires k < |steps|
    ensures Exec(g, s, steps[k..]) ==
            match Next(g, s, steps[k]) case None => None case Some(s') => Exec(g, s', steps[k + 1..])
    ensures steps[0..] == steps
  {
    assert steps[k..][1..] == steps[k + 1..];
  }

  lemma {:induction false} ExecConcat(g: Git, s: State, a: seq<Step>, b: seq<Step>)
    ensures Exec(g, s, a + b) == match Exec(g, s, a) case None => None case Some(s') => Exec(g, s', b)
    decreases |a|
  {
    if a == [] {
      assert a + b == b;
    } else {
      assert (a + b)[0] == a[0] && (a + b)[1..] == a[1..] + b;
      if s' :| Next(g, s, a[0]) == Some(s') {
        ExecConcat(g, s', a[1..], b);
      }
    }
  }

  /** The states a sequence of steps goes through. */
  function Visited(g: Git, s: State, steps: seq<Step>): (states: seq<State>)
    requires Exec(g, s, steps).Some?
    ensures |states| == |steps| + 1 && states[0] == s
    decreases |steps|
  {
    if steps == [] then [s] else [s] + Visited(g, Next(g, s, steps[0]).value, steps[1..])
  }

  lemma {:induction false} VisitedAt(g: Git, s: State, steps: seq<Step>, n: nat)
    requires Exec(g, s, steps).Some? && n <= |steps|
    ensures Exec(g, s, steps[..n]) == Some(Visited(g, s, steps)[n])
    ensures n < |steps| ==> Next(g, Visited(g, s, steps)[n], steps[n]) == Some(Visited(g, s, steps)[n + 1])
    decreases |steps|
  {
    if steps != [] {
      var s' := Next(g, s, steps[0]).value;
      if n > 0 {
        VisitedAt(g, s', steps[1..], n - 1);
        assert steps[..n][1..] == steps[1..][..n - 1];
      }
    }
  }

  /** Steps that can be taken from an initial state make a run. */
  lemma ExecIsRun(g: Git, s: State, steps: seq<Step>)
    requires Initial(s) && Exec(g, s, steps).Some?
    ensures IsRun(g, Visited(g, s, steps), steps)
  {
    forall i | 0 <= i < |steps|
      ensures Next(g, Visited(g, s, steps)[i], steps[i]) == Some(Visited(g, s, steps)[i + 1])
    {
      VisitedAt(g, s, steps, i);
    }
  }
}
