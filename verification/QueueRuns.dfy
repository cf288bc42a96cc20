/**
  Any number of SQLite queue objects on one table, interleaved. Besides whole transactions, a decision
  may be split into its read (with every check) and its guarded UPDATE, with other steps between them.
*/
module QueueRuns {
  import opened Prelude
  import opened ApprovalModel
  import opened ApprovalAuthorization
  import opened ApprovalQueue

  /** A decision that passed every check on the row it read and has not updated the row yet. */
  datatype InFlight = InFlight(engine: Engine, decision: Decision)

  datatype State = State(rows: Rows, inFlight: map<nat, InFlight>)

  datatype Step =
    | SubmitTx(request: Request)
    | DecideTx(engine: Engine, id: string, decision: Decision)
    | Read(client: nat, engine: Engine, id: string, decision: Decision)
    | Update(client: nat)
    | Abandon(client: nat)

  /** UPDATE ... WHERE approval_id = ? AND status = 'pending'. */
  function GuardedUpdate(rows: Rows, d: Decision): Rows {
    var k := Find(rows, d.approvalId);
    if k < |rows| && rows[k].status == Pending then rows[k := Item(rows[k].request, d.status, Some(d))] else rows
  }

  predicate ChecksPass(engine: Engine, rows: Rows, id: string, d: Decision) {
    && d.approvalId == id
    && var k := Find(rows, id);
    && k < |rows| && rows[k].status == Pending
    && TransitionAllowed(rows[k].status, d.status)
    && Authorize(engine, rows[k].request, d, rows[k].status).None?
  }

  function Next(s: State, step: Step): State {
    match step
    case SubmitTx(r) => s.(rows := SqlSubmit(s.rows, r).0)
    case DecideTx(engine, id, d) => s.(rows := SqlDecide(engine, s.rows, id, d).0)
    case Read(c, engine, id, d) =>
      if ChecksPass(engine, s.rows, id, d) then s.(inFlight := s.inFlight[c := InFlight(engine, d)])
      else s.(inFlight := s.inFlight - {c})
    case Update(c) =>
      if c in s.inFlight
      then State(GuardedUpdate(s.rows, s.inFlight[c].decision), s.inFlight - {c})
      else s
    case Abandon(c) => s.(inFlight := s.inFlight - {c})
  }

  /** The queue objects deployed have these authorization engines. */
  predicate Uses(step: Step, deployed: set<Engine>) {
    match step
    case DecideTx(engine, _, _) => engine in deployed
    case Read(_, engine, _, _) => engine in deployed
    case _ => true
  }

  predicate IsRun(deployed: set<Engine>, states: seq<State>, steps: seq<Step>) {
    && |states| == |steps| + 1
    && states[0] == State([], map[])
    && forall i :: 0 <= i < |steps| ==> Uses(steps[i], deployed) && states[i + 1] == Next(states[i], steps[i])
  }

  predicate Authorized(deployed: set<Engine>, request: Request, d: Decision) {
    d.status == Approved ==> exists e :: e in deployed && MayApprove(e, request, d)
  }

  predicate Sound(deployed: set<Engine>, s: State) {
    && Decidedly(s.rows)
    && (forall k :: 0 <= k < |s.rows| && s.rows[k].decision.Some? ==>
          Authorized(deployed, s.rows[k].request, s.rows[k].decision.value))
    && (forall c :: c in s.inFlight ==> DecisionFits(deployed, s.rows, s.inFlight[c].decision))
  }

  /** The decision is authorized for the request of the row it is about. */
  predicate DecisionFits(deployed: set<Engine>, rows: Rows, d: Decision) {
    var k := Find(rows, d.approvalId);
    k < |rows| && d.status != Pending && Authorized(deployed, rows[k].request, d)
  }

  /** What happens to the rows: nothing, one row appended, or one pending row decided. */
  predicate Appends(rows: Rows, rows': Rows) {
    |rows'| == |rows| + 1 && rows'[..|rows|] == rows
    && rows'[|rows|].status == Pending && rows'[|rows|].decision.None?
    && !Holds(rows, rows'[|rows|].request.approvalId)
  }

  ghost predicate Decides(deployed: set<Engine>, rows: Rows, rows': Rows) {
    exists k, d: Decision :: 0 <= k < |rows| && rows[k].status == Pending != d.status
      && d.approvalId == rows[k].request.approvalId && Authorized(deployed, rows[k].request, d)
      && rows' == rows[k := Item(rows[k].request, d.status, Some(d))]
  }

  lemma StepKinds(deployed: set<Engine>, s: State, step: Step)
    requires Sound(deployed, s) && Uses(step, deployed)
    ensures var rows' := Next(s, step).rows;
            rows' == s.rows || Appends(s.rows, rows') || Decides(deployed, s.rows, rows')
  {
    match step
    case SubmitTx(r) => FindHolds(s.rows, r.approvalId);
    case DecideTx(engine, id, d) =>
      var k := Find(s.rows, id);
      if k < |s.rows| {
        AuthorizedExactly(engine, s.rows[k].request, d, s.rows[k].status);
        if Next(s, step).rows != s.rows {
          assert Authorized(deployed, s.rows[k].request, d);
        }
      }
    case Read(c, engine, id, d) =>
    case Update(c) =>
    case Abandon(c) =>
  }

  /** Every row is still there with its request, and every decided row is exactly as it was. */
  predicate Extends(rows: Rows, rows': Rows) {
    && |rows| <= |rows'|
    && (forall k :: 0 <= k < |rows| ==> rows'[k].request == rows[k].request)
    && (forall k :: 0 <= k < |rows| && rows[k].status != Pending ==> rows'[k] == rows[k])
  }

  lemma ExtendsTransitive(a: Rows, b: Rows, c: Rows)
    requires Extends(a, b) && Extends(b, c)
    ensures Extends(a, c)
  {
    forall k | 0 <= k < |a| ensures c[k].request == a[k].request {
      assert b[k].request == a[k].request;
    }
    forall k | 0 <= k < |a| && a[k].status != Pending ensures c[k] == a[k] {
      assert b[k] == a[k];
    }
  }

  /** Appending or deciding a row keeps every id at its place. */
  lemma FindKept(rows: Rows, rows': Rows, id: string)
    requires Extends(rows, rows')
    ensures Find(rows, id) < |rows| ==> Find(rows', id) == Find(rows, id)
  {}

  lemma ReadFits(deployed: set<Engine>, engine: Engine, rows: Rows, id: string, d: Decision)
    requires engine in deployed && ChecksPass(engine, rows, id, d)
    ensures DecisionFits(deployed, rows, d)
  {
    AuthorizedExactly(engine, rows[Find(rows, id)].request, d, Pending);
  }

  lemma FitsKept(deployed: set<Engine>, rows: Rows, rows': Rows, d: Decision)
    requires DecisionFits(deployed, rows, d)
    requires Extends(rows, rows')
    ensures DecisionFits(deployed, rows', d)
  {
    FindKept(rows, rows', d.approvalId);
  }

  /** The rows of a step stay sound, keep their requests, and keep every decided row. */
  lemma StepKeepsRows(deployed: set<Engine>, s: State, step: Step)
    requires Sound(deployed, s) && Uses(step, deployed)
    ensures var rows' := Next(s, step).rows;
            && Sound(deployed, State(rows', map[]))
            && Extends(s.rows, rows')
  {
    StepKinds(deployed, s, step);
    RowsSound(deployed, s.rows, Next(s, step).rows);
  }

  lemma SoundKept(deployed: set<Engine>, s: State, step: Step)
    requires Sound(deployed, s) && Uses(step, deployed)
    ensures Sound(deployed, Next(s, step))
  {
    var rows' := Next(s, step).rows;
    StepKeepsRows(deployed, s, step);
    forall c | c in Next(s, step).inFlight ensures DecisionFits(deployed, rows', Next(s, step).inFlight[c].decision) {
      if step.Read? && c == step.client {
        ReadFits(deployed, step.engine, s.rows, step.id, step.decision);
      } else {
        FitsKept(deployed, s.rows, rows', s.inFlight[c].decision);
      }
    }
  }

  lemma RowsSound(deployed: set<Engine>, rows: Rows, rows': Rows)
    requires Sound(deployed, State(rows, map[]))
    requires rows' == rows || Appends(rows, rows') || Decides(deployed, rows, rows')
    ensures Sound(deployed, State(rows', map[]))
    ensures Extends(rows, rows')
  {
    if Appends(rows, rows') {
      forall k | 0 <= k < |rows| ensures rows'[k] == rows[k] {
        assert rows'[..|rows|][k] == rows'[k];
      }
    }
  }

  lemma {:induction false} SoundThroughout(deployed: set<Engine>, states: seq<State>, steps: seq<Step>, n: nat)
    requires IsRun(deployed, states, steps) && n <= |steps|
    ensures Sound(deployed, states[n])
  {
    if n > 0 {
      SoundThroughout(deployed, states, steps, n - 1);
      assert states[n] == Next(states[n - 1], steps[n - 1]);
      SoundKept(deployed, states[n - 1], steps[n - 1]);
    }
  }

  lemma StepExtends(deployed: set<Engine>, states: seq<State>, steps: seq<Step>, i: nat)
    requires IsRun(deployed, states, steps) && i < |steps|
    ensures Extends(states[i].rows, states[i + 1].rows)
  {
    SoundThroughout(deployed, states, steps, i);
    var s, step := states[i], steps[i];
    assert states[i + 1] == Next(s, step) && Uses(step, deployed);
    StepKeepsRows(deployed, s, step);
  }

  lemma {:induction false} ChainExtends(states: seq<State>, m: nat, n: nat)
    requires m <= n < |states| && forall i :: 0 <= i < |states| - 1 ==> Extends(states[i].rows, states[i + 1].rows)
    ensures Extends(states[m].rows, states[n].rows)
  {
    if m < n {
      ChainExtends(states, m, n - 1);
      assert Extends(states[n - 1].rows, states[n - 1 + 1].rows);
      ExtendsTransitive(states[m].rows, states[n - 1].rows, states[n].rows);
    }
  }

  lemma RowsExtend(deployed: set<Engine>, states: seq<State>, steps: seq<Step>, m: nat, n: nat)
    requires IsRun(deployed, states, steps) && m <= n <= |steps|
    ensures Extends(states[m].rows, states[n].rows)
  {
    forall i | 0 <= i < |steps| ensures Extends(states[i].rows, states[i + 1].rows) {
      StepExtends(deployed, states, steps, i);
    }
    ChainExtends(states, m, n);
  }

  /** A row's request never changes, and its status leaves PENDING at most once, never to change again. */
  lemma RowsAreFinal(deployed: set<Engine>, states: seq<State>, steps: seq<Step>, m: nat, n: nat, k: nat)
    requires IsRun(deployed, states, steps) && m <= n <= |steps| && k < |states[m].rows|
    ensures k < |states[n].rows|
    ensures states[n].rows[k].request == states[m].rows[k].request
    ensures states[m].rows[k].status != Pending ==> states[n].rows[k] == states[m].rows[k]
  {
    RowsExtend(deployed, states, steps, m, n);
  }

  /** In every reachable state ids are unique and a row holds a decision exactly when it is not pending. */
  lemma DecisionExactlyWhenTerminal(deployed: set<Engine>, states: seq<State>, steps: seq<Step>, n: nat, k: nat)
    requires IsRun(deployed, states, steps) && n <= |steps| && k < |states[n].rows|
    ensures var row := states[n].rows[k];
            && (row.decision.Some? <==> row.status != Pending)
            && (row.decision.Some? ==> row.decision.value.status == row.status
                                       && row.decision.value.approvalId == row.request.approvalId)
            && Unique(states[n].rows)
  {
    SoundThroughout(deployed, states, steps, n);
    assert RowDecided(states[n].rows[k]);
  }

  /**
    In every reachable state each approved row was approved by a named second person whom a deployed engine permits.
  */
  lemma ApprovedRowsArePermitted(deployed: set<Engine>, states: seq<State>, steps: seq<Step>, n: nat, k: nat)
    requires IsRun(deployed, states, steps) && n <= |steps|
    requires k < |states[n].rows| && states[n].rows[k].status == Approved
    ensures var row := states[n].rows[k];
            && row.decision.Some?
            && row.decision.value.decidedBy.Some?
            && row.decision.value.decidedBy.value != row.request.requestedBy
            && exists e :: e in deployed && MayApprove(e, row.request, row.decision.value)
  {
    SoundThroughout(deployed, states, steps, n);
    assert RowDecided(states[n].rows[k]);
    assert Authorized(deployed, states[n].rows[k].request, states[n].rows[k].decision.value);
  }
}
