/** The approval queue, in memory and in SQLite: what one operation does, and the classes that do it. */
module ApprovalQueue {
  import opened Prelude
  import opened ApprovalModel
  import opened ApprovalAuthorization

  /** One queued approval; for SQLite, one row. Rows are kept in insertion (id) order. */
  datatype Item = Item(request: Request, status: Status, decision: Option<Decision>)

  type Rows = seq<Item>

  datatype Outcome =
    | Accepted(item: Item)
    | NotFound
    | WrongId
    | Conflict
    | Denied(denial: Denial)

  datatype Submission = Submitted | BoundToAnother

  predicate Holds(rows: Rows, id: string) {
    exists k :: 0 <= k < |rows| && rows[k].request.approvalId == id
  }

  /** The position of the first item with this id. */
  function Find(rows: Rows, id: string): (k: nat)
    ensures k <= |rows|
    ensures k < |rows| ==> rows[k].request.approvalId == id
    ensures forall j :: 0 <= j < k ==> rows[j].request.approvalId != id
  {
    if rows == [] || rows[0].request.approvalId == id then 0 else 1 + Find(rows[1..], id)
  }

  predicate Unique(rows: Rows) {
    forall j, k :: 0 <= j < k < |rows| ==> rows[j].request.approvalId != rows[k].request.approvalId
  }

  // ---------------------------------------------------------------- in memory

  /** Assignment to a dict: an existing key keeps its place. */
  function Assign(rows: Rows, item: Item): Rows {
    var k := Find(rows, item.request.approvalId);
    if k < |rows| then rows[k := item] else rows + [item]
  }

  function MemSubmit(rows: Rows, request: Request): Rows {
    Assign(rows, Item(request, Pending, None))
  }

  function MemDecide(engine: Engine, rows: Rows, id: string, d: Decision): (Rows, Outcome) {
    var k := Find(rows, id);
    if k == |rows| then (rows, NotFound)
    else if d.approvalId != id then (rows, WrongId)
    else if !TransitionAllowed(rows[k].status, d.status) then (rows, Conflict)
    else match Authorize(engine, rows[k].request, d, rows[k].status)
      case Some(denial) => (rows, Denied(denial))
      case None =>
        var item := Item(rows[k].request, d.status, Some(d));
        (rows[k := item], Accepted(item))
  }

  // ---------------------------------------------------------------- SQLite

  function SqlSubmit(rows: Rows, request: Request): (Rows, Submission) {
    var k := Find(rows, request.approvalId);
    if k < |rows| then (rows, if rows[k].request == request then Submitted else BoundToAnother)
    else (rows + [Item(request, Pending, None)], Submitted)
  }

  /** Equal up to the decision time. */
  predicate SameTerminalDecision(a: Decision, b: Decision) {
    a.(decidedAt := None) == b.(decidedAt := None)
  }

  function SqlDecide(engine: Engine, rows: Rows, id: string, d: Decision): (Rows, Outcome) {
    if d.approvalId != id then (rows, WrongId)
    else
      var k := Find(rows, id);
      if k == |rows| then (rows, NotFound)
      else if rows[k].status != Pending then
        if rows[k].decision.Some? && SameTerminalDecision(rows[k].decision.value, d)
        then (rows, Accepted(rows[k])) else (rows, Conflict)
      else if !TransitionAllowed(rows[k].status, d.status) then (rows, Conflict)
      else match Authorize(engine, rows[k].request, d, rows[k].status)
        case Some(denial) => (rows, Denied(denial))
        case None =>
          var item := Item(rows[k].request, d.status, Some(d));
          (rows[k := item], Accepted(item))
  }

  // ---------------------------------------------------------------- reading

  function Get(rows: Rows, id: string): Outcome {
    var k := Find(rows, id);
    if k == |rows| then NotFound else Accepted(rows[k])
  }

  function List(rows: Rows, status: Option<Status>): Rows {
    if rows == [] then []
    else (if status.None? || rows[0].status == status.value then [rows[0]] else []) + List(rows[1..], status)
  }

  // ---------------------------------------------------------------- what storing means to a caller

  function Ids(rows: Rows): seq<string> {
    seq(|rows|, i requires 0 <= i < |rows| => rows[i].request.approvalId)
  }

  /** The item is found under its id, every other id finds what it found before, and the order of ids only grows. */
  ghost predicate Stores(rows: Rows, item: Item, rows': Rows) {
    && Unique(rows')
    && Get(rows', item.request.approvalId) == Accepted(item)
    && (forall id :: id != item.request.approvalId ==> Get(rows', id) == Get(rows, id))
    && Ids(rows') == Ids(rows) + if Holds(rows, item.request.approvalId) then [] else [item.request.approvalId]
  }

  lemma AssignStores(rows: Rows, item: Item)
    requires Unique(rows)
    ensures Stores(rows, item, Assign(rows, item))
  {
    var id, rows' := item.request.approvalId, Assign(rows, item);
    FindHolds(rows, id);
    FindUnique(rows', Find(rows, id));
    forall other | other != id ensures Get(rows', other) == Get(rows, other) {
      AssignLeaves(rows, item, other);
    }
    assert Ids(rows') == Ids(rows) + if Holds(rows, id) then [] else [id];
  }

  lemma AssignLeaves(rows: Rows, item: Item, id: string)
    requires Unique(rows) && Unique(Assign(rows, item)) && id != item.request.approvalId
    ensures Get(Assign(rows, item), id) == Get(rows, id)
  {
    var rows', k := Assign(rows, item), Find(rows, id);
    if k < |rows| {
      assert rows'[k] == rows[k];
      FindUnique(rows', k);
    }
  }

  /** A decision is accepted for a pending item of that id when it rejects, or approves as the engine allows. */
  predicate MayDecide(engine: Engine, rows: Rows, id: string, d: Decision) {
    && d.approvalId == id
    && var found := Get(rows, id);
    && found.Accepted? && found.item.status == Pending
    && (d.status == Rejected || (d.status == Approved && MayApprove(engine, found.item.request, d)))
  }

  // ---------------------------------------------------------------- the two queues agree

  datatype Op =
    | Submit(request: Request)
    | Decide(id: string, decision: Decision)
    | GetOne(id: string)
    | ListAll(filter: Option<Status>)

  datatype Reply =
    | Done(submission: Submission)
    | Decided(outcome: Outcome)
    | Got(outcome: Outcome)
    | Listed(items: Rows)

  function MemStep(engine: Engine, rows: Rows, op: Op): (Rows, Reply) {
    match op
    case Submit(r) => (MemSubmit(rows, r), Done(Submitted))
    case Decide(id, d) => var (rows', o) := MemDecide(engine, rows, id, d); (rows', Decided(o))
    case GetOne(id) => (rows, Got(Get(rows, id)))
    case ListAll(filter) => (rows, Listed(List(rows, filter)))
  }

  function SqlStep(engine: Engine, rows: Rows, op: Op): (Rows, Reply) {
    match op
    case Submit(r) => var (rows', o) := SqlSubmit(rows, r); (rows', Done(o))
    case Decide(id, d) => var (rows', o) := SqlDecide(engine, rows, id, d); (rows', Decided(o))
    case GetOne(id) => (rows, Got(Get(rows, id)))
    case ListAll(filter) => (rows, Listed(List(rows, filter)))
  }

  /** A row holds a decision exactly when it is not pending, and that decision set its status. */
  predicate RowDecided(row: Item) {
    match row.decision
    case None => row.status == Pending
    case Some(d) => row.status == d.status != Pending && d.approvalId == row.request.approvalId
  }

  predicate Decidedly(rows: Rows) {
    Unique(rows) && forall k :: 0 <= k < |rows| ==> RowDecided(rows[k])
  }

  /** A repeat of the decision that is already stored. */
  predicate IdenticalRepeat(rows: Rows, op: Op) {
    op.Decide? && op.decision.approvalId == op.id
    && exists k :: 0 <= k < |rows| && rows[k].request.approvalId == op.id
         && rows[k].decision.Some? && SameTerminalDecision(rows[k].decision.value, op.decision)
  }

  /** A decision for an id nobody submitted that names yet another id: the two queues check in opposite order. */
  predicate WrongIdForUnknown(rows: Rows, op: Op) {
    op.Decide? && op.decision.approvalId != op.id && !Holds(rows, op.id)
  }

  /** A submission of an id the queue already holds. */
  predicate Resubmission(rows: Rows, op: Op) {
    op.Submit? && Holds(rows, op.request.approvalId)
  }

  lemma FindUnique(rows: Rows, k: nat)
    requires Unique(rows) && k < |rows|
    ensures Find(rows, rows[k].request.approvalId) == k
  {}

  lemma FindHolds(rows: Rows, id: string)
    ensures Find(rows, id) < |rows| <==> Holds(rows, id)
  {}

  /** An identical repeat is about the one row the id finds. */
  lemma RepeatAt(rows: Rows, id: string, d: Decision)
    requires Unique(rows)
    ensures var k := Find(rows, id);
            IdenticalRepeat(rows, Op.Decide(id, d)) <==>
            && d.approvalId == id && k < |rows| && rows[k].decision.Some?
            && SameTerminalDecision(rows[k].decision.value, d)
  {
    forall j | 0 <= j < |rows| && rows[j].request.approvalId == id ensures j == Find(rows, id) {
      FindUnique(rows, j);
    }
  }

  lemma DecidesAgree(engine: Engine, rows: Rows, id: string, d: Decision)
    requires Decidedly(rows)
    ensures var k, mem, sql := Find(rows, id), MemDecide(engine, rows, id, d), SqlDecide(engine, rows, id, d);
            && mem.0 == sql.0 && Decidedly(sql.0)
            && (if d.approvalId != id && k == |rows| then mem.1 == NotFound && sql.1 == WrongId
                else if && d.approvalId == id && k < |rows| && rows[k].decision.Some?
                        && SameTerminalDecision(rows[k].decision.value, d)
                then mem.1 == Conflict && sql.1 == Accepted(rows[k])
                else mem.1 == sql.1)
  {
    var k := Find(rows, id);
    if k < |rows| {
      assert RowDecided(rows[k]);
    }
  }

  /** One operation on equal queues: same state after, and same reply exactly outside the two named cases. */
  lemma StepsAgree(engine: Engine, rows: Rows, op: Op)
    requires Decidedly(rows) && !Resubmission(rows, op)
    ensures MemStep(engine, rows, op).0 == SqlStep(engine, rows, op).0
    ensures Decidedly(SqlStep(engine, rows, op).0)
    ensures MemStep(engine, rows, op).1 == SqlStep(engine, rows, op).1 <==>
            !IdenticalRepeat(rows, op) && !WrongIdForUnknown(rows, op)
    ensures IdenticalRepeat(rows, op) ==>
              var k := Find(rows, op.id);
              && k < |rows|
              && MemStep(engine, rows, op).1 == Decided(Conflict)
              && SqlStep(engine, rows, op).1 == Decided(Accepted(rows[k]))
    ensures WrongIdForUnknown(rows, op) ==>
              MemStep(engine, rows, op).1 == Decided(NotFound) && SqlStep(engine, rows, op).1 == Decided(WrongId)
  {
    FindHolds(rows, if op.Decide? then op.id else "");
    match op
    case Submit(r) =>
    case Decide(id, d) =>
      RepeatAt(rows, id, d);
      DecidesAgree(engine, rows, id, d);
    case GetOne(id) =>
    case ListAll(filter) =>
  }

  /** The states a sequence of operations goes through. */
  function Trace(step: (Rows, Op) -> (Rows, Reply), rows: Rows, ops: seq<Op>): (states: seq<Rows>)
    ensures |states| == |ops| + 1 && states[0] == rows
    decreases |ops|
  {
    if ops == [] then [rows] else [rows] + Trace(step, step(rows, ops[0]).0, ops[1..])
  }

  function Replies(step: (Rows, Op) -> (Rows, Reply), rows: Rows, ops: seq<Op>): (replies: seq<Reply>)
    ensures |replies| == |ops|
    decreases |ops|
  {
    if ops == [] then [] else [step(rows, ops[0]).1] + Replies(step, step(rows, ops[0]).0, ops[1..])
  }

  function Mem(engine: Engine): (Rows, Op) -> (Rows, Reply) {
    (rows, op) => MemStep(engine, rows, op)
  }

  function Sql(engine: Engine): (Rows, Op) -> (Rows, Reply) {
    (rows, op) => SqlStep(engine, rows, op)
  }

  predicate NoResubmission(states: seq<Rows>, ops: seq<Op>)
    requires |states| == |ops| + 1
  {
    forall i :: 0 <= i < |ops| ==> !Resubmission(states[i], ops[i])
  }

  /**
    Over whole traces the SQLite queue goes through the same states and gives the same replies but for the two cases.
  */
  lemma {:induction false} SqlRefinesMem(engine: Engine, rows: Rows, ops: seq<Op>, i: nat)
    requires Decidedly(rows) && NoResubmission(Trace(Sql(engine), rows, ops), ops)
    requires i <= |ops|
    ensures Trace(Mem(engine), rows, ops)[i] == Trace(Sql(engine), rows, ops)[i]
    ensures Decidedly(Trace(Sql(engine), rows, ops)[i])
    ensures i < |ops| ==>
              var state := Trace(Sql(engine), rows, ops)[i];
              Replies(Mem(engine), rows, ops)[i] == Replies(Sql(engine), rows, ops)[i] <==>
              !IdenticalRepeat(state, ops[i]) && !WrongIdForUnknown(state, ops[i])
    decreases i
  {
    var states := Trace(Sql(engine), rows, ops);
    if ops != [] {
      assert !Resubmission(states[0], ops[0]);
      StepsAgree(engine, rows, ops[0]);
      if i > 0 {
        var next := SqlStep(engine, rows, ops[0]).0;
        var rest := Trace(Sql(engine), next, ops[1..]);
        forall j | 0 <= j < |ops| - 1 ensures !Resubmission(rest[j], ops[1..][j]) {
          assert !Resubmission(states[j + 1], ops[j + 1]);
        }
        SqlRefinesMem(engine, next, ops[1..], i - 1);
      }
    }
  }
}
