/** Who may decide an approval: ApprovalAuthorizationEngine. */
module ApprovalAuthorization {
  import opened Prelude
  import opened ApprovalModel
  import opened Text

  datatype ReviewerPermission = ReviewerPermission(role: string, canApprove: bool)

  /** None for `actions` or `environments` means any. */
  datatype RolePermission = RolePermission(
    severities: seq<Severity>,
    actions: Option<seq<string>>,
    environments: Option<seq<string>>)

  datatype Engine = Engine(reviewers: map<string, ReviewerPermission>, roles: map<string, RolePermission>)

  datatype Denial =
    | BadTransition | MissingReviewer | SelfApproval
    | MissingRole | UnknownRole | WrongSeverity | WrongAction | WrongEnvironment
    | UnknownReviewer | ReviewerMayNotApprove

  function Normalized(role: string): string {
    Lower(Trim(role, PythonSpace))
  }

  function RoleConstraints(p: RolePermission, request: Request): Option<Denial> {
    if request.severity !in p.severities then Some(WrongSeverity)
    else if p.actions.Some? && (request.action.None? || request.action.value !in p.actions.value) then Some(WrongAction)
    else if p.environments.Some? && request.environment !in p.environments.value then Some(WrongEnvironment)
    else None
  }

  /** The outer None means no role is configured, so the role check has nothing to say. */
  function RoleCheck(engine: Engine, request: Request, decision: Decision): Option<Option<Denial>> {
    if engine.roles == map[] then None
    else match decision.metadata.reviewerRole
      case None => Some(Some(MissingRole))
      case Some(role) =>
        if Trim(role, PythonSpace) == "" then Some(Some(MissingRole))
        else if Normalized(role) !in engine.roles then Some(Some(UnknownRole))
        else Some(RoleConstraints(engine.roles[Normalized(role)], request))
  }

  function ReviewerCheck(engine: Engine, decider: string): Option<Option<Denial>> {
    if decider !in engine.reviewers then
      if engine.reviewers != map[] then Some(Some(UnknownReviewer)) else None
    else if !engine.reviewers[decider].canApprove then Some(Some(ReviewerMayNotApprove))
    else Some(None)
  }

  /** None when the decision is authorized. */
  function Authorize(engine: Engine, request: Request, decision: Decision, current: Status): Option<Denial> {
    if !TransitionAllowed(current, decision.status) then Some(BadTransition)
    else if decision.status == Rejected then None
    else match decision.decidedBy
      case None => Some(MissingReviewer)
      case Some(decider) =>
        if decider == request.requestedBy then Some(SelfApproval)
        else match RoleCheck(engine, request, decision)
          case Some(verdict) => verdict
          case None =>
            match ReviewerCheck(engine, decider)
            case Some(verdict) => verdict
            case None => None
  }

  // ---------------------------------------------------------------- what it amounts to

  /** The decision names a role that is not blank, is configured and covers severity, action and environment. */
  predicate RolePermits(engine: Engine, request: Request, decision: Decision) {
    && decision.metadata.reviewerRole.Some?
    && Normalized(decision.metadata.reviewerRole.value) != ""
    && Normalized(decision.metadata.reviewerRole.value) in engine.roles
    && var p := engine.roles[Normalized(decision.metadata.reviewerRole.value)];
    && request.severity in p.severities
    && (p.actions.Some? ==> request.action.Some? && request.action.value in p.actions.value)
    && (p.environments.Some? ==> request.environment in p.environments.value)
  }

  /** A second person decided, and the configured roles, else the configured reviewers, let that person approve. */
  predicate MayApprove(engine: Engine, request: Request, decision: Decision) {
    && decision.decidedBy.Some?
    && decision.decidedBy.value != request.requestedBy
    && (engine.roles != map[] ==> RolePermits(engine, request, decision))
    && (engine.roles == map[] && engine.reviewers != map[] ==>
          decision.decidedBy.value in engine.reviewers && engine.reviewers[decision.decidedBy.value].canApprove)
  }

  lemma RoleCheckExactly(engine: Engine, request: Request, decision: Decision)
    ensures RoleCheck(engine, request, decision).None? <==> engine.roles == map[]
    ensures RoleCheck(engine, request, decision) == Some(None) <==>
            engine.roles != map[] && RolePermits(engine, request, decision)
  {
    match decision.metadata.reviewerRole
    case None =>
    case Some(role) =>
      var trimmed := Trim(role, PythonSpace);
      assert |Normalized(role)| == |trimmed|;
      assert trimmed == "" <==> Normalized(role) == "";
  }

  /** Authorization holds exactly for rejections and permitted approvals of a pending request. */
  lemma AuthorizedExactly(engine: Engine, request: Request, decision: Decision, current: Status)
    ensures Authorize(engine, request, decision, current).None? <==>
            && current == Pending
            && (decision.status == Rejected || (decision.status == Approved && MayApprove(engine, request, decision)))
  {
    assert TransitionAllowed(current, decision.status) <==> current == Pending && decision.status != Pending;
    if current == Pending && decision.status == Approved {
      RoleCheckExactly(engine, request, decision);
    }
  }
}
