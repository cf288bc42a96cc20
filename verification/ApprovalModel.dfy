/** Approval requests and decisions, as the queue, the authorization engine and apply see them. */
module ApprovalModel {
  import opened Prelude

  datatype Status = Pending | Approved | Rejected

  datatype Severity = LowSeverity | MediumSeverity | HighSeverity | CriticalSeverity

  /** `rest` stands for the fields no modelled check reads. */
  datatype Request = Request(
    approvalId: string,
    requestedBy: string,
    environment: string,
    toolName: string,
    action: Option<string>,
    target: Option<string>,
    policyId: Option<string>,
    severity: Severity,
    baseline: Option<string>,
    forcedApproval: bool,
    rest: string)

  datatype DecisionMetadata = DecisionMetadata(
    reviewerRole: Option<string>,
    patchDigest: Option<string>,
    baseline: Option<string>,
    rest: string)

  datatype Decision = Decision(
    approvalId: string,
    status: Status,
    approved: bool,
    decidedBy: Option<string>,
    decidedAt: Option<string>,
    reason: string,
    metadata: DecisionMetadata)

  /** ApprovalStateMachine: a pending request may be approved or rejected, nothing else. */
  predicate TransitionAllowed(current: Status, next: Status) {
    (current, next) in {(Pending, Approved), (Pending, Rejected)}
  }
}
