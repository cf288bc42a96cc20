/** Local decision records: how the decide command makes one, and when it is accepted. */
module LocalDecision {
  import opened Prelude
  import opened Text

  /** The schema names the reader knows, and any other text; likewise below. */
  datatype Schema = Version1 | Version2 | OtherSchema(text: string)

  datatype Status = Approved | Rejected | OtherStatus(text: string)

  datatype Protocol = EngineV1 | OtherProtocol(text: string)

  datatype AuthorityName = Local | SharedApi | OtherAuthority(text: string)

  datatype DecisionRecord = DecisionRecord(
    schema: Schema, runId: string, approvalId: string, status: Status,
    decidedAt: string, decidedBy: string, reason: string,
    patchSha: string, baseline: string, protocol: Protocol, version: string,
    authority: AuthorityName, synchronized: bool, receipt: string)

  /** Every field of a record but the receipt itself. */
  datatype ReceiptPayload = ReceiptPayload(
    schema: Schema, runId: string, approvalId: string, status: Status,
    decidedAt: string, decidedBy: string, reason: string,
    patchSha: string, baseline: string, protocol: Protocol, version: string,
    authority: AuthorityName, synchronized: bool)

  /** SHA-256 of the JSON of a payload. */
  type Hash = ReceiptPayload -> string

  function Payload(d: DecisionRecord): ReceiptPayload {
    ReceiptPayload(d.schema, d.runId, d.approvalId, d.status, d.decidedAt, d.decidedBy, d.reason,
                   d.patchSha, d.baseline, d.protocol, d.version, d.authority, d.synchronized)
  }

  function Receipt(h: Hash, d: DecisionRecord): string {
    h(Payload(d))
  }

  datatype Approval = Approval(required: bool, approvalId: string, target: string)

  /** The loaded review of a run. `patchSha` is the engine's digest, `patchDigest` that of the stored patch. */
  datatype Review = Review(
    runId: string, baseline: string, patchSha: string, patchDigest: string, approval: Approval,
    decision: Option<DecisionRecord>, decisionCorrupt: bool, applied: bool)

  // ---------------------------------------------------------------- accepting a record

  datatype Invalid =
    | Corrupt | UnsupportedSchema | WrongRun | UnsupportedStatus
    | MissingDigest | WrongDigest | MissingBaseline | WrongBaseline
    | UnsupportedProtocol | MissingVersion | MissingApproval | WrongApproval
    | LocalClaimsSync | SharedWithoutApproval | SharedNotSynchronized | UnsupportedAuthority
    | MissingReceipt | WrongReceipt

  function CheckBinding(review: Review, d: DecisionRecord): Option<Invalid> {
    if d.schema != Version2 && d.schema != Version1 then Some(UnsupportedSchema)
    else if d.runId != review.runId then Some(WrongRun)
    else if d.status != Approved && d.status != Rejected then Some(UnsupportedStatus)
    else if d.patchSha == "" then Some(MissingDigest)
    else if review.patchSha != "" && d.patchSha != review.patchSha then Some(WrongDigest)
    else if d.baseline == "" then Some(MissingBaseline)
    else if review.baseline != "" && d.baseline != review.baseline then Some(WrongBaseline)
    else None
  }

  function CheckAuthority(review: Review, d: DecisionRecord): Option<Invalid> {
    if d.authority == Local then
      if d.synchronized then Some(LocalClaimsSync) else None
    else if d.authority == SharedApi then
      if !review.approval.required then Some(SharedWithoutApproval)
      else if !d.synchronized then Some(SharedNotSynchronized)
      else None
    else Some(UnsupportedAuthority)
  }

  function CheckVersion2(h: Hash, review: Review, d: DecisionRecord): Option<Invalid> {
    if d.protocol != EngineV1 then Some(UnsupportedProtocol)
    else if d.version == "" then Some(MissingVersion)
    else if review.approval.required && d.approvalId == "" then Some(MissingApproval)
    else if review.approval.required && d.approvalId != review.approval.approvalId then Some(WrongApproval)
    else if CheckAuthority(review, d).Some? then CheckAuthority(review, d)
    else if d.receipt == "" then Some(MissingReceipt)
    else if d.receipt != Receipt(h, d) then Some(WrongReceipt)
    else None
  }

  /** validateDecisionRecordForRun: None when acceptable; a run without a decision is. */
  function Validate(h: Hash, review: Review): Option<Invalid> {
    if review.decisionCorrupt then Some(Corrupt)
    else match review.decision
      case None => None
      case Some(d) =>
        if CheckBinding(review, d).Some? then CheckBinding(review, d)
        else if d.schema == Version1 then None
        else CheckVersion2(h, review, d)
  }

  datatype ApplyRefusal = InvalidDecision(invalid: Invalid) | WasRejected | NeedsApproval | NotApproved

  /** assertDecisionAllowsApply. */
  function ApplyRefused(h: Hash, review: Review): Option<ApplyRefusal> {
    match Validate(h, review)
    case Some(invalid) => Some(InvalidDecision(invalid))
    case None =>
      if review.decision.Some? && review.decision.value.status == Rejected then Some(WasRejected)
      else if review.approval.required then
        if review.decision.None? then Some(NeedsApproval)
        else if review.decision.value.status != Approved then Some(NotApproved)
        else None
      else None
  }

  // ---------------------------------------------------------------- making a record

  /** What the command line and the clock supply. */
  datatype Options = Options(status: Status, yes: bool, reason: string, decidedBy: string, defaultActor: string,
                             now: string, version: string)

  /** What the shared approval API answers about one approval. */
  datatype View = View(approvalId: string, pending: bool, status: Status, patchSha: string, baseline: string,
                       expired: bool, decisionStatus: Status, decidedBy: string, decidedAt: string, reason: string)

  /** Unreachable services answer None. */
  datatype Authority = LocalOnly | SharedService(idWellFormed: bool, current: Option<View>, updated: Option<View>)

  datatype Sync = Sync(authority: AuthorityName, synchronized: bool, decidedAt: string, decidedBy: string,
      reason: string)

  datatype DecideError =
    | NotConfirmed | ReasonRequired | AlreadyApplied | InvalidState | AlreadyDecided
    | NoDigest | NoBaseline | NoApprovalId | NoTarget | TargetMismatch
    | ApprovalNotRequired | BadApprovalId | ApiFailed | BindingMismatch | AlreadyOtherwise | Expired
    | UnexpectedState | Inconsistent | Incomplete | DifferentDetails

  /** validateReviewBindingForDecision. */
  function BindingError(review: Review): Option<DecideError> {
    if review.patchSha == "" then Some(NoDigest)
    else if review.baseline == "" then Some(NoBaseline)
    else if !review.approval.required then None
    else if review.approval.approvalId == "" then Some(NoApprovalId)
    else if review.approval.target == "" then Some(NoTarget)
    else if review.approval.target != review.patchSha then Some(TargetMismatch)
    else None
  }

  predicate ViewBound(view: View, review: Review) {
    view.approvalId == review.approval.approvalId && view.patchSha == review.patchSha &&
        view.baseline == review.baseline
  }

  /** canonicalSharedDecision. */
  function Canonical(view: View, d: DecisionRecord): Result<Sync, DecideError> {
    if view.decisionStatus != d.status then Err(Inconsistent)
    else if view.decidedBy == "" || view.decidedAt == "" || view.reason == "" then Err(Incomplete)
    else if view.decidedBy != d.decidedBy || view.reason != d.reason then Err(DifferentDetails)
    else Ok(Sync(SharedApi, true, view.decidedAt, view.decidedBy, view.reason))
  }

  /** synchronizeSharedApprovalDecision. */
  function Synchronize(authority: Authority, review: Review, d: DecisionRecord): Result<Sync, DecideError> {
    match authority
    case LocalOnly => Ok(Sync(Local, false, "", "", ""))
    case SharedService(idWellFormed, current, updated) =>
      if !review.approval.required then Err(ApprovalNotRequired)
      else if d.approvalId == "" then Err(NoApprovalId)
      else if !idWellFormed then Err(BadApprovalId)
      else if review.approval.target != review.patchSha then Err(TargetMismatch)
      else if current.None? then Err(ApiFailed)
      else if !ViewBound(current.value, review) then Err(BindingMismatch)
      else if !current.value.pending && current.value.status == d.status then Canonical(current.value, d)
      else if !current.value.pending then Err(AlreadyOtherwise)
      else if d.status == Approved && current.value.expired then Err(Expired)
      else if updated.None? then Err(ApiFailed)
      else if !ViewBound(updated.value, review) then Err(BindingMismatch)
      else if updated.value.pending || updated.value.status != d.status then Err(UnexpectedState)
      else Canonical(updated.value, d)
  }

  function OrElse(a: string, b: string): string {
    if a != "" then a else b
  }

  /** The checks made before the shared authority is asked. */
  function Refused(review: Review, o: Options): Option<DecideError> {
    if o.status == Approved && !o.yes then Some(NotConfirmed)
    else if o.status == Rejected && Trim(o.reason, RustSpace) == "" then Some(ReasonRequired)
    else if review.applied then Some(AlreadyApplied)
    else if review.decisionCorrupt then Some(InvalidState)
    else if review.decision.Some? then Some(AlreadyDecided)
    else BindingError(review)
  }

  function Draft(review: Review, o: Options): DecisionRecord {
    DecisionRecord(Version2, review.runId, review.approval.approvalId, o.status, o.now,
                   OrElse(Trim(o.decidedBy, RustSpace), o.defaultActor), Trim(o.reason, RustSpace),
                   review.patchSha, review.baseline, EngineV1, o.version, OtherAuthority(""), false, "")
  }

  /** Take over what the authority settled and seal the record with its receipt. */
  function Sealed(h: Hash, draft: DecisionRecord, sync: Sync): DecisionRecord {
    var d := draft.(authority := sync.authority, synchronized := sync.synchronized,
                    decidedAt := OrElse(sync.decidedAt, draft.decidedAt),
                    decidedBy := OrElse(sync.decidedBy, draft.decidedBy),
                    reason := OrElse(sync.reason, draft.reason));
    d.(receipt := Receipt(h, d))
  }

  /** runDecisionCommandLocked up to the write: the record it writes, or why it does not. */
  function Decide(h: Hash, authority: Authority, review: Review, o: Options): Result<DecisionRecord, DecideError> {
    match Refused(review, o)
    case Some(e) => Err(e)
    case None =>
      match Synchronize(authority, review, Draft(review, o))
      case Err(e) => Err(e)
      case Ok(sync) => Ok(Sealed(h, Draft(review, o), sync))
  }

  lemma DecideSeals(h: Hash, authority: Authority, review: Review, o: Options, sync: Sync)
    requires Refused(review, o).None? && Synchronize(authority, review, Draft(review, o)) == Ok(sync)
    ensures Decide(h, authority, review, o) == Ok(Sealed(h, Draft(review, o), sync))
  {}

  // ---------------------------------------------------------------- results

  /** The commands offer two decisions. */
  predicate Offered(o: Options) {
    o.status == Approved || o.status == Rejected
  }

  /** The authority answers for itself, and a shared one only for runs that require approval. */
  lemma AuthorityAnswers(authority: Authority, review: Review, d: DecisionRecord, sync: Sync)
    requires Synchronize(authority, review, d) == Ok(sync)
    ensures sync == Sync(Local, false, "", "", "")
            || (sync.authority == SharedApi && sync.synchronized && review.approval.required
                && sync.decidedBy == d.decidedBy && sync.reason == d.reason)
  {}

  lemma UnrefusedFacts(review: Review, o: Options)
    requires Refused(review, o).None?
    ensures o.status == Approved ==> o.yes
    ensures o.status == Rejected ==> Trim(o.reason, RustSpace) != ""
    ensures !review.applied && !review.decisionCorrupt && review.decision.None?
    ensures review.patchSha != "" && review.baseline != ""
    ensures review.approval.required ==> review.approval.approvalId != "" && review.approval.target == review.patchSha
  {}

  lemma DecideParts(h: Hash, authority: Authority, review: Review, o: Options, d: DecisionRecord)
    requires Decide(h, authority, review, o) == Ok(d)
    ensures Refused(review, o).None?
    ensures Synchronize(authority, review, Draft(review, o)).Ok?
    ensures d == Sealed(h, Draft(review, o), Synchronize(authority, review, Draft(review, o)).value)
  {}

  /** Sealing takes over what was settled, keeps the binding, and adds the receipt of all that. */
  lemma SealedFacts(h: Hash, draft: DecisionRecord, sync: Sync)
    ensures var d := Sealed(h, draft, sync);
            && d.schema == draft.schema && d.runId == draft.runId && d.approvalId == draft.approvalId
            && d.status == draft.status && d.patchSha == draft.patchSha && d.baseline == draft.baseline
            && d.protocol == draft.protocol && d.version == draft.version
            && d.authority == sync.authority && d.synchronized == sync.synchronized
            && (draft.reason != "" ==> d.reason != "")
            && d.receipt == Receipt(h, d)
  {}

  /** A written record carries the run, digest, baseline and approval it was made for, and its own receipt. */
  lemma WrittenRecordBinds(h: Hash, authority: Authority, review: Review, o: Options, d: DecisionRecord)
    requires Decide(h, authority, review, o) == Ok(d)
    ensures d.schema == Version2 && d.protocol == EngineV1 && d.version == o.version
    ensures d.status == o.status && d.runId == review.runId
    ensures d.patchSha == review.patchSha != "" && d.baseline == review.baseline != ""
    ensures d.approvalId == review.approval.approvalId
    ensures review.approval.required ==> d.approvalId != "" && review.approval.target == d.patchSha
    ensures o.status == Approved ==> o.yes
    ensures o.status == Rejected ==> d.reason != ""
    ensures d.receipt == Receipt(h, d)
    ensures CheckAuthority(review, d).None?
    ensures !review.applied && !review.decisionCorrupt && review.decision.None?
  {
    DecideParts(h, authority, review, o, d);
    UnrefusedFacts(review, o);
    var draft := Draft(review, o);
    var sync := Synchronize(authority, review, draft).value;
    AuthorityAnswers(authority, review, draft, sync);
    SealedFacts(h, draft, sync);
  }

  /** A record bound to the review by its fields. */
  predicate BoundTo(review: Review, d: DecisionRecord) {
    && d.runId == review.runId && (d.status == Approved || d.status == Rejected)
    && d.patchSha != "" && d.patchSha == review.patchSha
    && d.baseline != "" && d.baseline == review.baseline
  }

  lemma BoundChecks(review: Review, d: DecisionRecord)
    requires review.patchSha != "" && review.baseline != ""
    ensures CheckBinding(review, d).None? <==> (d.schema == Version1 || d.schema == Version2) && BoundTo(review, d)
  {}

  /** What is left to check of a bound version 2 record with its own receipt. */
  lemma Version2Checks(h: Hash, review: Review, d: DecisionRecord)
    requires d.protocol == EngineV1 && CheckAuthority(review, d).None? && d.receipt == Receipt(h, d) != ""
    requires review.approval.required ==> d.approvalId != "" && d.approvalId == review.approval.approvalId
    ensures CheckVersion2(h, review, d).None? <==> d.version != ""
  {}

  /** Validation of a review that holds a record. */
  lemma ValidateParts(h: Hash, review: Review, d: DecisionRecord)
    requires !review.decisionCorrupt
    ensures Validate(h, review.(decision := Some(d))).None? <==>
            CheckBinding(review, d).None? && (d.schema == Version1 || CheckVersion2(h, review, d).None?)
  {
    RestChecks(h, review, d);
  }

  /** The checks read the review's own fields, not the record it holds. */
  lemma RestChecks(h: Hash, review: Review, d: DecisionRecord)
    ensures CheckBinding(review.(decision := Some(d)), d) == CheckBinding(review, d)
    ensures CheckVersion2(h, review.(decision := Some(d)), d) == CheckVersion2(h, review, d)
  {}

  lemma ApplyAllowed(h: Hash, review: Review, d: DecisionRecord)
    requires Validate(h, review.(decision := Some(d))).None? && (d.status == Approved || d.status == Rejected)
    ensures ApplyRefused(h, review.(decision := Some(d))).None? <==> d.status == Approved
  {}

  /** Under either authority, a written record is accepted for its run exactly when the build has a version. */
  lemma WrittenRecordAccepted(h: Hash, authority: Authority, review: Review, o: Options, d: DecisionRecord)
    requires Offered(o) && Decide(h, authority, review, o) == Ok(d) && d.receipt != ""
    ensures Validate(h, review.(decision := Some(d))).None? <==> o.version != ""
    ensures o.version != "" ==>
              (ApplyRefused(h, review.(decision := Some(d))).None? <==> o.status == Approved)
  {
    WrittenRecordBinds(h, authority, review, o, d);
    BoundChecks(review, d);
    Version2Checks(h, review, d);
    ValidateParts(h, review, d);
    if o.version != "" {
      ApplyAllowed(h, review, d);
    }
  }

  /** An edit of the file that leaves either the receipt or everything else alone; every single-field edit is one. */
  predicate Edited(d: DecisionRecord, e: DecisionRecord) {
    e != d && (e.receipt == d.receipt || Payload(e) == Payload(d))
  }

  /** Such an edit of a version 2 record that leaves it at version 2 is rejected, for every run. */
  lemma EditRejected(h: Hash, review: Review, d: DecisionRecord, e: DecisionRecord)
    requires d.receipt == Receipt(h, d) && Edited(d, e) && e.schema == Version2
    requires h(Payload(e)) == h(Payload(d)) ==> Payload(e) == Payload(d)
    ensures Validate(h, review.(decision := Some(e))).Some?
  {
    assert Payload(e) == Payload(d) && e.receipt == d.receipt ==> e == d;
  }

  lemma OldSchemaValid(h: Hash, review: Review, e: DecisionRecord)
    requires !review.decisionCorrupt && review.patchSha != "" && review.baseline != "" && e.schema != Version2
    ensures Validate(h, review.(decision := Some(e))).None? <==> e.schema == Version1 && BoundTo(review, e)
  {
    ValidateParts(h, review, e);
    BoundChecks(review, e);
  }

  /** Which edits that keep the receipt are accepted: none, or a downgrade to version 1 that keeps the binding. */
  lemma EditAcceptedExactly(h: Hash, authority: Authority, review: Review, o: Options, d: DecisionRecord,
      e: DecisionRecord)
    requires Offered(o) && Decide(h, authority, review, o) == Ok(d) && d.receipt != "" && o.version != ""
    requires e.receipt == d.receipt && (h(Payload(e)) == h(Payload(d)) ==> Payload(e) == Payload(d))
    ensures Validate(h, review.(decision := Some(e))).None? <==>
            e == d || (e.schema == Version1 && e.runId == d.runId && e.patchSha == d.patchSha
                       && e.baseline == d.baseline && (e.status == Approved || e.status == Rejected))
  {
    WrittenRecordBinds(h, authority, review, o, d);
    if e == d {
      WrittenRecordAccepted(h, authority, review, o, d);
    } else if e.schema == Version2 {
      EditRejected(h, review, d, e);
    } else {
      OldSchemaValid(h, review, e);
    }
  }
}
