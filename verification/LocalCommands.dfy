/**
  The persist, decide and apply commands, each under the store's lock, as they change files and repository in order.
*/
module LocalCommands {
  import opened Prelude
  import opened Text
  import opened GitModel
  import opened LocalDecision
  import opened LocalReview

  datatype Decided = Undecided | RecordedOnly | Announced

  /** The store with its runs, the decision audit log beside them, and the trusted repository. */
  class Workspace {
    const w: World
    var store: Store
    var events: seq<DecisionRecord>
    var repo: Repo

    constructor (w: World, repo: Repo)
      ensures this.w == w && store == map[] && events == [] && this.repo == repo
    {
      this.w, store, events, this.repo := w, map[], [], repo;
    }

    ghost function Now(): State
      reads this
    {
      State(store, repo)
    }

    method WriteFile(dir: string, content: RunDir)
      modifies this`store
      ensures store == old(store)[dir := content]
    {
      store := store[dir := content];
    }

    /** persistRunReviewArtifactLocked: the patch first, then the summary that makes the run visible. */
    method PersistRunReview(run: Completed, crash: PersistCrash)
      modifies this`store
      ensures Now() == Next(w, old(Now()), Persist(run, crash))
    {
      var dir := w.dirOf(run.runId);
      var content := DirAt(store, dir);
      WriteFile(dir, content);
      var digest := "";
      if run.generated && run.raw != "" {
        content := content.(patch := Some(if crash.PatchTorn? then crash.partial else run.raw));
        WriteFile(dir, content);
        digest := w.sha(run.raw);
      }
      if crash.PatchTorn? || crash.BeforeSummary? { return; }
      var summary := Summary(run.runId, run.baseline, run.patchSha, digest, run.approval);
      WriteFile(dir, content.(summary := if crash.SummaryTorn? then Torn else Readable(summary)));
    }

    /** writeLocalDecisionRecord: created exclusively, so an existing file, torn or not, stays. */
    method WriteDecisionRecord(dir: string, decision: DecisionRecord, crash: DecideCrash) returns (created: bool)
      modifies this`store
      ensures created <==> DirAt(old(store), dir).decision.Absent?
      ensures var file := if crash.DecisionTorn? then Torn else Readable(decision);
              store == if created then old(store)[dir := DirAt(old(store), dir).(decision := file)] else old(store)
    {
      var content := DirAt(store, dir);
      if !content.decision.Absent? { return false; }
      WriteFile(dir, content.(decision := if crash.DecisionTorn? then Torn else Readable(decision)));
      created := true;
    }

    /** Everything up to the write: the record decided on, of a run that loads. */
    method DecisionFor(dir: string, authority: Authority, options: Options) returns (record: Option<DecisionRecord>)
      ensures Written(w, Now(), dir, authority, options) ==
              if record.Some? && DirAt(store, w.dirOf(record.value.runId)).decision.Absent? then record else None
    {
      var review := Load(store, dir);
      if review.None? { return None; }
      var decided := LocalDecision.Decide(w.receipt, authority, review.value, options);
      if decided.Err? { return None; }
      WrittenRecordBinds(w.receipt, authority, review.value, options, decided.value);
      record := Some(decided.value);
    }

    /** The write and the audit event of a record decided on; an existing decision file stops both. */
    method Announce(record: DecisionRecord, crash: DecideCrash, auditRaises: bool) returns (ending: Decided)
      modifies this`store, this`events
      ensures var target := w.dirOf(record.runId);
              if !DirAt(old(store), target).decision.Absent?
              then ending == Undecided && Now() == old(Now()) && events == old(events)
              else
                var stopped := crash.DecisionTorn? || auditRaises;
                && Now() == WithDecision(old(Now()), target, if crash.DecisionTorn? then Torn else Readable(record))
                && ending == (if stopped then RecordedOnly else Announced)
                && events == (if stopped then old(events) else old(events) + [record])
    {
      var created := WriteDecisionRecord(w.dirOf(record.runId), record, crash);
      if !created { return Undecided; }
      if crash.DecisionTorn? || auditRaises { return RecordedOnly; }
      events := events + [record];
      ending := Announced;
    }

    /** runDecisionCommandLocked: no record, a record without its audit event, or both. */
    method RunDecision(dir: string, authority: Authority, options: Options, crash: DecideCrash, auditRaises: bool)
      returns (ending: Decided)
      modifies this`store, this`events
      ensures Now() == Next(w, old(Now()), DecideRun(dir, authority, options, crash))
      ensures var record := Written(w, old(Now()), dir, authority, options);
              var stopped := crash.DecisionTorn? || auditRaises;
              && ending == (if record.None? then Undecided else if stopped then RecordedOnly else Announced)
              && events == (if record.Some? && !stopped then old(events) + [record.value] else old(events))
    {
      NextDecides(w, Now(), dir, authority, options, crash);
      var record := DecisionFor(dir, authority, options);
      if record.None? { return Undecided; }
      ending := Announce(record.value, crash, auditRaises);
    }

    /** runApplyLocked: every check in order, then the repository, then the apply record. */
    method RunApply(dir: string, yes: bool, crash: ApplyCrash) returns (applied: bool)
      modifies this`store, this`repo
      ensures Now() == Next(w, old(Now()), ApplyRun(dir, yes, crash))
      ensures applied <==> Produced(w, old(Now()), dir, yes).Some?
      ensures !applied ==> store == old(store) && repo == old(repo)
      ensures applied ==> Clean(w.git, old(repo)) && repo.head == old(repo).head
    {
      if !yes { return false; }
      var loaded := Load(store, dir);
      if loaded.None? { return false; }
      var review := loaded.value;
      if ApplyRefused(w.receipt, review).Some? { return false; }
      var patch := DirAt(store, dir).patch;
      if patch.None? { return false; }
      if Trim(patch.value, RustSpace) == "" { return false; }
      if !DigestMatches(w, review, patch.value) { return false; }
      var target := w.dirOf(review.runId);
      if !DirAt(store, target).applied.Absent? { return false; }
      if review.baseline != "" && repo.head != review.baseline { return false; }
      if !Clean(w.git, repo) { return false; }
      match w.git.patched(patch.value, repo.work)
      case None => return false;
      case Some(work) =>
        repo := repo.(work := work);
        var file := match crash case NoApplyCrash => Readable(()) case BeforeRecord => Absent case RecordTorn => Torn;
        WriteFile(target, DirAt(store, target).(applied := file));
        applied := true;
    }
  }
}
