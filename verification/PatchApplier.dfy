/** The applier of one process, run by one thread: the module-level reservation set, the logs, the target. */
module PatchApplier {
  import opened Prelude
  import opened GitModel
  import opened ApprovedApply

  /** How a call ends: refused by a check, applied and recorded, or applied when the audit write raised. */
  datatype Ending = Refusing(refusal: Refusal) | Applied | AppliedOnly

  class Applier {
    const g: Git
    var used: set<Key>
    var logs: Logs
    var repo: Repo

    constructor (g: Git, logs: Logs, repo: Repo)
      ensures this.g == g && used == {} && this.logs == logs && this.repo == repo
    {
      this.g, this.used, this.logs, this.repo := g, {}, logs, repo;
    }

    method ReserveUse(key: Key) returns (reserved: bool)
      modifies this`used
      ensures reserved <==> key !in old(used)
      ensures used == old(used) + {key}
    {
      if key in used {
        return false;
      }
      used := used + {key};
      return true;
    }

    method ReleaseUse(key: Key)
      modifies this`used
      ensures used == old(used) - {key}
    {
      used := used - {key};
    }

    /** `git apply --check` and `git apply`: None when the patch does not apply. */
    method GitApply(text: string) returns (applied: bool)
      modifies this`repo
      ensures applied <==> g.patched(text, old(repo).work).Some?
      ensures applied ==> repo == old(repo).(work := g.patched(text, old(repo).work).value)
      ensures !applied ==> repo == old(repo)
    {
      match g.patched(text, repo.work)
      case None => applied := false;
      case Some(work) => repo, applied := repo.(work := work), true;
    }

    /**
      A refusal leaves process, logs and repository as they were. Without one the patch is written and the key
      stays reserved, and it is recorded unless the audit write raises.
    */
    method ApplyApprovedPatch(call: Call, recordRaises: bool) returns (ending: Ending)
      modifies this
      ensures var refusal := Refused(g, old(used), old(logs), old(repo), call);
              && ending == (if refusal.Some? then Refusing(refusal.value)
                           else if recordRaises then AppliedOnly else Applied)
              && (refusal.Some? ==> used == old(used) && logs == old(logs) && repo == old(repo))
              && (refusal.None? ==>
                    && used == old(used) + {KeyOf(call)}
                    && logs == (if recordRaises then old(logs) else RecordedBy(old(logs), call))
                    && repo.head == old(repo).head
                    && g.patched(call.patch.text, old(repo).work) == Some(repo.work))
      // Whatever became of the record, this process never writes the key again.
      ensures !ending.Refusing? ==> Refused(g, used, logs, repo, call).Some?
    {
      if Admission(call).Some? { return Refusing(Admission(call).value); }
      if !Clean(g, repo) { return Refusing(NotClean); }
      if !AtBaseline(repo, call.patch.baseline) { return Refusing(NotAtBaseline); }
      var key := KeyOf(call);
      if call.logger.None? { return Refusing(NoLogger); }
      if !Unrecorded(logs, call) { return Refusing(AlreadyUsed); }
      var reserved := ReserveUse(key);
      if !reserved { return Refusing(AlreadyUsed); }
      var applied := GitApply(call.patch.text);
      if !applied {
        ReleaseUse(key);
        return Refusing(DoesNotApply);
      }
      if recordRaises { return AppliedOnly; }
      logs := RecordedBy(logs, call);
      ending := Applied;
    }
  }
}
