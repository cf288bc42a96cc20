/**
  The replay scan reads the log of the logger a call was given, and no other. A patch applied and recorded
  through one logger can be applied again through another, once the process is gone and the target reset.
*/
module SecondLogger {
  import opened Prelude
  import opened GitModel
  import opened ApprovedApply

  function Through(call: Call, logger: nat): Call {
    call.(logger := Some(logger))
  }

  function Between(repo: Repo): seq<Step> {
    [Crash, Outside(repo)]
  }

  function Twice(repo: Repo, call: Call, other: nat): seq<Step> {
    UndisturbedSteps(0, call) + Between(repo) + UndisturbedSteps(0, Through(call, other))
  }

  function Start(repo: Repo): State {
    State(map[], {}, map[], repo)
  }

  /** Recorded, forgotten by the process, and reset. */
  function Restarted(repo: Repo, call: Call): State
    requires call.logger.Some?
  {
    State(map[], {}, RecordedBy(map[], call), repo)
  }

  lemma CrashAndReset(g: Git, s: State, repo: Repo)
    ensures Exec(g, s, Between(repo)) == Some(State(map[], {}, s.logs, repo))
  {
    var crashed := s.(threads := map[], used := {});
    ExecFrom(g, s, Between(repo), 0);
    ExecFrom(g, crashed, Between(repo), 1);
    assert Between(repo)[2..] == [];
  }

  lemma Restarts(g: Git, repo: Repo, call: Call)
    requires Refused(g, {}, map[], repo, call).None?
    ensures Exec(g, Start(repo), UndisturbedSteps(0, call) + Between(repo)) == Some(Restarted(repo, call))
  {
    UndisturbedCall(g, Start(repo), 0, call);
    ExecConcat(g, Start(repo), UndisturbedSteps(0, call), Between(repo));
    CrashAndReset(g, Exec(g, Start(repo), UndisturbedSteps(0, call)).value, repo);
  }

  lemma SecondAccepted(g: Git, repo: Repo, call: Call, other: nat)
    requires Refused(g, {}, map[], repo, call).None? && call.logger != Some(other)
    ensures Refused(g, {}, RecordedBy(map[], call), repo, Through(call, other)).None?
  {
    assert KeyOf(Through(call, other)) == KeyOf(call);
    assert Admission(Through(call, other)) == Admission(call);
  }

  lemma SecondUnderway(g: Git, repo: Repo, call: Call, other: nat)
    requires Refused(g, {}, map[], repo, call).None? && call.logger != Some(other)
    ensures var again, second := Restarted(repo, call), Through(call, other);
            Exec(g, Start(repo), UndisturbedSteps(0, call) + Between(repo) + UndisturbedSteps(0, second)[..6])
            == Some(At(Using(again, second), 0, second, Checked))
    ensures Exec(g, Start(repo), Twice(repo, call, other)).Some?
  {
    var again, first := Restarted(repo, call), UndisturbedSteps(0, call) + Between(repo);
    Restarts(g, repo, call);
    SecondAccepted(g, repo, call, other);
    UndisturbedCall(g, again, 0, Through(call, other));
    UndisturbedUntilApply(g, again, 0, Through(call, other));
    ExecConcat(g, Start(repo), first, UndisturbedSteps(0, Through(call, other)));
    ExecConcat(g, Start(repo), first, UndisturbedSteps(0, Through(call, other))[..6]);
  }

  /** Steps 6 and 16 write the same key; when the second does, the first logger's log holds it. */
  lemma WrittenThroughBoth(g: Git, repo: Repo, call: Call, other: nat)
    requires Refused(g, {}, map[], repo, call).None? && call.logger != Some(other)
    ensures var steps := Twice(repo, call, other);
            && Exec(g, Start(repo), steps).Some?
            && var states := Visited(g, Start(repo), steps);
            && IsRun(g, states, steps) && |steps| == 18
            && WritesKey(states, steps, 6, KeyOf(call)) && WritesKey(states, steps, 16, KeyOf(call))
            && KeyOf(call) in LogOf(states[16].logs, call.logger.value)
  {
    var steps := Twice(repo, call, other);
    SecondUnderway(g, repo, call, other);
    UndisturbedUntilApply(g, Start(repo), 0, call);
    ExecIsRun(g, Start(repo), steps);
    TwiceShape(repo, call, other);
    VisitedAt(g, Start(repo), steps, 6);
    VisitedAt(g, Start(repo), steps, 16);
  }

  lemma TwiceShape(repo: Repo, call: Call, other: nat)
    ensures var steps, again := Twice(repo, call, other), Through(call, other);
            && |steps| == 18 && steps[6] == Apply(0) && steps[16] == Apply(0)
            && steps[..6] == UndisturbedSteps(0, call)[..6]
            && steps[..16] == UndisturbedSteps(0, call) + Between(repo) + UndisturbedSteps(0, again)[..6]
  {}
}
