/**
  Runs in which nobody outside touches the repository and one approval is still applied twice:
  two approvals are in flight, the second undoes the first, and the process dies before either
  application is recorded. They show that the condition of ApprovedApply.WrittenAtMostOnce cannot
  be weakened to "nobody outside resets the target".
*/
module ReverseApproval {
  import opened Prelude
  import opened GitModel
  import opened ApprovedApply

  /** Two admitted approvals; from the tree `work` at the baseline, the patch of `r` undoes the patch of `f`. */
  predicate Undoes(g: Git, repo: Repo, f: Call, r: Call, changed: string) {
    && Refused(g, {}, map[], repo, f).None?
    && Admission(r).None? && r.logger.Some? && AtBaseline(repo, r.patch.baseline)
    && KeyOf(f) != KeyOf(r)
    && g.patched(f.patch.text, repo.work) == Some(changed)
    && g.patched(r.patch.text, changed) == Some(repo.work)
  }

  /** The second approval passes its checks while the tree is clean. */
  function Opening(r: Call): seq<Step> {
    [Spawn(1, r), SeeClean(1), SeeBaseline(1), ScanLog(1), Reserve(1)]
  }

  function Closing(): seq<Step> {
    [Apply(0), CheckApplies(1), Apply(1), Crash]
  }

  function Taken(f: Call, r: Call): seq<Step> {
    Opening(r) + UndisturbedSteps(0, f)[..6] + Closing() + UndisturbedSteps(2, f)
  }

  function Quiet(repo: Repo): State {
    State(map[], {}, map[], repo)
  }

  function Opened(repo: Repo, r: Call): State {
    State(map[1 := Thread(r, Phase.Reserved)], {KeyOf(r)}, map[], repo)
  }

  lemma Opens(g: Git, repo: Repo, f: Call, r: Call, changed: string)
    requires Undoes(g, repo, f, r, changed)
    ensures Exec(g, Quiet(repo), Opening(r)) == Some(Opened(repo, r))
  {
    UndisturbedUntilReserve(g, Quiet(repo), 1, r);
    assert Opening(r) == UndisturbedSteps(1, r)[..5];
    assert At(Using(Quiet(repo), r), 1, r, Phase.Reserved) == Opened(repo, r);
  }

  /** Both calls reserved, the first checked; then with the first written; then undone. */
  function Both(repo: Repo, f: Call, r: Call, first: Phase, second: Phase): State {
    State(map[1 := Thread(r, second), 0 := Thread(f, first)], {KeyOf(r)} + {KeyOf(f)}, map[], repo)
  }

  lemma FirstApplies(g: Git, repo: Repo, f: Call, r: Call, changed: string)
    requires Undoes(g, repo, f, r, changed)
    ensures Next(g, Both(repo, f, r, Checked, Phase.Reserved), Apply(0))
            == Some(Both(repo.(work := changed), f, r, Written, Phase.Reserved))
  {
    BothMoves(repo, f, r, Checked, Phase.Reserved, Written);
  }

  lemma BothMoves(repo: Repo, f: Call, r: Call, first: Phase, second: Phase, next: Phase)
    ensures Move(Both(repo, f, r, first, second), 0, next) == Both(repo, f, r, next, second)
    ensures Move(Both(repo, f, r, first, second), 1, next) == Both(repo, f, r, first, next)
  {
    assert Move(Both(repo, f, r, first, second), 0, next).threads == Both(repo, f, r, next, second).threads;
    assert Move(Both(repo, f, r, first, second), 1, next).threads == Both(repo, f, r, first, next).threads;
  }

  lemma SecondApplies(g: Git, repo: Repo, f: Call, r: Call, changed: string)
    requires Undoes(g, repo, f, r, changed)
    ensures var mid := repo.(work := changed);
            && Next(g, Both(mid, f, r, Written, Phase.Reserved), CheckApplies(1))
               == Some(Both(mid, f, r, Written, Checked))
            && Next(g, Both(mid, f, r, Written, Checked), Apply(1)) == Some(Both(repo, f, r, Written, Written))
  {
    BothMoves(repo.(work := changed), f, r, Written, Phase.Reserved, Checked);
    BothMoves(repo.(work := changed), f, r, Written, Checked, Written);
  }

  lemma Closes(g: Git, repo: Repo, f: Call, r: Call, changed: string)
    requires Undoes(g, repo, f, r, changed)
    ensures Exec(g, Both(repo, f, r, Checked, Phase.Reserved), Closing()) == Some(Quiet(repo))
  {
    var steps, mid := Closing(), repo.(work := changed);
    FirstApplies(g, repo, f, r, changed);
    SecondApplies(g, repo, f, r, changed);
    ExecFrom(g, Both(repo, f, r, Checked, Phase.Reserved), steps, 0);
    ExecFrom(g, Both(mid, f, r, Written, Phase.Reserved), steps, 1);
    ExecFrom(g, Both(mid, f, r, Written, Checked), steps, 2);
    ExecFrom(g, Both(repo, f, r, Written, Written), steps, 3);
    assert steps[4..] == [];
  }

  /** Until the crash: `f` is written, `r` undoes it, and nothing of it is left. */
  function UntilFirst(f: Call, r: Call): seq<Step> {
    Opening(r) + UndisturbedSteps(0, f)[..6]
  }

  lemma FirstWrite(g: Git, repo: Repo, f: Call, r: Call, changed: string)
    requires Undoes(g, repo, f, r, changed)
    ensures Exec(g, Quiet(repo), UntilFirst(f, r)) ==
            Some(Both(repo, f, r, Checked, Phase.Reserved))
    ensures Exec(g, Quiet(repo), UntilFirst(f, r) + Closing()) == Some(Quiet(repo))
  {
    var quiet, start := Quiet(repo), Opened(repo, r);
    Opens(g, repo, f, r, changed);
    UndisturbedUntilApply(g, start, 0, f);
    ExecConcat(g, quiet, Opening(r), UndisturbedSteps(0, f)[..6]);
    assert At(Using(start, f), 0, f, Checked) == Both(repo, f, r, Checked, Phase.Reserved);
    Closes(g, repo, f, r, changed);
    ExecConcat(g, quiet, UntilFirst(f, r), Closing());
  }

  function UntilSecond(f: Call, r: Call): seq<Step> {
    UntilFirst(f, r) + Closing() + UndisturbedSteps(2, f)[..6]
  }

  lemma SecondWrite(g: Git, repo: Repo, f: Call, r: Call, changed: string)
    requires Undoes(g, repo, f, r, changed)
    ensures Exec(g, Quiet(repo), UntilSecond(f, r)) ==
            Some(At(Using(Quiet(repo), f), 2, f, Checked))
    ensures Exec(g, Quiet(repo), Taken(f, r)).Some?
  {
    var quiet, c := Quiet(repo), UntilFirst(f, r) + Closing();
    FirstWrite(g, repo, f, r, changed);
    UndisturbedUntilApply(g, quiet, 2, f);
    ExecConcat(g, quiet, c, UndisturbedSteps(2, f)[..6]);
    UndisturbedCall(g, quiet, 2, f);
    ExecConcat(g, quiet, c, UndisturbedSteps(2, f));
  }

  /** No step of this run is an outside one, and steps 11 and 21 write the same approval's patch. */
  lemma WrittenTwiceUntouched(g: Git, repo: Repo, f: Call, r: Call, changed: string)
    requires Undoes(g, repo, f, r, changed)
    ensures var steps := Taken(f, r);
            && Exec(g, Quiet(repo), steps).Some?
            && var states := Visited(g, Quiet(repo), steps);
            && IsRun(g, states, steps)
            && (forall i :: 0 <= i < |steps| ==> !steps[i].Outside?)
            && |steps| == 23
            && WritesKey(states, steps, 11, KeyOf(f)) && WritesKey(states, steps, 21, KeyOf(f))
  {
    var quiet, steps := Quiet(repo), Taken(f, r);
    FirstWrite(g, repo, f, r, changed);
    SecondWrite(g, repo, f, r, changed);
    ExecIsRun(g, quiet, steps);
    TakenShape(f, r);
    VisitedAt(g, quiet, steps, 11);
    VisitedAt(g, quiet, steps, 21);
  }

  lemma TakenShape(f: Call, r: Call)
    ensures var steps := Taken(f, r);
            && |steps| == 23 && (forall i :: 0 <= i < |steps| ==> !steps[i].Outside?)
            && steps[..11] == UntilFirst(f, r) && steps[..21] == UntilSecond(f, r)
            && steps[11] == Apply(0) && steps[21] == Apply(2)
  {}
}
