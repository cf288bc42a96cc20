/**
  Any number of audit loggers appending to one authoritative chain.

  In JSONL mode the chain is the file and the lock is its flock; in SQLite mode the chain is the table,
  the lock is the write transaction, and every committed event is afterwards copied to a JSONL mirror.
  Lines are written whole here; JsonlFile has the lines that are not.
*/
module AuditLoggers {
  import opened Prelude
  import opened AuditChain

  // ---------------------------------------------------------------- one logger

  /** The table, and the JSONL file its events are copied to. */
  class SqliteLog {
    const h: Hash
    var rows: seq<Event>
    var mirror: seq<Event>

    constructor (h: Hash)
      ensures this.h == h && rows == [] && mirror == []
    {
      this.h, rows, mirror := h, [], [];
    }

    /** One transaction: read the last hash, bind the event to it, insert; a failing insert rolls back. */
    method AppendChainedEvent(event: Event, insertRaises: bool) returns (written: Option<Event>)
      modifies this`rows
      ensures written == if insertRaises then None else Some(Chained(h, old(rows), event))
      ensures rows == if insertRaises then old(rows) else old(rows) + [Chained(h, old(rows), event)]
      ensures old(Verifies(h, rows)) ==> Verifies(h, rows)
    {
      var last := if rows == [] then None else rows[|rows| - 1].hash;
      var bound := event.(prev := last);
      bound := bound.(hash := Some(h(HashInput(bound))));
      if insertRaises { return None; }
      VerifiesSnoc(h, rows, bound);
      rows := rows + [bound];
      written := Some(bound);
    }

    /** The mirror gets only what the table already holds. */
    method WriteEvent(event: Event, insertRaises: bool, mirrorRaises: bool) returns (done: bool)
      modifies this
      ensures done <==> !insertRaises && !mirrorRaises
      ensures rows == if insertRaises then old(rows) else old(rows) + [Chained(h, old(rows), event)]
      ensures mirror == if done then old(mirror) + [Chained(h, old(rows), event)] else old(mirror)
      ensures old(Verifies(h, rows)) ==> Verifies(h, rows)
      ensures old(multiset(mirror) <= multiset(rows)) ==> multiset(mirror) <= multiset(rows)
    {
      var written := AppendChainedEvent(event, insertRaises);
      if written.None? || mirrorRaises { return false; }
      mirror := mirror + [written.value];
      done := true;
    }
  }

  // ---------------------------------------------------------------- many loggers

  datatype State = State(
    chain: seq<Event>,
    lock: Option<nat>,
    tail: Option<Option<string>>,
    pending: multiset<Event>,
    mirror: seq<Event>)

  datatype Step =
    | Acquire(logger: nat)
    | ReadTail(logger: nat)
    | Append(logger: nat, event: Event)
    | Release(logger: nat)
    | Mirror(event: Event)
    | LoseMirror(event: Event)

  /** `Release` without `Append` covers a rolled-back transaction and a logger that dies holding the lock. */
  function Next(h: Hash, sqlite: bool, s: State, step: Step): Option<State> {
    match step
    case Acquire(c) => if s.lock.None? then Some(s.(lock := Some(c), tail := None)) else None
    case ReadTail(c) =>
      if s.lock == Some(c) && s.tail.None? then Some(s.(tail := Some(LastHash(s.chain)))) else None
    case Append(c, event) =>
      if s.lock == Some(c) && s.tail.Some? then
        var bound := event.(prev := s.tail.value);
        var e := bound.(hash := Some(h(HashInput(bound))));
        Some(s.(chain := s.chain + [e], lock := None, tail := None,
                pending := if sqlite then s.pending + multiset{e} else s.pending))
      else None
    case Release(c) => if s.lock == Some(c) then Some(s.(lock := None, tail := None)) else None
    case Mirror(e) =>
      if e in s.pending then Some(s.(pending := s.pending - multiset{e}, mirror := s.mirror + [e])) else None
    case LoseMirror(e) => if e in s.pending then Some(s.(pending := s.pending - multiset{e})) else None
  }

  predicate IsRun(h: Hash, sqlite: bool, states: seq<State>, steps: seq<Step>) {
    && |states| == |steps| + 1
    && states[0] == State([], None, None, multiset{}, [])
    && forall i :: 0 <= i < |steps| ==> Next(h, sqlite, states[i], steps[i]) == Some(states[i + 1])
  }

  predicate Good(h: Hash, sqlite: bool, s: State) {
    && Verifies(h, s.chain)
    && (s.tail.Some? ==> s.lock.Some? && s.tail.value == LastHash(s.chain))
    && multiset(s.mirror) + s.pending <= multiset(s.chain)
    && (!sqlite ==> s.mirror == [] && s.pending == multiset{})
  }

  lemma AppendKeepsGood(h: Hash, sqlite: bool, s: State, c: nat, event: Event, s': State)
    requires Good(h, sqlite, s) && Next(h, sqlite, s, Append(c, event)) == Some(s')
    ensures Good(h, sqlite, s') && s.chain <= s'.chain
  {
    var e := s'.chain[|s.chain|];
    assert s'.chain == s.chain + [e];
    VerifiesSnoc(h, s.chain, e);
    assert multiset(s'.chain) == multiset(s.chain) + multiset{e};
  }

  lemma MirrorKeepsGood(h: Hash, sqlite: bool, s: State, e: Event, s': State)
    requires Good(h, sqlite, s) && Next(h, sqlite, s, Mirror(e)) == Some(s')
    ensures Good(h, sqlite, s') && s.chain == s'.chain
  {
    assert multiset(s.mirror + [e]) == multiset(s.mirror) + multiset{e};
    assert s.pending == s.pending - multiset{e} + multiset{e};
  }

  lemma LossKeepsGood(h: Hash, sqlite: bool, s: State, e: Event, s': State)
    requires Good(h, sqlite, s) && Next(h, sqlite, s, LoseMirror(e)) == Some(s')
    ensures Good(h, sqlite, s') && s.chain == s'.chain
  {
    assert s.pending - multiset{e} <= s.pending;
  }

  lemma LockKeepsGood(h: Hash, sqlite: bool, s: State, step: Step, s': State)
    requires Good(h, sqlite, s) && Next(h, sqlite, s, step) == Some(s')
    requires step.Acquire? || step.ReadTail? || step.Release?
    ensures Good(h, sqlite, s') && s.chain == s'.chain
  {}

  lemma GoodKept(h: Hash, sqlite: bool, s: State, step: Step, s': State)
    requires Good(h, sqlite, s) && Next(h, sqlite, s, step) == Some(s')
    ensures Good(h, sqlite, s') && s.chain <= s'.chain
  {
    match step
    case Append(c, event) => AppendKeepsGood(h, sqlite, s, c, event, s');
    case Mirror(e) => MirrorKeepsGood(h, sqlite, s, e, s');
    case LoseMirror(e) => LossKeepsGood(h, sqlite, s, e, s');
    case _ => LockKeepsGood(h, sqlite, s, step, s');
  }

  /**
    Any interleaving: the chain verifies, the mirror holds no event the store lacks, and there is none in JSONL mode.
  */
  lemma {:induction false} ChainAlwaysVerifies(h: Hash, sqlite: bool, states: seq<State>, steps: seq<Step>, n: nat)
    requires IsRun(h, sqlite, states, steps) && n <= |steps|
    ensures Good(h, sqlite, states[n])
    ensures Verifies(h, states[n].chain)
    ensures multiset(states[n].mirror) <= multiset(states[n].chain)
  {
    if n > 0 {
      ChainAlwaysVerifies(h, sqlite, states, steps, n - 1);
      GoodKept(h, sqlite, states[n - 1], steps[n - 1], states[n]);
    }
  }

  /** The chain only grows, so a hash recorded once stays the hash of its place. */
  lemma {:induction false} ChainIsAppendOnly(h: Hash, sqlite: bool, states: seq<State>, steps: seq<Step>, m: nat,
      n: nat)
    requires IsRun(h, sqlite, states, steps) && m <= n <= |steps|
    ensures states[m].chain <= states[n].chain
  {
    if m < n {
      ChainIsAppendOnly(h, sqlite, states, steps, m, n - 1);
      StepAppends(h, sqlite, states, steps, n - 1);
    }
  }

  lemma StepAppends(h: Hash, sqlite: bool, states: seq<State>, steps: seq<Step>, i: nat)
    requires IsRun(h, sqlite, states, steps) && i < |steps|
    ensures states[i].chain <= states[i + 1].chain
  {
    ChainAlwaysVerifies(h, sqlite, states, steps, i);
    GoodKept(h, sqlite, states[i], steps[i], states[i + 1]);
  }

  predicate Balanced(s: State) {
    multiset(s.mirror) + s.pending == multiset(s.chain)
  }

  lemma BalanceKept(h: Hash, s: State, step: Step, s': State)
    requires Balanced(s) && Next(h, true, s, step) == Some(s') && !step.LoseMirror?
    ensures Balanced(s')
  {
    match step
    case Append(_, _) =>
      var e := s'.chain[|s.chain|];
      assert multiset(s'.chain) == multiset(s.chain) + multiset{e};
    case Mirror(e) =>
      assert multiset(s.mirror + [e]) == multiset(s.mirror) + multiset{e};
    case _ =>
  }

  lemma {:induction false} BalancedThroughout(h: Hash, states: seq<State>, steps: seq<Step>, n: nat)
    requires IsRun(h, true, states, steps) && n <= |steps|
    requires forall i :: 0 <= i < n ==> !steps[i].LoseMirror?
    ensures Balanced(states[n])
  {
    if n > 0 {
      BalancedThroughout(h, states, steps, n - 1);
      BalanceKept(h, states[n - 1], steps[n - 1], states[n]);
    }
  }

  /** If nothing was lost, mirror and pending copies together are the store. */
  lemma MirrorCatchesUp(h: Hash, states: seq<State>, steps: seq<Step>, n: nat)
    requires IsRun(h, true, states, steps) && n <= |steps|
    requires forall i :: 0 <= i < n ==> !steps[i].LoseMirror?
    ensures multiset(states[n].mirror) + states[n].pending == multiset(states[n].chain)
  {
    BalancedThroughout(h, states, steps, n);
  }

  /** Two loggers commit in one order and mirror in the other. */
  function CrossedSteps(x: Event, y: Event, a: Event, b: Event): seq<Step> {
    [Acquire(0), ReadTail(0), Append(0, x), Acquire(1), ReadTail(1), Append(1, y), Mirror(b), Mirror(a)]
  }

  function Committed(a: Event): State {
    State([a], None, None, multiset{a}, [])
  }

  function CrossedStates(a: Event, b: Event): seq<State> {
    var s0 := State([], None, None, multiset{}, []);
    [ s0, s0.(lock := Some(0)), s0.(lock := Some(0), tail := Some(None)),
      Committed(a), Committed(a).(lock := Some(1)), Committed(a).(lock := Some(1), tail := Some(a.hash)),
      State([a, b], None, None, multiset{a, b}, []),
      State([a, b], None, None, multiset{a}, [b]),
      State([a, b], None, None, multiset{}, [b, a]) ]
  }

  lemma CrossedCommits(h: Hash, x: Event, y: Event, i: nat)
    requires i < 6
    ensures var a := Chained(h, [], x); var b := Chained(h, [a], y);
            Next(h, true, CrossedStates(a, b)[i], CrossedSteps(x, y, a, b)[i]) == Some(CrossedStates(a, b)[i + 1])
  {
    var a := Chained(h, [], x);
    var b := Chained(h, [a], y);
    assert [] + [a] == [a] && multiset{} + multiset{a} == multiset{a};
    assert [a] + [b] == [a, b] && multiset{a} + multiset{b} == multiset{a, b};
  }

  lemma SecondMirrored(h: Hash, a: Event, b: Event)
    ensures Next(h, true, State([a, b], None, None, multiset{a, b}, []), Mirror(b))
            == Some(State([a, b], None, None, multiset{a}, [b]))
  {
    assert multiset{a, b} - multiset{b} == multiset{a} && [] + [b] == [b];
  }

  lemma FirstMirrored(h: Hash, a: Event, b: Event)
    ensures Next(h, true, State([a, b], None, None, multiset{a}, [b]), Mirror(a))
            == Some(State([a, b], None, None, multiset{}, [b, a]))
  {
    assert multiset{a} - multiset{a} == multiset{} && [b] + [a] == [b, a];
  }

  lemma CrossedMirrors(h: Hash, x: Event, y: Event, a: Event, b: Event, i: nat)
    requires 6 <= i < 8
    ensures Next(h, true, CrossedStates(a, b)[i], CrossedSteps(x, y, a, b)[i]) == Some(CrossedStates(a, b)[i + 1])
  {
    SecondMirrored(h, a, b);
    FirstMirrored(h, a, b);
  }

  /** Among events of one verified chain, a list verifies exactly when it is the beginning of that chain. */
  lemma VerifiesExactly(h: Hash, chain: seq<Event>, list: seq<Event>)
    requires Verifies(h, chain) && CollisionFree(h, Payloads(chain))
    requires forall e :: e in list ==> e in chain
    ensures Verifies(h, list) <==> list <= chain
  {
    if list <= chain {
      forall i | 0 <= i < |list| ensures Linked(h, list, i) {
        assert Linked(h, chain, i);
      }
    }
    if Verifies(h, list) {
      VerifiedBegins(h, chain, list, |list|);
      assert list[..|list|] == list;
    }
  }

  lemma {:induction false} VerifiedBegins(h: Hash, chain: seq<Event>, list: seq<Event>, n: nat)
    requires Verifies(h, chain) && Verifies(h, list) && CollisionFree(h, Payloads(chain)) && n <= |list|
    requires forall e :: e in list ==> e in chain
    ensures list[..n] <= chain
  {
    if n > 0 {
      VerifiedBegins(h, chain, list, n - 1);
      assert list[n - 1] in chain;
      var j :| 0 <= j < |chain| && chain[j] == list[n - 1];
      FollowsAt(h, chain, list, n - 1, j);
      assert list[..n] == list[..n - 1] + [list[n - 1]];
    }
  }

  /** The next event of a verified list stands in the chain where the list has got to. */
  lemma FollowsAt(h: Hash, chain: seq<Event>, list: seq<Event>, n: nat, j: nat)
    requires Verifies(h, chain) && Verifies(h, list) && CollisionFree(h, Payloads(chain))
    requires n < |list| && list[..n] <= chain && j < |chain| && chain[j] == list[n]
    ensures j == n
  {
    assert Linked(h, list, n) && Linked(h, chain, j);
    assert j > 0 ==> Linked(h, chain, j - 1);
    if n > 0 {
      assert Linked(h, list, n - 1) && list[..n][n - 1] == chain[n - 1];
      assert Payloads(chain) + Payloads(chain) == Payloads(chain);
      HashPinsPrefix(h, chain, chain, j - 1, n - 1);
    }
  }

  /**
    In every reachable state the mirror verifies exactly when it is a prefix of the chain: nothing lost before its
    end, nothing swapped.
  */
  lemma MirrorVerifiesExactly(h: Hash, sqlite: bool, states: seq<State>, steps: seq<Step>, n: nat)
    requires IsRun(h, sqlite, states, steps) && n <= |steps| && CollisionFree(h, Payloads(states[n].chain))
    ensures Verifies(h, states[n].mirror) <==> states[n].mirror <= states[n].chain
  {
    ChainAlwaysVerifies(h, sqlite, states, steps, n);
    forall e | e in states[n].mirror ensures e in states[n].chain {
      assert e in multiset(states[n].mirror);
      assert multiset(states[n].mirror) <= multiset(states[n].chain);
    }
    VerifiesExactly(h, states[n].chain, states[n].mirror);
  }

  /** The mirror's order may differ: here it holds the store's events and does not verify. */
  lemma MirrorMayBeOutOfOrder(h: Hash, x: Event, y: Event)
    ensures var a := Chained(h, [], x); var b := Chained(h, [a], y);
            var states, steps := CrossedStates(a, b), CrossedSteps(x, y, a, b);
            && IsRun(h, true, states, steps)
            && Verifies(h, states[8].chain)
            && multiset(states[8].mirror) == multiset(states[8].chain)
            && !Verifies(h, states[8].mirror)
  {
    var a := Chained(h, [], x);
    var b := Chained(h, [a], y);
    var states, steps := CrossedStates(a, b), CrossedSteps(x, y, a, b);
    forall i | 0 <= i < |steps| ensures Next(h, true, states[i], steps[i]) == Some(states[i + 1]) {
      if i < 6 { CrossedCommits(h, x, y, i); } else { CrossedMirrors(h, x, y, a, b, i); }
    }
    ChainAlwaysVerifies(h, true, states, steps, 8);
    assert !Linked(h, [b, a], 0);
  }
}
