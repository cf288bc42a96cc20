/** Hash-chained audit events: what verify_integrity accepts, and what a recorded hash pins down. */
module AuditChain {
  import opened Prelude

  /** `body` stands for every field the chain does not look at. */
  datatype Event = Event(
    schema: string,
    packageVersion: string,
    eventId: string,
    body: string,
    prev: Option<string>,
    hash: Option<string>)

  /** What is hashed: the event without its hash and, under audit.v1, without the package version. */
  datatype Payload = Payload(schema: string, packageVersion: Option<string>, eventId: string, body: string,
      prev: Option<string>)

  /** SHA-256 of the canonical JSON of a payload. */
  type Hash = Payload -> string

  function HashInput(e: Event): Payload {
    Payload(e.schema, if e.schema == "audit.v1" then None else Some(e.packageVersion), e.eventId, e.body, e.prev)
  }

  function LastHash(log: seq<Event>): Option<string> {
    if log == [] then None else log[|log| - 1].hash
  }

  /** Bind an event to the end of the log. */
  function Chained(h: Hash, log: seq<Event>, e: Event): (c: Event)
    ensures c.prev == LastHash(log) && c.hash == Some(h(HashInput(c)))
    ensures c.(prev := e.prev, hash := e.hash) == e
  {
    var bound := e.(prev := LastHash(log));
    bound.(hash := Some(h(HashInput(bound))))
  }

  /** Event i carries its predecessor's hash and its own. */
  predicate Linked(h: Hash, log: seq<Event>, i: nat)
    requires i < |log|
  {
    && log[i].prev == (if i == 0 then None else log[i - 1].hash)
    && log[i].hash == Some(h(HashInput(log[i])))
  }

  predicate Verifies(h: Hash, log: seq<Event>) {
    forall i :: 0 <= i < |log| ==> Linked(h, log, i)
  }

  method VerifyIntegrity(h: Hash, log: seq<Event>) returns (ok: bool)
    ensures ok <==> Verifies(h, log)
  {
    var previous: Option<string> := None;
    for i := 0 to |log|
      invariant previous == if i == 0 then None else log[i - 1].hash
      invariant forall k :: 0 <= k < i ==> Linked(h, log, k)
    {
      var event := log[i];
      if event.prev != previous {
        assert !Linked(h, log, i);
        return false;
      }
      if Some(h(HashInput(event.(hash := None)))) != event.hash {
        assert !Linked(h, log, i);
        return false;
      }
      previous := event.hash;
    }
    return true;
  }

  lemma VerifiesSnoc(h: Hash, log: seq<Event>, e: Event)
    ensures Verifies(h, log + [e]) <==>
            Verifies(h, log) && e.prev == LastHash(log) && e.hash == Some(h(HashInput(e)))
  {
    var longer := log + [e];
    forall i | 0 <= i < |log| ensures Linked(h, longer, i) == Linked(h, log, i) {}
    assert Linked(h, longer, |log|) <==> e.prev == LastHash(log) && e.hash == Some(h(HashInput(e)));
  }

  // ---------------------------------------------------------------- a hash pins its history

  function Payloads(log: seq<Event>): set<Payload> {
    set e | e in log :: HashInput(e)
  }

  predicate CollisionFree(h: Hash, payloads: set<Payload>) {
    forall p, q {:trigger p in payloads, q in payloads} :: p in payloads && q in payloads && h(p) == h(q) ==> p == q
  }

  /** Equal, except that an audit.v1 event may carry another package version. */
  predicate SameUpToVersion(a: Event, b: Event) {
    a == b || (a.schema == "audit.v1" && a == b.(packageVersion := a.packageVersion))
  }

  /**
    If an event of one verified log has the hash of an event of another, both stand at the same place and so do all
    before them.
  */
  lemma {:induction false} HashPinsPrefix(h: Hash, xs: seq<Event>, ys: seq<Event>, i: nat, j: nat)
    requires Verifies(h, xs) && Verifies(h, ys) && i < |xs| && j < |ys|
    requires CollisionFree(h, Payloads(xs) + Payloads(ys))
    requires xs[i].hash == ys[j].hash
    ensures i == j
    ensures forall k :: 0 <= k <= i ==> SameUpToVersion(xs[k], ys[k])
    decreases i
  {
    assert Linked(h, xs, i) && Linked(h, ys, j);
    assert i > 0 ==> Linked(h, xs, i - 1);
    assert j > 0 ==> Linked(h, ys, j - 1);
    assert HashInput(xs[i]) in Payloads(xs) && HashInput(ys[j]) in Payloads(ys);
    assert HashInput(xs[i]) == HashInput(ys[j]);
    if i > 0 {
      HashPinsPrefix(h, xs, ys, i - 1, j - 1);
    }
  }

  /** Two verified logs that end in the same hash are the same history. */
  lemma HeadPinsHistory(h: Hash, xs: seq<Event>, ys: seq<Event>)
    requires Verifies(h, xs) && Verifies(h, ys)
    requires CollisionFree(h, Payloads(xs) + Payloads(ys))
    requires LastHash(xs) == LastHash(ys)
    ensures |xs| == |ys| && forall k :: 0 <= k < |xs| ==> SameUpToVersion(xs[k], ys[k])
  {
    if xs != [] { assert Linked(h, xs, |xs| - 1); }
    if ys != [] { assert Linked(h, ys, |ys| - 1); }
    if xs != [] && ys != [] {
      HashPinsPrefix(h, xs, ys, |xs| - 1, |ys| - 1);
    }
  }

  /**
    The exception is real: rewriting the package version of an audit.v1 event goes unnoticed, and nothing else does.
  */
  lemma EditNoticed(h: Hash, log: seq<Event>, i: nat, e: Event)
    requires Verifies(h, log) && i < |log| && e.hash == log[i].hash
    requires CollisionFree(h, Payloads(log) + {HashInput(e)})
    ensures Verifies(h, log[i := e]) <==> SameUpToVersion(e, log[i])
  {
    var edited := log[i := e];
    assert Linked(h, log, i);
    forall k | 0 <= k < |log| && k != i ensures Linked(h, edited, k) {
      assert Linked(h, log, k);
    }
    assert HashInput(log[i]) in Payloads(log);
    assert Verifies(h, edited) <==> Linked(h, edited, i);
    assert Linked(h, edited, i) ==> HashInput(e) == HashInput(log[i]);
  }
}
