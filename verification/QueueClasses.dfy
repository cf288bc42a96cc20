/** The two queue classes, each method tied to the operation it implements. */
module QueueClasses {
  import opened Prelude
  import opened ApprovalModel
  import opened ApprovalAuthorization
  import opened ApprovalQueue

  class InMemoryQueue {
    const engine: Engine
    var items: Rows

    constructor (engine: Engine)
      ensures this.engine == engine && items == []
    {
      this.engine, items := engine, [];
    }

    /** The request is found pending under its id, whatever that id held before; nothing else changes. */
    method Submit(request: Request)
      requires Unique(items)
      modifies this
      ensures items == MemSubmit(old(items), request)
      ensures Stores(old(items), Item(request, Pending, None), items)
    {
      AssignStores(items, Item(request, Pending, None));
      StoreItem(Item(request, Pending, None));
    }

    method StoreItem(item: Item)
      modifies this
      ensures items == Assign(old(items), item)
    {
      items := Assign(items, item);
    }

    /** Accepted exactly for a pending item and an authorized decision, which then stands under the id. */
    method RecordDecision(id: string, d: Decision) returns (outcome: Outcome)
      requires Unique(items)
      modifies this
      ensures (items, outcome) == MemDecide(engine, old(items), id, d)
      ensures outcome.Accepted? <==> MayDecide(engine, old(items), id, d)
      ensures outcome.Accepted? ==>
                && outcome.item == Get(old(items), id).item.(status := d.status, decision := Some(d))
                && Stores(old(items), outcome.item, items)
      ensures !outcome.Accepted? ==> items == old(items)
      ensures outcome == NotFound <==> !Holds(old(items), id)
      ensures outcome == WrongId <==> Holds(old(items), id) && d.approvalId != id
    {
      FindHolds(items, id);
      var k := Find(items, id);
      if k == |items| { return NotFound; }
      var item := items[k];
      if d.approvalId != id { return WrongId; }
      if !TransitionAllowed(item.status, d.status) { return Conflict; }
      AuthorizedExactly(engine, item.request, d, item.status);
      match Authorize(engine, item.request, d, item.status)
      case Some(denial) => return Denied(denial);
      case None =>
        var updated := Item(item.request, d.status, Some(d));
        AssignStores(items, updated);
        StoreItem(updated);
        return Accepted(updated);
    }
  }

  /** The table; `approval_id` is declared UNIQUE. */
  class Database {
    var rows: Rows

    constructor ()
      ensures rows == []
    {
      rows := [];
    }
  }

  class SqliteQueue {
    const engine: Engine
    const db: Database
    var items: Rows

    constructor (engine: Engine, db: Database)
      requires Unique(db.rows)
      ensures this.engine == engine && this.db == db && items == db.rows
    {
      this.engine, this.db, items := engine, db, [];
      new;
      LoadItems();
    }

    /** Reload every row, in id order, into a fresh dict. */
    method LoadItems()
      requires Unique(db.rows)
      modifies this`items
      ensures items == db.rows
    {
      var loaded: Rows := [];
      for i := 0 to |db.rows|
        invariant loaded == db.rows[..i]
      {
        assert !Holds(loaded, db.rows[i].request.approvalId);
        FindHolds(loaded, db.rows[i].request.approvalId);
        loaded := Assign(loaded, db.rows[i]);
      }
      items := loaded;
    }

    method Submit(request: Request) returns (result: Submission)
      requires Unique(db.rows)
      modifies this`items, db
      ensures (db.rows, result) == SqlSubmit(old(db.rows), request)
      ensures Unique(db.rows)
      ensures result.Submitted? ==> items == db.rows
      ensures result.BoundToAnother? ==> items == old(items)
    {
      var k := Find(db.rows, request.approvalId);
      if k < |db.rows| {
        if db.rows[k].request != request { return BoundToAnother; }
      } else {
        db.rows := db.rows + [Item(request, Pending, None)];
      }
      LoadItems();
      return Submitted;
    }

    method RecordDecision(id: string, d: Decision) returns (outcome: Outcome)
      requires Unique(db.rows)
      modifies this`items, db
      ensures (db.rows, outcome) == SqlDecide(engine, old(db.rows), id, d)
      ensures Unique(db.rows)
      ensures items == if outcome.Accepted? then Assign(old(items), outcome.item) else old(items)
    {
      if d.approvalId != id { return WrongId; }
      var k := Find(db.rows, id);
      if k == |db.rows| { return NotFound; }
      var row := db.rows[k];
      if row.status != Pending {
        if row.decision.Some? && SameTerminalDecision(row.decision.value, d) {
          items := Assign(items, row);
          return Accepted(row);
        }
        return Conflict;
      }
      if !TransitionAllowed(row.status, d.status) { return Conflict; }
      match Authorize(engine, row.request, d, row.status)
      case Some(denial) => return Denied(denial);
      case None =>
        var updated := Item(row.request, d.status, Some(d));
        db.rows := db.rows[k := updated];
        items := Assign(items, updated);
        return Accepted(updated);
    }

    method GetItem(id: string) returns (outcome: Outcome)
      requires Unique(db.rows)
      modifies this`items
      ensures outcome == Get(db.rows, id)
    {
      LoadItems();
      outcome := Get(items, id);
    }

    method ListItems(status: Option<Status>) returns (listed: Rows)
      requires Unique(db.rows)
      modifies this`items
      ensures listed == List(db.rows, status)
    {
      LoadItems();
      listed := List(items, status);
    }
  }
}
