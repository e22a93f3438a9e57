/** The database the ingestion loops write to, and the SQLAlchemy session they write through.
    The tables are kept with their keys only: product code as primary key, unique barcodes, one
    price record per product code, one stock record per (product code, warehouse id) pair, and the
    older one-per-product stock table. Every dependent row refers to a product. */
module Store {
  import opened Common
  import opened DataParser
  import opened Schemas

  /** A row of `product_stocks`: what a warehouse holds of a product and how much of it is reserved. */
  datatype StockLevel = StockLevel(quantity: int, reserved: int)

  /** A row of the older stock table, one per product. */
  datatype StockSummary = StockSummary(quantity: int, maxPurchase: Option<Dec>)

  datatype Warehouse = Warehouse(id: int, name: string)

  datatype Db = Db(
    products: map<string, ProductFields>,
    descriptions: seq<(string, DescriptionFields)>,
    online: seq<(string, OnlineFields)>,
    dimensions: seq<(string, DimensionsFields)>,
    barcodes: map<string, string>,
    prices: map<string, PriceTiers>,
    stocks: map<(string, int), StockLevel>,
    summaries: map<string, StockSummary>,
    warehouses: seq<Warehouse>)

  predicate IsWarehouseId(db: Db, id: int) {
    exists j :: 0 <= j < |db.warehouses| && db.warehouses[j].id == id
  }

  /** Every foreign key of the store points at an existing row. */
  predicate Consistent(db: Db) {
    && (forall j :: 0 <= j < |db.descriptions| ==> db.descriptions[j].0 in db.products)
    && (forall j :: 0 <= j < |db.online| ==> db.online[j].0 in db.products)
    && (forall j :: 0 <= j < |db.dimensions| ==> db.dimensions[j].0 in db.products)
    && (forall b :: b in db.barcodes ==> db.barcodes[b] in db.products)
    && (forall c :: c in db.prices ==> c in db.products)
    && (forall k :: k in db.stocks ==> k.0 in db.products && IsWarehouseId(db, k.1))
    && (forall c :: c in db.summaries ==> c in db.products)
  }

  // ---------------------------------------------------------------------------------------------
  // Statements

  /** An ORM object handed to `session.add`, inserted when the session flushes. */
  datatype Insert =
    | InsertProduct(product: ProductFields)
    | InsertDescription(code: string, description: DescriptionFields)
    | InsertOnline(code: string, online: OnlineFields)
    | InsertDimensions(code: string, dimensions: DimensionsFields)
    | InsertBarcode(code: string, barcode: string)
    | InsertStock(code: string, warehouseId: int, level: StockLevel)

  /** The constraint an insert would break. */
  predicate Violates(db: Db, obj: Insert) {
    match obj
    case InsertProduct(p) => p.code in db.products
    case InsertDescription(c, _) => c !in db.products
    case InsertOnline(c, _) => c !in db.products
    case InsertDimensions(c, _) => c !in db.products
    case InsertBarcode(c, b) => c !in db.products || b in db.barcodes
    case InsertStock(c, w, _) => c !in db.products || !IsWarehouseId(db, w) || (c, w) in db.stocks
  }

  /** Whether the row an insert describes is in the store. */
  predicate Holds(db: Db, obj: Insert) {
    match obj
    case InsertProduct(p) => p.code in db.products && db.products[p.code] == p
    case InsertDescription(c, d) => (c, d) in db.descriptions
    case InsertOnline(c, o) => (c, o) in db.online
    case InsertDimensions(c, d) => (c, d) in db.dimensions
    case InsertBarcode(c, b) => b in db.barcodes && db.barcodes[b] == c
    case InsertStock(c, w, l) => (c, w) in db.stocks && db.stocks[(c, w)] == l
  }

  /** `b` keeps every row of `a` and differs from it only by added rows. */
  predicate Extends(a: Db, b: Db) {
    && (forall c :: c in a.products ==> c in b.products && b.products[c] == a.products[c])
    && a.descriptions <= b.descriptions && a.online <= b.online && a.dimensions <= b.dimensions
    && (forall x :: x in a.barcodes ==> x in b.barcodes && b.barcodes[x] == a.barcodes[x])
    && (forall k :: k in a.stocks ==> k in b.stocks && b.stocks[k] == a.stocks[k])
    && a.prices == b.prices && a.summaries == b.summaries && a.warehouses == b.warehouses
  }

  lemma ExtendsTransitive(a: Db, b: Db, c: Db)
    requires Extends(a, b) && Extends(b, c)
    ensures Extends(a, c)
  {
    assert a.descriptions <= c.descriptions by {
      assert a.descriptions == b.descriptions[..|a.descriptions|];
      assert b.descriptions == c.descriptions[..|b.descriptions|];
    }
    assert a.online <= c.online by {
      assert a.online == b.online[..|a.online|];
      assert b.online == c.online[..|b.online|];
    }
    assert a.dimensions <= c.dimensions by {
      assert a.dimensions == b.dimensions[..|a.dimensions|];
      assert b.dimensions == c.dimensions[..|b.dimensions|];
    }
  }

  lemma ExtendsKeepsHolds(a: Db, b: Db, obj: Insert)
    requires Extends(a, b) && Holds(a, obj)
    ensures Holds(b, obj)
  {
    match obj
    case InsertDescription(c, d) =>
      var j :| 0 <= j < |a.descriptions| && a.descriptions[j] == (c, d);
      assert b.descriptions[j] == (c, d);
    case InsertOnline(c, o) =>
      var j :| 0 <= j < |a.online| && a.online[j] == (c, o);
      assert b.online[j] == (c, o);
    case InsertDimensions(c, d) =>
      var j :| 0 <= j < |a.dimensions| && a.dimensions[j] == (c, d);
      assert b.dimensions[j] == (c, d);
    case _ =>
  }

  /** The store with the row of `obj` added. */
  function Inserted(db: Db, obj: Insert): Db {
    match obj
    case InsertProduct(p) => db.(products := db.products[p.code := p])
    case InsertDescription(c, d) => db.(descriptions := db.descriptions + [(c, d)])
    case InsertOnline(c, o) => db.(online := db.online + [(c, o)])
    case InsertDimensions(c, d) => db.(dimensions := db.dimensions + [(c, d)])
    case InsertBarcode(c, b) => db.(barcodes := db.barcodes[b := c])
    case InsertStock(c, w, l) => db.(stocks := db.stocks[(c, w) := l])
  }

  lemma InsertedExtends(db: Db, obj: Insert)
    requires !Violates(db, obj)
    ensures Extends(db, Inserted(db, obj)) && Holds(Inserted(db, obj), obj)
  {
    var r := Inserted(db, obj);
    match obj
    case InsertDescription(c, d) => assert r.descriptions[|db.descriptions|] == (c, d);
    case InsertOnline(c, o) => assert r.online[|db.online|] == (c, o);
    case InsertDimensions(c, d) => assert r.dimensions[|db.dimensions|] == (c, d);
    case _ =>
  }

  lemma InsertedConsistent(db: Db, obj: Insert)
    requires !Violates(db, obj) && Consistent(db)
    ensures Consistent(Inserted(db, obj))
  {
    var r := Inserted(db, obj);
    assert forall id :: IsWarehouseId(db, id) ==> IsWarehouseId(r, id) by {
      assert r.warehouses == db.warehouses;
    }
    match obj
    case InsertDescription(c, d) =>
      assert forall j :: 0 <= j < |r.descriptions| ==> r.descriptions[j].0 in r.products by {
        forall j | 0 <= j < |r.descriptions| ensures r.descriptions[j].0 in r.products {
          if j < |db.descriptions| { assert r.descriptions[j] == db.descriptions[j]; }
        }
      }
    case InsertOnline(c, o) =>
      assert forall j :: 0 <= j < |r.online| ==> r.online[j].0 in r.products by {
        forall j | 0 <= j < |r.online| ensures r.online[j].0 in r.products {
          if j < |db.online| { assert r.online[j] == db.online[j]; }
        }
      }
    case InsertDimensions(c, d) =>
      assert forall j :: 0 <= j < |r.dimensions| ==> r.dimensions[j].0 in r.products by {
        forall j | 0 <= j < |r.dimensions| ensures r.dimensions[j].0 in r.products {
          if j < |db.dimensions| { assert r.dimensions[j] == db.dimensions[j]; }
        }
      }
    case _ =>
  }

  /** One INSERT: it fails exactly when it would break a key or a foreign key. */
  function ApplyInsert(db: Db, obj: Insert): (r: Option<Db>)
    ensures r.None? <==> Violates(db, obj)
  {
    if Violates(db, obj) then None else Some(Inserted(db, obj))
  }

  /** A successful insert adds its row, keeps every other row and keeps the foreign keys. */
  lemma ApplyInsertFacts(db: Db, obj: Insert)
    requires ApplyInsert(db, obj).Some?
    ensures Extends(db, ApplyInsert(db, obj).value) && Holds(ApplyInsert(db, obj).value, obj)
    ensures Consistent(db) ==> Consistent(ApplyInsert(db, obj).value)
  {
    InsertedExtends(db, obj);
    if Consistent(db) {
      InsertedConsistent(db, obj);
    }
  }

  /** The inserts of a flush, in the order the objects were added. A flush is all or nothing: it
      fails at the first insert that breaks a constraint. */
  function ApplyInserts(db: Db, objs: seq<Insert>): (r: Option<Db>)
    ensures |objs| == 0 ==> r == Some(db)
    ensures |objs| > 0 && Violates(db, objs[0]) ==> r.None?
    decreases |objs|
  {
    if |objs| == 0 then Some(db)
    else
      match ApplyInsert(db, objs[0])
      case None => None
      case Some(db1) => ApplyInserts(db1, objs[1..])
  }

  /** After a successful flush every flushed row is in the store, every earlier row is still there,
      and the foreign keys still hold. */
  lemma {:induction false} ApplyInsertsFacts(db: Db, objs: seq<Insert>)
    requires ApplyInserts(db, objs).Some?
    ensures Extends(db, ApplyInserts(db, objs).value)
    ensures forall j :: 0 <= j < |objs| ==> Holds(ApplyInserts(db, objs).value, objs[j])
    ensures Consistent(db) ==> Consistent(ApplyInserts(db, objs).value)
    decreases |objs|
  {
    if |objs| > 0 {
      var db1 := ApplyInsert(db, objs[0]).value;
      ApplyInsertFacts(db, objs[0]);
      var r := ApplyInserts(db1, objs[1..]);
      ApplyInsertsFacts(db1, objs[1..]);
      ExtendsTransitive(db, db1, r.value);
      ExtendsKeepsHolds(db1, r.value, objs[0]);
      assert forall j :: 1 <= j < |objs| ==> objs[j] == objs[1..][j - 1];
    }
  }

  /** `insert ... on_conflict_do_update`: inserts the record or overwrites every column of the one
      already stored under the key. */
  datatype Upsert =
    | UpsertPrice(code: string, tiers: PriceTiers)
    | UpsertSummary(code: string, summary: StockSummary)

  /** One upsert. Its only possible failure is a record for an unknown product. */
  function ApplyUpsert(db: Db, u: Upsert): (r: Option<Db>)
    ensures r.None? <==> u.code !in db.products
    ensures r.Some? && u.UpsertPrice? ==>
              r.value.prices == db.prices[u.code := u.tiers] && r.value == db.(prices := r.value.prices)
    ensures r.Some? && u.UpsertSummary? ==>
              r.value.summaries == db.summaries[u.code := u.summary] && r.value == db.(summaries := r.value.summaries)
  {
    if u.code !in db.products then None
    else
      match u
      case UpsertPrice(c, t) => Some(db.(prices := db.prices[c := t]))
      case UpsertSummary(c, s) => Some(db.(summaries := db.summaries[c := s]))
  }

  /** An upsert keeps the foreign keys: it only writes records of known products. */
  lemma ApplyUpsertConsistent(db: Db, u: Upsert)
    requires Consistent(db) && ApplyUpsert(db, u).Some?
    ensures Consistent(ApplyUpsert(db, u).value)
  {
  }

  // ---------------------------------------------------------------------------------------------
  // The session

  /** The exception classes the loops tell apart. */
  datatype ErrorKind = IntegrityError | DataError | ValueError | OtherError

  datatype Outcome = Done | Raised(kind: ErrorKind)

  /** An AsyncSession with autoflush off: the last committed store, the store as the open
      transaction sees it, the objects added but not flushed yet, and whether a failed statement
      has left the session needing a rollback. */
  datatype SessionState = SessionState(committed: Db, tx: Db, pending: seq<Insert>, inactive: bool)

  datatype Transition = Transition(state: SessionState, outcome: Outcome)

  /** A new session on a store: an empty transaction. */
  function Opened(db: Db): (s: SessionState)
    ensures s.committed == s.tx == db && s.pending == [] && !s.inactive
  {
    SessionState(db, db, [], false)
  }

  /** `session.add` / `session.add_all`: the objects wait for the next flush. */
  function Added(s: SessionState, objs: seq<Insert>): (r: SessionState)
    ensures r.pending == s.pending + objs
    ensures r.committed == s.committed && r.tx == s.tx && r.inactive == s.inactive
  {
    s.(pending := s.pending + objs)
  }

  /** `session.flush()`: all pending inserts go into the transaction, or none does and the session
      is left needing a rollback. Nothing is committed. */
  function Flushed(s: SessionState): (r: Transition)
    ensures r.state.committed == s.committed
    ensures s.inactive ==> r == Transition(s, Raised(OtherError))
    ensures !s.inactive ==> (r.outcome.Done? <==> ApplyInserts(s.tx, s.pending).Some?)
    ensures r.outcome.Done? ==> r.state == SessionState(s.committed, ApplyInserts(s.tx, s.pending).value, [], false)
    ensures r.outcome.Raised? ==> r.state == s.(inactive := true)
  {
    if s.inactive then Transition(s, Raised(OtherError))
    else
      match ApplyInserts(s.tx, s.pending)
      case None => Transition(s.(inactive := true), Raised(IntegrityError))
      case Some(db) => Transition(s.(tx := db, pending := []), Done)
  }

  /** `session.commit()`: a flush, then the transaction becomes the committed store. */
  function CommitT(s: SessionState): (r: Transition)
    ensures r.outcome == Flushed(s).outcome
    ensures r.outcome.Done? ==> r.state.committed == r.state.tx == Flushed(s).state.tx && r.state.pending == []
                                && !r.state.inactive
    ensures r.outcome.Raised? ==> r.state == s.(inactive := true)
  {
    var f := Flushed(s);
    if f.outcome.Raised? then f
    else Transition(f.state.(committed := f.state.tx), Done)
  }

  /** `session.rollback()`: back to the committed store, with nothing pending. */
  function RolledBack(s: SessionState): (r: SessionState)
    ensures r == Opened(s.committed)
  {
    SessionState(s.committed, s.committed, [], false)
  }

  /** `session.execute(upsert)`: the statement runs at once, without flushing the pending objects. */
  function Executed(s: SessionState, u: Upsert): (r: Transition)
    ensures r.state.committed == s.committed && r.state.pending == s.pending
    ensures s.inactive ==> r == Transition(s, Raised(OtherError))
    ensures !s.inactive ==> (r.outcome.Done? <==> u.code in s.tx.products)
    ensures r.outcome.Done? ==> r.state.tx == ApplyUpsert(s.tx, u).value && !r.state.inactive
    ensures r.outcome.Raised? ==> r.state == s.(inactive := true)
  {
    if s.inactive then Transition(s, Raised(OtherError))
    else
      match ApplyUpsert(s.tx, u)
      case None => Transition(s.(inactive := true), Raised(IntegrityError))
      case Some(db) => Transition(s.(tx := db), Done)
  }

  /** `select(Product).where(Product.code == code)`: what the transaction sees, which is only what
      has been flushed. None stands for the error of a session that needs a rollback. */
  function Lookup(s: SessionState, code: string): (r: Option<bool>)
    ensures r.None? <==> s.inactive
    ensures r.Some? ==> (r.value <==> code in s.tx.products)
  {
    if s.inactive then None else Some(code in s.tx.products)
  }

  /** The session object the loops hold. Each method changes the session as the transition of the
      same name says. */
  class Session {
    var committed: Db
    var tx: Db
    var pending: seq<Insert>
    var inactive: bool

    function State(): SessionState
      reads this
    {
      SessionState(committed, tx, pending, inactive)
    }

    constructor (db: Db)
      ensures State() == Opened(db)
    {
      committed, tx, pending, inactive := db, db, [], false;
    }

    method Add(objs: seq<Insert>)
      modifies this
      ensures State() == Added(old(State()), objs)
    {
      pending := pending + objs;
    }

    method Flush() returns (outcome: Outcome)
      modifies this
      ensures Transition(State(), outcome) == Flushed(old(State()))
    {
      if inactive {
        return Raised(OtherError);
      }
      var r := ApplyInserts(tx, pending);
      if r.None? {
        inactive := true;
        return Raised(IntegrityError);
      }
      tx, pending := r.value, [];
      return Done;
    }

    method Commit() returns (outcome: Outcome)
      modifies this
      ensures Transition(State(), outcome) == CommitT(old(State()))
    {
      outcome := Flush();
      if outcome.Done? {
        committed := tx;
      }
    }

    method Rollback()
      modifies this
      ensures State() == RolledBack(old(State()))
    {
      tx, pending, inactive := committed, [], false;
    }

    method Execute(u: Upsert) returns (outcome: Outcome)
      modifies this
      ensures Transition(State(), outcome) == Executed(old(State()), u)
    {
      if inactive {
        return Raised(OtherError);
      }
      var r := ApplyUpsert(tx, u);
      if r.None? {
        inactive := true;
        return Raised(IntegrityError);
      }
      tx := r.value;
      return Done;
    }

    method FindProduct(code: string) returns (found: Option<bool>)
      ensures found.Some? <==> !inactive
      ensures found.Some? ==> (found.value <==> code in tx.products)
    {
      if inactive {
        return None;
      }
      return Some(code in tx.products);
    }
  }

  // ---------------------------------------------------------------------------------------------
  // Injected faults

  /** An error the store model does not compute (a value wider than its column, a numeric
      overflow, a lost connection), raised for one row in place of that row's first statement. */
  datatype Fault = NoFault | Raise(kind: ErrorKind)

  /** The fault of row `i`; rows past the end of the list have none. */
  function FaultAt(faults: seq<Fault>, i: nat): (f: Fault)
    ensures i >= |faults| ==> f == NoFault
  {
    if i < |faults| then faults[i] else NoFault
  }

  /** What a session holding only committed rows can always do: committing an empty transaction. */
  lemma CommitOfCleanSession(s: SessionState)
    requires !s.inactive && s.pending == []
    ensures CommitT(s) == Transition(s.(committed := s.tx), Done)
  {
  }

  /** The committed store stays consistent whatever the session does. */
  lemma SessionKeepsConsistency(s: SessionState, u: Upsert)
    requires Consistent(s.committed) && Consistent(s.tx)
    ensures var f := Flushed(s).state; Consistent(f.committed) && Consistent(f.tx)
    ensures var c := CommitT(s).state; Consistent(c.committed) && Consistent(c.tx)
    ensures var e := Executed(s, u).state; Consistent(e.committed) && Consistent(e.tx)
    ensures var b := RolledBack(s); Consistent(b.committed) && Consistent(b.tx)
  {
    if !s.inactive {
      if ApplyInserts(s.tx, s.pending).Some? {
        ApplyInsertsFacts(s.tx, s.pending);
      }
      if ApplyUpsert(s.tx, u).Some? {
        ApplyUpsertConsistent(s.tx, u);
      }
    }
  }
}
