/** The older import loops (`add_data_products` and `add_data_prices` of `add_data_to_db`). Each
    runs its whole loop inside one handler: the first exception rolls back the open batch and
    ends the run, so only the batches committed before it are kept. */
module LegacyImport {
  import opened Common
  import opened Text
  import opened DataParser
  import opened Schemas
  import opened Store
  import AddProducts

  const BatchSize := 100

  /** The session, the loop's counter, and whether an exception has ended the loop. */
  datatype Run = Run(session: SessionState, count: nat, aborted: bool)

  /** What a run leaves: the committed store, the counter, and whether the run reached its end
      without an exception. */
  datatype LegacyResult = LegacyResult(store: Db, count: nat, completed: bool)

  function Start(db: Db): Run {
    Run(Opened(db), 0, false)
  }

  /** The handler: roll back the open batch and leave the loop. */
  function Abort(run: Run): (r: Run)
    ensures r == Run(Opened(run.session.committed), run.count, true)
  {
    Run(RolledBack(run.session), run.count, true)
  }

  /** After the loop: an aborted run has already rolled back; otherwise the final commit, and the
      handler's rollback when it fails. */
  function Finish(run: Run): (r: LegacyResult)
    ensures r.count == run.count
    ensures r.completed <==> !run.aborted && CommitT(run.session).outcome.Done?
    ensures !r.completed ==> r.store == run.session.committed
  {
    if run.aborted then LegacyResult(run.session.committed, run.count, false)
    else
      var k := CommitT(run.session);
      LegacyResult(k.state.committed, run.count, k.outcome.Done?)
  }

  // ---------------------------------------------------------------------------------------------
  // Products

  /** One pass of the product loop. There is no filter on empty codes. */
  function ProductStep(run: Run, data: ProductPayload, fault: Fault): (r: Run)
    // once the loop has been left, nothing happens
    ensures run.aborted ==> r == run
    // an exception discards the open batch
    ensures !run.aborted && r.aborted ==> r.session == Opened(run.session.committed)
    // an existing code is skipped without counting
    ensures !run.aborted && fault == NoFault && !run.session.inactive && data.product.code in run.session.tx.products
            ==> r == run
    // the counter moves by at most one, only for a new product
    ensures r.count == run.count || (r.count == run.count + 1 && data.product.code !in run.session.tx.products)
    // the committed store changes only when the counter reaches a multiple of the batch size
    ensures r.session.committed != run.session.committed
            ==> !r.aborted && r.count == run.count + 1 && r.count % BatchSize == 0 && r.session.committed == r.session.tx
    // conversely, a new product that brings the counter to a multiple of the batch size is committed with the batch
    ensures !r.aborted && r.count == run.count + 1 && r.count % BatchSize == 0
            ==> r.session.committed == r.session.tx && r.session.pending == []
    ensures !run.session.inactive ==> !r.session.inactive
  {
    if run.aborted then run
    else if fault.Raise? then Abort(run)
    else
      match Lookup(run.session, data.product.code)
      case None => Abort(run)
      case Some(true) => run
      case Some(false) => ProductNew(run, data)
  }

  /** A code the transaction does not know: the product is added and flushed, its related objects
      are added, and the counter moves; every 100th new product is committed. */
  function ProductNew(run: Run, data: ProductPayload): Run {
    var code := data.product.code;
    var f := Flushed(Added(run.session, [InsertProduct(data.product)]));
    if f.outcome.Raised? then Abort(run)
    else
      var s := Added(f.state, AddProducts.RelatedRows(code, data));
      var c := run.count + 1;
      if c % BatchSize == 0 then
        var k := CommitT(s);
        if k.outcome.Raised? then Abort(run) else Run(k.state, c, false)
      else Run(s, c, false)
  }

  function ProductsUpTo(db: Db, ps: seq<ProductPayload>, faults: seq<Fault>, n: nat): Run
    requires n <= |ps|
  {
    if n == 0 then Start(db) else ProductStep(ProductsUpTo(db, ps, faults, n - 1), ps[n - 1], FaultAt(faults, n - 1))
  }

  function ImportProductsParsed(db: Db, ps: seq<ProductPayload>, faults: seq<Fault>): LegacyResult {
    Finish(ProductsUpTo(db, ps, faults, |ps|))
  }

  function ImportProducts(db: Db, rows: seq<Row>, faults: seq<Fault>): LegacyResult {
    ImportProductsParsed(db, AddProducts.Payloads(rows), faults)
  }

  method ProcessProductRow(session: Session, count: nat, data: ProductPayload, fault: Fault)
    returns (next: nat, aborted: bool)
    modifies session
    ensures Run(session.State(), next, aborted) == ProductStep(Run(old(session.State()), count, false), data, fault)
  {
    next, aborted := count, false;
    if fault.Raise? {
      session.Rollback();
      return count, true;
    }
    var found := session.FindProduct(data.product.code);
    if found.None? {
      session.Rollback();
      return count, true;
    }
    if found.value {
      return;
    }
    next, aborted := AddProduct(session, count, data);
  }

  method AddProduct(session: Session, count: nat, data: ProductPayload) returns (next: nat, aborted: bool)
    modifies session
    ensures Run(session.State(), next, aborted) == ProductNew(Run(old(session.State()), count, false), data)
  {
    var code := data.product.code;
    ghost var before := session.State();
    session.Add([InsertProduct(data.product)]);
    var outcome := session.Flush();
    ghost var f := Flushed(Added(before, [InsertProduct(data.product)]));
    assert f == Transition(session.State(), outcome);
    if outcome.Raised? {
      session.Rollback();
      return count, true;
    }
    var objects := AddProducts.CollectRelatedRows(code, data);
    session.Add(objects);
    assert session.State() == Added(f.state, AddProducts.RelatedRows(code, data));
    next, aborted := count + 1, false;
    if next % BatchSize == 0 {
      outcome := session.Commit();
      if outcome.Raised? {
        session.Rollback();
        return count, true;
      }
    }
  }

  method AddDataProducts(db: Db, rows: seq<Row>, faults: seq<Fault>) returns (store: Db, count: nat, completed: bool)
    ensures LegacyResult(store, count, completed) == ImportProducts(db, rows, faults)
  {
    var session := new Session(db);
    count := 0;
    var aborted := false;
    ghost var ps := AddProducts.Payloads(rows);
    var i := 0;
    while i < |rows| && !aborted
      invariant i <= |rows|
      invariant Run(session.State(), count, aborted) == ProductsUpTo(db, ps, faults, i)
    {
      var data := ParseProductData(rows[i]);
      count, aborted := ProcessProductRow(session, count, data, FaultAt(faults, i));
      i := i + 1;
    }
    if aborted {
      ProductAbortIsFinal(db, ps, faults, i, |rows|);
      completed := false;
    } else {
      var outcome := session.Commit();
      completed := outcome.Done?;
      if outcome.Raised? {
        session.Rollback();
      }
    }
    store := session.committed;
  }

  /** Once the loop has been left, the later rows change nothing. */
  lemma {:induction false} ProductAbortIsFinal(db: Db, ps: seq<ProductPayload>, faults: seq<Fault>, n: nat, m: nat)
    requires n <= m <= |ps| && ProductsUpTo(db, ps, faults, n).aborted
    ensures ProductsUpTo(db, ps, faults, m) == ProductsUpTo(db, ps, faults, n)
  {
    if n < m {
      ProductAbortIsFinal(db, ps, faults, n, m - 1);
      var before := ProductsUpTo(db, ps, faults, m - 1);
      assert ProductsUpTo(db, ps, faults, m) == ProductStep(before, ps[m - 1], FaultAt(faults, m - 1));
    }
  }

  /** The session is in good order at every row, so the lookup never fails. */
  lemma {:induction false} ProductSessionUsable(db: Db, ps: seq<ProductPayload>, faults: seq<Fault>, n: nat)
    requires n <= |ps|
    ensures !ProductsUpTo(db, ps, faults, n).session.inactive
  {
    if n > 0 {
      ProductSessionUsable(db, ps, faults, n - 1);
    }
  }

  /** A new product whose barcodes are free goes through: the counter moves, and when it reaches a
      multiple of 100 the product and its related rows are committed. */
  lemma NewProductCounted(run: Run, data: ProductPayload)
    requires !run.aborted && !run.session.inactive && run.session.pending == []
    requires data.product.code !in run.session.tx.products
    requires AddProducts.FreeBarcodes(run.session.tx, data.barcodes)
    ensures var r := ProductStep(run, data, NoFault);
            && !r.aborted && r.count == run.count + 1 && !r.session.inactive
            && (r.count % BatchSize == 0 ==> r.session.committed == r.session.tx && r.session.pending == [])
            && (r.count % BatchSize != 0 ==> r.session.committed == run.session.committed)
  {
    var s := run.session;
    var code := data.product.code;
    var tx1 := s.tx.(products := s.tx.products[code := data.product]);
    assert ApplyInserts(s.tx, s.pending) == Some(s.tx);
    AddProducts.FlushNewProduct(s, data.product);
    assert Lookup(s, code) == Some(false);
    assert AddProducts.FreeBarcodes(tx1, data.barcodes);
    AddProducts.ApplyRelatedRows(tx1, code, data);
    var s2 := SessionState(s.committed, tx1, AddProducts.RelatedRows(code, data), false);
    assert Added(Flushed(Added(s, [InsertProduct(data.product)])).state, AddProducts.RelatedRows(code, data)) == s2;
    var d2 := ApplyInserts(tx1, AddProducts.RelatedRows(code, data)).value;
    assert ApplyInserts(d2, []) == Some(d2);
    assert CommitT(s2) == Transition(SessionState(d2, d2, [], false), Done);
    assert ProductStep(run, data, NoFault) == ProductNew(run, data);
  }

  /** The first exception ends the import with the store of the last commit before it: earlier
      batches are kept, the open batch and every later row are lost. */
  lemma ProductFailureKeepsCommitted(db: Db, ps: seq<ProductPayload>, faults: seq<Fault>, n: nat)
    requires n < |ps| && !ProductsUpTo(db, ps, faults, n).aborted && ProductsUpTo(db, ps, faults, n + 1).aborted
    ensures ImportProductsParsed(db, ps, faults)
            == LegacyResult(ProductsUpTo(db, ps, faults, n).session.committed, ProductsUpTo(db, ps, faults, n + 1).count, false)
  {
    ProductAbortIsFinal(db, ps, faults, n + 1, |ps|);
  }

  /** A row with an empty code is looked up and inserted like any other: on a store without that
      code, the product with code "" is stored and counted, where the newer loop skips the row. */
  lemma EmptyCodeInserted(db: Db, data: ProductPayload)
    requires data.product.code == "" && "" !in db.products
    ensures var r := ProductStep(Start(db), data, NoFault);
            && r.count == 1 && !r.aborted && r.session.tx.products == db.products["" := data.product]
            && r.session.pending == AddProducts.RelatedRows("", data)
    ensures AddProducts.Step(AddProducts.Start(db), data, NoFault) == AddProducts.Start(db)
  {
    assert [] + [InsertProduct(data.product)] == [InsertProduct(data.product)];
    assert ApplyInserts(db, [InsertProduct(data.product)]) == Some(db.(products := db.products["" := data.product]));
    assert [] + AddProducts.RelatedRows("", data) == AddProducts.RelatedRows("", data);
  }

  // ---------------------------------------------------------------------------------------------
  // Prices

  /** One pass of the price loop: both schemas, then the stock upsert and the price upsert. */
  function PriceStep(run: Run, p: PricePayload, fault: Fault): (r: Run)
    ensures run.aborted ==> r == run
    ensures !run.aborted && r.aborted ==> r.session == Opened(run.session.committed) && r.count == run.count
    // the committed store changes only when the counter, before it moves, is a multiple of 100
    ensures r.session.committed != run.session.committed
            ==> !r.aborted && run.count % BatchSize == 0 && r.count == run.count + 1 && r.session.committed == r.session.tx
    // conversely, a row that goes through while the counter is a multiple of 100 is committed with the batch
    ensures !r.aborted && r.count == run.count + 1 && run.count % BatchSize == 0
            ==> r.session.committed == r.session.tx && r.session.pending == []
  {
    if run.aborted then run
    else
      match ValidatePricePayload(p)
      case None => Abort(run)
      case Some(price) =>
        match ValidateStockPayload(p)
        case None => Abort(run)
        case Some(stock) => if fault.Raise? then Abort(run) else PriceUpserts(run, price, stock)
  }

  /** What one price row does, by the schemas' verdicts and the store. */
  lemma PriceRowOutcomes(run: Run, p: PricePayload, fault: Fault)
    requires !run.aborted
    // a row either schema rejects ends the run
    ensures ValidatePricePayload(p).None? || ValidateStockPayload(p).None?
            ==> PriceStep(run, p, fault) == Run(Opened(run.session.committed), run.count, true)
    // a price or stock for an unknown product ends the run
    ensures fault == NoFault && !run.session.inactive && p.productCode !in run.session.tx.products
            ==> PriceStep(run, p, fault).aborted
    // a row that goes through overwrites the product's stock record and its price record
    ensures ValidatePricePayload(p).Some? && ValidateStockPayload(p).Some? && fault == NoFault
            && !run.session.inactive && run.session.pending == [] && p.productCode in run.session.tx.products
            ==> var r := PriceStep(run, p, fault);
                && r == Run(r.session, run.count + 1, false) && r.session.pending == [] && !r.session.inactive
                && (run.count % BatchSize == 0 ==> r.session.committed == r.session.tx)
                && r.session.tx == run.session.tx.(
                     prices := run.session.tx.prices[p.productCode := TiersOf(p)],
                     summaries := run.session.tx.summaries[p.productCode := StockSummary(p.quantity.value, p.maxPurchase)])
  {
  }

  function PriceUpserts(run: Run, price: PriceRecord, stock: StockRecord): Run {
    var e1 := Executed(run.session, UpsertSummary(stock.productCode, StockSummary(stock.quantity, stock.maxPurchase)));
    if e1.outcome.Raised? then Abort(run)
    else
      var e2 := Executed(e1.state, UpsertPrice(price.productCode, price.tiers));
      if e2.outcome.Raised? then Abort(run)
      else if run.count % BatchSize == 0 then
        var k := CommitT(e2.state);
        if k.outcome.Raised? then Abort(run) else Run(k.state, run.count + 1, false)
      else Run(e2.state, run.count + 1, false)
  }

  function PricesUpTo(db: Db, ps: seq<PricePayload>, faults: seq<Fault>, n: nat): Run
    requires n <= |ps|
  {
    if n == 0 then Start(db) else PriceStep(PricesUpTo(db, ps, faults, n - 1), ps[n - 1], FaultAt(faults, n - 1))
  }

  function PricePayloads(rows: seq<Row>): (ps: seq<PricePayload>)
    ensures |ps| == |rows| && forall i :: 0 <= i < |rows| ==> ps[i] == ParsePriceData(rows[i])
  {
    seq(|rows|, i requires 0 <= i < |rows| => ParsePriceData(rows[i]))
  }

  function ImportPricesParsed(db: Db, ps: seq<PricePayload>, faults: seq<Fault>): LegacyResult {
    Finish(PricesUpTo(db, ps, faults, |ps|))
  }

  function ImportPrices(db: Db, rows: seq<Row>, faults: seq<Fault>): LegacyResult {
    ImportPricesParsed(db, PricePayloads(rows), faults)
  }

  method ProcessPriceRow(session: Session, count: nat, p: PricePayload, fault: Fault) returns (next: nat, aborted: bool)
    modifies session
    ensures Run(session.State(), next, aborted) == PriceStep(Run(old(session.State()), count, false), p, fault)
  {
    var price := ValidatePricePayload(p);
    var stock := ValidateStockPayload(p);
    if price.None? || stock.None? || fault.Raise? {
      session.Rollback();
      return count, true;
    }
    var outcome := session.Execute(UpsertSummary(stock.value.productCode, StockSummary(stock.value.quantity, stock.value.maxPurchase)));
    if outcome.Raised? {
      session.Rollback();
      return count, true;
    }
    outcome := session.Execute(UpsertPrice(price.value.productCode, price.value.tiers));
    if outcome.Raised? {
      session.Rollback();
      return count, true;
    }
    if count % BatchSize == 0 {
      outcome := session.Commit();
      if outcome.Raised? {
        session.Rollback();
        return count, true;
      }
    }
    return count + 1, false;
  }

  method AddDataPrices(db: Db, rows: seq<Row>, faults: seq<Fault>) returns (store: Db, count: nat, completed: bool)
    ensures LegacyResult(store, count, completed) == ImportPrices(db, rows, faults)
  {
    var session := new Session(db);
    count := 0;
    var aborted := false;
    ghost var ps := PricePayloads(rows);
    var i := 0;
    while i < |rows| && !aborted
      invariant i <= |rows|
      invariant Run(session.State(), count, aborted) == PricesUpTo(db, ps, faults, i)
    {
      var p := ParsePriceData(rows[i]);
      count, aborted := ProcessPriceRow(session, count, p, FaultAt(faults, i));
      i := i + 1;
    }
    if aborted {
      PriceAbortIsFinal(db, ps, faults, i, |rows|);
      completed := false;
    } else {
      var outcome := session.Commit();
      completed := outcome.Done?;
      if outcome.Raised? {
        session.Rollback();
      }
    }
    store := session.committed;
  }

  lemma {:induction false} PriceAbortIsFinal(db: Db, ps: seq<PricePayload>, faults: seq<Fault>, n: nat, m: nat)
    requires n <= m <= |ps| && PricesUpTo(db, ps, faults, n).aborted
    ensures PricesUpTo(db, ps, faults, m) == PricesUpTo(db, ps, faults, n)
  {
    if n < m {
      PriceAbortIsFinal(db, ps, faults, n, m - 1);
      var before := PricesUpTo(db, ps, faults, m - 1);
      assert PricesUpTo(db, ps, faults, m) == PriceStep(before, ps[m - 1], FaultAt(faults, m - 1));
    }
  }

  /** A price row without a usable quantity (the column missing or blank) ends the whole run: the
      stock schema rejects it, and only the batches committed before it are kept. */
  lemma MissingQuantityEndsRun(db: Db, rows: seq<Row>, faults: seq<Fault>, n: nat)
    requires n < |rows| && !PricesUpTo(db, PricePayloads(rows), faults, n).aborted
    requires Get(rows[n], QuantityOnHandColumn).None? || AllSpace(Get(rows[n], QuantityOnHandColumn).value)
    ensures ImportPrices(db, rows, faults)
            == LegacyResult(PricesUpTo(db, PricePayloads(rows), faults, n).session.committed,
                            PricesUpTo(db, PricePayloads(rows), faults, n).count, false)
  {
    var ps := PricePayloads(rows);
    MissingQuantityRejected(rows[n]);
    assert ValidateStockPayload(ps[n]).None?;
    PriceRowOutcomes(PricesUpTo(db, ps, faults, n), ps[n], FaultAt(faults, n));
    PriceAbortIsFinal(db, ps, faults, n + 1, |ps|);
  }

  /** The counter starts at 0, so the first row that goes through is committed at once. */
  lemma FirstPriceRowCommitted(db: Db, p: PricePayload)
    requires ValidatePricePayload(p).Some? && ValidateStockPayload(p).Some? && p.productCode in db.products
    ensures var r := PriceStep(Start(db), p, NoFault);
            && r.count == 1 && !r.aborted && r.session.committed == r.session.tx
            && r.session.tx == db.(prices := db.prices[p.productCode := TiersOf(p)],
                                   summaries := db.summaries[p.productCode := StockSummary(p.quantity.value, p.maxPurchase)])
  {
    PriceRowOutcomes(Start(db), p, NoFault);
  }
}
