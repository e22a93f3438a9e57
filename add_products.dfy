/** The product import with per-row isolation (`add_data_products` of the add_products script):
    insert-if-absent by product code, four counters, a commit every 50 new products and once at
    the end, and a rollback of the open batch on every error except a ValueError. */
module AddProducts {
  import opened Common
  import opened DataParser
  import opened Store

  const BatchSize := 50

  datatype Counts = Counts(total: nat, success: nat, skipped: nat, errors: nat)

  /** The loop's state between two rows. */
  datatype Run = Run(session: SessionState, counts: Counts)

  /** What the import leaves behind: the committed store and the final counters. */
  datatype ImportResult = ImportResult(store: Db, counts: Counts)

  // ---------------------------------------------------------------------------------------------
  // The objects of one new product

  function BarcodeRows(code: string, barcodes: seq<string>): (r: seq<Insert>)
    ensures |r| == |barcodes|
    ensures forall j :: 0 <= j < |r| ==> r[j] == InsertBarcode(code, barcodes[j])
  {
    seq(|barcodes|, j requires 0 <= j < |barcodes| => InsertBarcode(code, barcodes[j]))
  }

  /** The objects a new product's row adds after its own flush: one description, one online
      record and one dimensions record (those dicts always have keys, so they are always truthy),
      then one barcode row per parsed barcode. */
  function RelatedRows(code: string, data: ProductPayload): (r: seq<Insert>)
    ensures |r| == 3 + |data.barcodes|
    ensures r[0] == InsertDescription(code, data.description) && r[1] == InsertOnline(code, data.onlineInfo)
            && r[2] == InsertDimensions(code, data.dimensions)
    ensures r[3..] == BarcodeRows(code, data.barcodes)
  {
    [InsertDescription(code, data.description), InsertOnline(code, data.onlineInfo),
     InsertDimensions(code, data.dimensions)] + BarcodeRows(code, data.barcodes)
  }

  // ---------------------------------------------------------------------------------------------
  // One row

  /** An exception caught by the loop: counted, and rolled back unless it is a ValueError. */
  function Failed(s: SessionState, c: Counts, kind: ErrorKind): (r: Run)
    ensures r.counts == c.(errors := c.errors + 1)
    ensures r.session == (if kind == ValueError then s else RolledBack(s))
  {
    Run(if kind == ValueError then s else RolledBack(s), c.(errors := c.errors + 1))
  }

  /** One pass of the loop body over a parsed row. */
  function Step(run: Run, data: ProductPayload, fault: Fault): (r: Run)
    // a row without a code changes nothing
    ensures data.product.code == "" ==> r == run
    // total and success move together, by at most one
    ensures r.counts.total == r.counts.success - run.counts.success + run.counts.total
    ensures r.counts.success == run.counts.success || r.counts.success == run.counts.success + 1
    ensures r.counts.total >= run.counts.total && r.counts.skipped >= run.counts.skipped
    // an existing code is only counted as skipped
    ensures r.counts.skipped > run.counts.skipped ==> r == Run(run.session, run.counts.(skipped := run.counts.skipped + 1))
    // and a code the open transaction already holds is always skipped
    ensures data.product.code != "" && fault == NoFault && !run.session.inactive && data.product.code in run.session.tx.products
            ==> r == Run(run.session, run.counts.(skipped := run.counts.skipped + 1))
    // a ValueError is counted and changes nothing else
    ensures data.product.code != "" && fault == Raise(ValueError)
            ==> r == Run(run.session, run.counts.(errors := run.counts.errors + 1))
    // any other error leaves the session at its last commit: the open batch is lost
    ensures r.counts.errors > run.counts.errors && fault != Raise(ValueError) ==> r.session == Opened(run.session.committed)
    // the committed store changes only when the total reaches a multiple of the batch size
    ensures r.session.committed != run.session.committed ==> r.counts.total == run.counts.total + 1 && r.counts.total % BatchSize == 0
    ensures r.counts.total > run.counts.total && r.counts.total % BatchSize == 0 && r.counts.errors == run.counts.errors
            ==> r.session.committed == r.session.tx && r.session.pending == []
    // a session in good order stays in good order
    ensures !run.session.inactive ==> !r.session.inactive
  {
    var code := data.product.code;
    if code == "" then run
    else if fault.Raise? then Failed(run.session, run.counts, fault.kind)
    else
      match Lookup(run.session, code)
      case None => Failed(run.session, run.counts, OtherError)
      case Some(true) => Run(run.session, run.counts.(skipped := run.counts.skipped + 1))
      case Some(false) => StepNew(run, data)
  }

  /** A row whose code the transaction does not know: the product is added and flushed, then its
      related objects are added, the row is counted, and every 50th new product is committed. */
  function StepNew(run: Run, data: ProductPayload): Run {
    var code := data.product.code;
    var f := Flushed(Added(run.session, [InsertProduct(data.product)]));
    if f.outcome.Raised? then Failed(f.state, run.counts, f.outcome.kind)
    else
      var s := Added(f.state, RelatedRows(code, data));
      var c := run.counts.(total := run.counts.total + 1, success := run.counts.success + 1);
      if c.total % BatchSize == 0 then
        var k := CommitT(s);
        if k.outcome.Raised? then Failed(k.state, c, k.outcome.kind) else Run(k.state, c)
      else Run(s, c)
  }

  function Start(db: Db): Run {
    Run(Opened(db), Counts(0, 0, 0, 0))
  }

  /** The final commit; when it fails, the outer handler rolls back, so the store is what the last
      successful commit left. */
  function Finish(run: Run): (r: ImportResult)
    ensures r.counts == run.counts
    ensures CommitT(run.session).outcome.Raised? ==> r.store == run.session.committed
  {
    ImportResult(CommitT(run.session).state.committed, run.counts)
  }

  /** The parsed rows of a file. */
  function Payloads(rows: seq<Row>): (ps: seq<ProductPayload>)
    ensures |ps| == |rows| && forall i :: 0 <= i < |rows| ==> ps[i] == ParseProductData(rows[i])
  {
    seq(|rows|, i requires 0 <= i < |rows| => ParseProductData(rows[i]))
  }

  /** The loop after its first `n` parsed rows. */
  function RunUpTo(db: Db, ps: seq<ProductPayload>, faults: seq<Fault>, n: nat): Run
    requires n <= |ps|
  {
    if n == 0 then Start(db) else Step(RunUpTo(db, ps, faults, n - 1), ps[n - 1], FaultAt(faults, n - 1))
  }

  /** The whole import: row `i` of the file meets fault `i`. */
  function Import(db: Db, rows: seq<Row>, faults: seq<Fault>): ImportResult {
    Finish(RunUpTo(db, Payloads(rows), faults, |rows|))
  }

  // ---------------------------------------------------------------------------------------------
  // The loop

  /** The body of the loop for one parsed row. */
  method ProcessRow(session: Session, counts: Counts, data: ProductPayload, fault: Fault)
    returns (next: Counts)
    modifies session
    ensures Run(session.State(), next) == Step(Run(old(session.State()), counts), data, fault)
  {
    next := counts;
    var code := data.product.code;
    if code == "" {
      return;
    }
    if fault.Raise? {
      next := next.(errors := next.errors + 1);
      if fault.kind != ValueError {
        session.Rollback();
      }
      return;
    }
    var found := session.FindProduct(code);
    if found.None? {
      next := next.(errors := next.errors + 1);
      session.Rollback();
      return;
    }
    if found.value {
      next := next.(skipped := next.skipped + 1);
      return;
    }
    next := AddNewProduct(session, counts, data);
  }

  /** `objects_to_add`: the description, online and dimensions objects, then one barcode object
      per parsed barcode. */
  method CollectRelatedRows(code: string, data: ProductPayload) returns (objects: seq<Insert>)
    ensures objects == RelatedRows(code, data)
  {
    objects := [InsertDescription(code, data.description), InsertOnline(code, data.onlineInfo),
                InsertDimensions(code, data.dimensions)];
    for j := 0 to |data.barcodes|
      invariant objects == RelatedRows(code, data)[..3 + j]
    {
      objects := objects + [InsertBarcode(code, data.barcodes[j])];
    }
    assert objects == RelatedRows(code, data);
  }

  /** The part of the loop body for a product the transaction does not know yet. */
  method AddNewProduct(session: Session, counts: Counts, data: ProductPayload) returns (next: Counts)
    modifies session
    ensures Run(session.State(), next) == StepNew(Run(old(session.State()), counts), data)
  {
    next := counts;
    var code := data.product.code;
    ghost var before := session.State();
    session.Add([InsertProduct(data.product)]);
    var outcome := session.Flush();
    ghost var f := Flushed(Added(before, [InsertProduct(data.product)]));
    assert f == Transition(session.State(), outcome);
    if outcome.Raised? {
      next := next.(errors := next.errors + 1);
      if outcome.kind != ValueError {
        session.Rollback();
      }
      return;
    }
    var objects := CollectRelatedRows(code, data);
    session.Add(objects);
    assert session.State() == Added(f.state, RelatedRows(code, data));
    next := next.(total := next.total + 1, success := next.success + 1);
    if next.total % BatchSize == 0 {
      outcome := session.Commit();
      if outcome.Raised? {
        next := next.(errors := next.errors + 1);
        if outcome.kind != ValueError {
          session.Rollback();
        }
      }
    }
  }

  method AddDataProducts(db: Db, rows: seq<Row>, faults: seq<Fault>) returns (store: Db, counts: Counts)
    ensures ImportResult(store, counts) == Import(db, rows, faults)
  {
    var session := new Session(db);
    counts := Counts(0, 0, 0, 0);
    ghost var ps := Payloads(rows);
    for i := 0 to |rows|
      invariant Run(session.State(), counts) == RunUpTo(db, ps, faults, i)
    {
      var data := ParseProductData(rows[i]);
      counts := ProcessRow(session, counts, data, FaultAt(faults, i));
    }
    var outcome := session.Commit();
    if outcome.Raised? {
      session.Rollback();
    }
    store := session.committed;
  }

  // ---------------------------------------------------------------------------------------------
  // Properties of the whole run

  /** `total_count` and `success_count` are equal after every row. */
  lemma {:induction false} TotalIsSuccess(db: Db, ps: seq<ProductPayload>, faults: seq<Fault>, n: nat)
    requires n <= |ps|
    ensures RunUpTo(db, ps, faults, n).counts.total == RunUpTo(db, ps, faults, n).counts.success
    ensures !RunUpTo(db, ps, faults, n).session.inactive
  {
    if n > 0 {
      TotalIsSuccess(db, ps, faults, n - 1);
    }
  }

  lemma ImportTotalIsSuccess(db: Db, rows: seq<Row>, faults: seq<Fault>)
    ensures Import(db, rows, faults).counts.total == Import(db, rows, faults).counts.success
  {
    TotalIsSuccess(db, Payloads(rows), faults, |rows|);
  }

  // ---------------------------------------------------------------------------------------------
  // What a flush of the new rows does

  lemma {:induction false} ApplyInsertsConcat(db: Db, xs: seq<Insert>, ys: seq<Insert>)
    ensures ApplyInserts(db, xs + ys)
            == (match ApplyInserts(db, xs) case None => None case Some(d) => ApplyInserts(d, ys))
    decreases |xs|
  {
    if |xs| == 0 {
      assert xs + ys == ys;
    } else {
      assert (xs + ys)[0] == xs[0];
      assert (xs + ys)[1..] == xs[1..] + ys;
      match ApplyInsert(db, xs[0])
      case None =>
      case Some(d1) => ApplyInsertsConcat(d1, xs[1..], ys);
    }
  }

  predicate DistinctBarcodes(bs: seq<string>) {
    forall i, j :: 0 <= i < j < |bs| ==> bs[i] != bs[j]
  }

  /** The barcodes of a product, as the barcodes table maps them. */
  function BarcodeMap(code: string, bs: seq<string>): (m: map<string, string>)
    ensures m.Keys == set b | b in bs
    ensures forall b :: b in m ==> m[b] == code
  {
    map b | b in bs :: code
  }

  /** None of the barcodes is repeated or already taken. */
  predicate FreeBarcodes(db: Db, bs: seq<string>) {
    DistinctBarcodes(bs) && forall j :: 0 <= j < |bs| ==> bs[j] !in db.barcodes
  }

  lemma FreeBarcodesSplit(db: Db, code: string, bs: seq<string>)
    requires |bs| > 0
    ensures FreeBarcodes(db, bs)
            <==> bs[0] !in db.barcodes && FreeBarcodes(db.(barcodes := db.barcodes[bs[0] := code]), bs[1..])
  {
    var tail := bs[1..];
    var d1 := db.(barcodes := db.barcodes[bs[0] := code]);
    if FreeBarcodes(db, bs) {
      forall j | 0 <= j < |tail| ensures tail[j] !in d1.barcodes {
        assert tail[j] == bs[j + 1];
      }
      forall i, j | 0 <= i < j < |tail| ensures tail[i] != tail[j] {
        assert tail[i] == bs[i + 1] && tail[j] == bs[j + 1];
      }
    }
    if bs[0] !in db.barcodes && FreeBarcodes(d1, tail) {
      forall j | 0 <= j < |bs| ensures bs[j] !in db.barcodes {
        if j > 0 { assert bs[j] == tail[j - 1]; }
      }
      forall i, j | 0 <= i < j < |bs| ensures bs[i] != bs[j] {
        assert bs[j] == tail[j - 1];
        if i > 0 { assert bs[i] == tail[i - 1]; }
      }
    }
  }

  lemma BarcodeMapCons(m: map<string, string>, code: string, bs: seq<string>)
    requires |bs| > 0
    ensures m[bs[0] := code] + BarcodeMap(code, bs[1..]) == m + BarcodeMap(code, bs)
  {
    assert forall b :: b in bs <==> b == bs[0] || b in bs[1..] by {
      forall b ensures b in bs <==> b == bs[0] || b in bs[1..] {
        if b in bs {
          var j :| 0 <= j < |bs| && bs[j] == b;
          if j > 0 { assert bs[1..][j - 1] == b; }
        }
      }
    }
  }

  /** Inserting a product's barcodes succeeds exactly when they are distinct and not taken, and
      then adds exactly them. */
  lemma {:induction false} ApplyBarcodeRows(db: Db, code: string, bs: seq<string>)
    requires code in db.products
    ensures ApplyInserts(db, BarcodeRows(code, bs)).Some? <==> FreeBarcodes(db, bs)
    ensures ApplyInserts(db, BarcodeRows(code, bs)).Some?
            ==> ApplyInserts(db, BarcodeRows(code, bs)).value == db.(barcodes := db.barcodes + BarcodeMap(code, bs))
    decreases |bs|
  {
    var rows := BarcodeRows(code, bs);
    if |bs| == 0 {
      assert db.barcodes + BarcodeMap(code, bs) == db.barcodes;
    } else {
      FreeBarcodesSplit(db, code, bs);
      if bs[0] !in db.barcodes {
        var d1 := db.(barcodes := db.barcodes[bs[0] := code]);
        assert ApplyInsert(db, rows[0]) == Some(d1);
        assert rows[1..] == BarcodeRows(code, bs[1..]);
        assert ApplyInserts(db, rows) == ApplyInserts(d1, rows[1..]);
        ApplyBarcodeRows(d1, code, bs[1..]);
        BarcodeMapCons(db.barcodes, code, bs);
      }
    }
  }

  /** The records a new product's row adds, once flushed: exactly one description, one online
      record and one dimensions record, and its barcodes; the flush fails when a barcode is
      repeated or already taken. */
  lemma ApplyRelatedRows(db: Db, code: string, data: ProductPayload)
    requires code in db.products
    ensures ApplyInserts(db, RelatedRows(code, data)).Some? <==> FreeBarcodes(db, data.barcodes)
    ensures ApplyInserts(db, RelatedRows(code, data)).Some? ==>
              ApplyInserts(db, RelatedRows(code, data)).value == db.(
                descriptions := db.descriptions + [(code, data.description)],
                online := db.online + [(code, data.onlineInfo)],
                dimensions := db.dimensions + [(code, data.dimensions)],
                barcodes := db.barcodes + BarcodeMap(code, data.barcodes))
  {
    var three := RelatedRows(code, data)[..3];
    assert RelatedRows(code, data) == three + BarcodeRows(code, data.barcodes);
    var d3 := db.(descriptions := db.descriptions + [(code, data.description)],
                  online := db.online + [(code, data.onlineInfo)],
                  dimensions := db.dimensions + [(code, data.dimensions)]);
    assert ApplyInserts(db, three) == Some(d3) by {
      var d1 := db.(descriptions := db.descriptions + [(code, data.description)]);
      var d2 := d1.(online := db.online + [(code, data.onlineInfo)]);
      var t1 := three[1..];
      var t2 := t1[1..];
      assert t2[1..] == [];
      assert ApplyInsert(d2, t2[0]) == Some(d3);
      assert ApplyInserts(d2, t2) == Some(d3);
      assert ApplyInsert(d1, t1[0]) == Some(d2);
      assert ApplyInserts(d1, t1) == Some(d3);
      assert ApplyInsert(db, three[0]) == Some(d1);
    }
    ApplyInsertsConcat(db, three, BarcodeRows(code, data.barcodes));
    ApplyBarcodeRows(d3, code, data.barcodes);
  }

  /** A taken barcode anywhere in a flush makes the whole flush fail. */
  lemma {:induction false} TakenBarcodeFailsFlush(db: Db, objs: seq<Insert>, j: nat)
    requires j < |objs| && objs[j].InsertBarcode? && objs[j].barcode in db.barcodes
    ensures ApplyInserts(db, objs).None?
    decreases j
  {
    if j > 0 {
      match ApplyInsert(db, objs[0])
      case None =>
      case Some(d1) =>
        assert objs[1..][j - 1] == objs[j];
        TakenBarcodeFailsFlush(d1, objs[1..], j - 1);
    }
  }

  // ---------------------------------------------------------------------------------------------
  // Scenarios

  /** A new product from a fresh session: after the final commit the store holds the product, its
      three records and its barcodes, and nothing else has changed. */
  lemma NewProductStored(db: Db, data: ProductPayload)
    requires data.product.code != "" && data.product.code !in db.products
    requires FreeBarcodes(db, data.barcodes)
    ensures var code := data.product.code;
            var r := Finish(Step(Start(db), data, NoFault));
            && r.counts == Counts(1, 1, 0, 0)
            && r.store == db.(
                 products := db.products[code := data.product],
                 descriptions := db.descriptions + [(code, data.description)],
                 online := db.online + [(code, data.onlineInfo)],
                 dimensions := db.dimensions + [(code, data.dimensions)],
                 barcodes := db.barcodes + BarcodeMap(code, data.barcodes))
  {
    var code := data.product.code;
    var d1 := db.(products := db.products[code := data.product]);
    assert ApplyInserts(db, [InsertProduct(data.product)]) == Some(d1) by {
      assert ApplyInsert(db, InsertProduct(data.product)) == Some(d1);
      assert [InsertProduct(data.product)][1..] == [];
    }
    assert [] + [InsertProduct(data.product)] == [InsertProduct(data.product)];
    assert [] + RelatedRows(code, data) == RelatedRows(code, data);
    ApplyRelatedRows(d1, code, data);
  }

  /** The second row with a code already flushed in the same run is skipped. */
  lemma RepeatedCodeSkipped(db: Db, a: ProductPayload, b: ProductPayload)
    requires a.product.code != "" && a.product.code !in db.products && b.product.code == a.product.code
    ensures var r1 := Step(Start(db), a, NoFault);
            var r2 := Step(r1, b, NoFault);
            r1.counts == Counts(1, 1, 0, 0) && r2 == Run(r1.session, Counts(1, 1, 1, 0))
  {
    var d1 := db.(products := db.products[a.product.code := a.product]);
    assert ApplyInserts(db, [InsertProduct(a.product)]) == Some(d1) by {
      assert ApplyInsert(db, InsertProduct(a.product)) == Some(d1);
      assert [InsertProduct(a.product)][1..] == [];
    }
  }

  /** A barcode that is already taken is not noticed by its own row, which is counted as a
      success, but by the flush of the next new product: that row is counted as an error, and the
      rollback discards both products. */
  lemma DelayedBarcodeFailure(db: Db, a: ProductPayload, b: ProductPayload)
    requires a.product.code != "" && a.product.code !in db.products
    requires b.product.code != "" && b.product.code !in db.products && b.product.code != a.product.code
    requires |a.barcodes| > 0 && a.barcodes[0] in db.barcodes
    ensures var r1 := Step(Start(db), a, NoFault);
            var r2 := Step(r1, b, NoFault);
            && r1.counts == Counts(1, 1, 0, 0)
            && r2 == Run(Opened(db), Counts(1, 1, 0, 1))
            && Finish(r2).store == db
  {
    var d1 := db.(products := db.products[a.product.code := a.product]);
    assert ApplyInserts(db, [InsertProduct(a.product)]) == Some(d1) by {
      assert ApplyInsert(db, InsertProduct(a.product)) == Some(d1);
      assert [InsertProduct(a.product)][1..] == [];
    }
    var r1 := Step(Start(db), a, NoFault);
    assert r1.session.tx == d1 && r1.session.pending == RelatedRows(a.product.code, a);
    var objs := RelatedRows(a.product.code, a) + [InsertProduct(b.product)];
    assert objs[3] == InsertBarcode(a.product.code, a.barcodes[0]);
    TakenBarcodeFailsFlush(d1, objs, 3);
    assert Lookup(r1.session, b.product.code) == Some(false);
    assert Flushed(Added(r1.session, [InsertProduct(b.product)])).outcome == Raised(IntegrityError);
    assert Step(r1, b, NoFault) == StepNew(r1, b);
  }

  /** An error after a counted success throws that success away: the product was counted, but
      the rollback removes it before any commit, and the import ends with the store it began with. */
  lemma ErrorDiscardsCountedSuccess(db: Db, a: ProductPayload, b: ProductPayload, kind: ErrorKind)
    requires a.product.code != "" && a.product.code !in db.products
    requires b.product.code != "" && kind != ValueError
    ensures var r2 := Step(Step(Start(db), a, NoFault), b, Raise(kind));
            r2.counts == Counts(1, 1, 0, 1) && Finish(r2).store == db
  {
    var d1 := db.(products := db.products[a.product.code := a.product]);
    assert ApplyInserts(db, [InsertProduct(a.product)]) == Some(d1) by {
      assert ApplyInsert(db, InsertProduct(a.product)) == Some(d1);
      assert [InsertProduct(a.product)][1..] == [];
    }
  }

  // ---------------------------------------------------------------------------------------------
  // Running the same file twice

  /** The number of the first `n` rows that have a code: the rows the loop does not skip outright. */
  function CodedRows(ps: seq<ProductPayload>, n: nat): (k: nat)
    requires n <= |ps|
    ensures k <= n
  {
    if n == 0 then 0 else CodedRows(ps, n - 1) + (if ps[n - 1].product.code != "" then 1 else 0)
  }

  /** Every code of the file is already a product of the store. */
  predicate AllCodesStored(db: Db, ps: seq<ProductPayload>) {
    forall i :: 0 <= i < |ps| && ps[i].product.code != "" ==> ps[i].product.code in db.products
  }

  /** A store that already holds every code of the file: each row with a code is only counted as
      skipped, and the session never leaves the state it was opened in. */
  lemma {:induction false} StoredRowsSkipped(db: Db, ps: seq<ProductPayload>, n: nat)
    requires n <= |ps| && AllCodesStored(db, ps)
    ensures RunUpTo(db, ps, [], n) == Run(Opened(db), Counts(0, 0, CodedRows(ps, n), 0))
  {
    if n > 0 {
      StoredRowsSkipped(db, ps, n - 1);
      var prev := RunUpTo(db, ps, [], n - 1);
      assert RunUpTo(db, ps, [], n) == Step(prev, ps[n - 1], NoFault);
      if ps[n - 1].product.code != "" {
        assert Lookup(prev.session, ps[n - 1].product.code) == Some(true);
      }
    }
  }

  /** Importing a file into a store that holds all its codes changes nothing: every row with a
      code is skipped, none is added and none fails. */
  lemma {:induction false} StoredImportChangesNothing(db: Db, rows: seq<Row>)
    requires AllCodesStored(db, Payloads(rows))
    ensures Import(db, rows, []) == ImportResult(db, Counts(0, 0, CodedRows(Payloads(rows), |rows|), 0))
  {
    StoredRunChangesNothing(db, Payloads(rows));
  }

  lemma {:induction false} StoredRunChangesNothing(db: Db, ps: seq<ProductPayload>)
    requires AllCodesStored(db, ps)
    ensures Finish(RunUpTo(db, ps, [], |ps|)) == ImportResult(db, Counts(0, 0, CodedRows(ps, |ps|), 0))
  {
    StoredRowsSkipped(db, ps, |ps|);
    CommitOfCleanSession(Opened(db));
  }

  /** No barcode of the file is taken in the store, and no two barcode cells of the file (in the
      same row or in different rows) are equal. */
  predicate FileBarcodesFree(db: Db, ps: seq<ProductPayload>) {
    && (forall i, a :: 0 <= i < |ps| && 0 <= a < |ps[i].barcodes| ==> ps[i].barcodes[a] !in db.barcodes)
    && (forall i, a, j, b ::
          (0 <= i < |ps| && 0 <= a < |ps[i].barcodes| && 0 <= j < |ps| && 0 <= b < |ps[j].barcodes| && (i, a) != (j, b))
          ==> ps[i].barcodes[a] != ps[j].barcodes[b])
  }

  /** The state of a fault-free first run after `n` rows: the session is usable, its queue would
      flush, the queue adds no product, every code seen so far is in the transaction, and no barcode
      of a later row is taken once the queue is flushed. */
  predicate CleanSoFar(s: SessionState, ps: seq<ProductPayload>, n: nat)
    requires n <= |ps|
  {
    && !s.inactive
    && ApplyInserts(s.tx, s.pending).Some?
    && ApplyInserts(s.tx, s.pending).value.products == s.tx.products
    && (forall i :: 0 <= i < n && ps[i].product.code != "" ==> ps[i].product.code in s.tx.products)
    && (forall i, a :: n <= i < |ps| && 0 <= a < |ps[i].barcodes| ==>
          ps[i].barcodes[a] !in ApplyInserts(s.tx, s.pending).value.barcodes)
  }

  /** Flushing a new product onto a queue that would flush adds exactly that product. */
  lemma {:induction false} FlushNewProduct(s: SessionState, product: ProductFields)
    requires !s.inactive && ApplyInserts(s.tx, s.pending).Some?
    requires product.code !in ApplyInserts(s.tx, s.pending).value.products
    ensures var d := ApplyInserts(s.tx, s.pending).value;
            Flushed(Added(s, [InsertProduct(product)]))
            == Transition(SessionState(s.committed, d.(products := d.products[product.code := product]), [], false), Done)
  {
    var p := InsertProduct(product);
    var d := ApplyInserts(s.tx, s.pending).value;
    var tx1 := d.(products := d.products[product.code := product]);
    ApplyInsertsConcat(s.tx, s.pending, [p]);
    assert ApplyInserts(d, [p]) == Some(tx1) by {
      assert ApplyInsert(d, p) == Some(tx1);
      assert [p][1..] == [];
    }
  }

  /** The related rows of a row whose barcodes are free leave the later rows' barcodes free. */
  lemma {:induction false} RelatedRowsKeepLaterBarcodesFree(db: Db, tx1: Db, ps: seq<ProductPayload>, n: nat)
    requires n < |ps| && FileBarcodesFree(db, ps) && ps[n].product.code in tx1.products
    requires forall i, a :: n <= i < |ps| && 0 <= a < |ps[i].barcodes| ==> ps[i].barcodes[a] !in tx1.barcodes
    ensures ApplyInserts(tx1, RelatedRows(ps[n].product.code, ps[n])).Some?
    ensures var d2 := ApplyInserts(tx1, RelatedRows(ps[n].product.code, ps[n])).value;
            && d2.products == tx1.products
            && forall i, a :: n + 1 <= i < |ps| && 0 <= a < |ps[i].barcodes| ==> ps[i].barcodes[a] !in d2.barcodes
  {
    var data := ps[n];
    var code := data.product.code;
    assert FreeBarcodes(tx1, data.barcodes) by {
      assert forall a :: 0 <= a < |data.barcodes| ==> data.barcodes[a] !in tx1.barcodes;
    }
    ApplyRelatedRows(tx1, code, data);
    var d2 := ApplyInserts(tx1, RelatedRows(code, data)).value;
    forall i, a | n + 1 <= i < |ps| && 0 <= a < |ps[i].barcodes|
      ensures ps[i].barcodes[a] !in d2.barcodes
    {
      assert ps[i].barcodes[a] !in tx1.barcodes;
      assert forall b :: 0 <= b < |data.barcodes| ==> ps[i].barcodes[a] != data.barcodes[b];
    }
  }

  /** The new-product path keeps a clean run clean. */
  lemma {:induction false} CleanNewProduct(db: Db, run: Run, ps: seq<ProductPayload>, n: nat)
    requires n < |ps| && FileBarcodesFree(db, ps) && CleanSoFar(run.session, ps, n)
    requires ps[n].product.code !in run.session.tx.products
    ensures CleanSoFar(StepNew(run, ps[n]).session, ps, n + 1)
  {
    var s := run.session;
    var data := ps[n];
    var code := data.product.code;
    var d := ApplyInserts(s.tx, s.pending).value;
    var tx1 := d.(products := d.products[code := data.product]);
    FlushNewProduct(s, data.product);
    var f := Flushed(Added(s, [InsertProduct(data.product)]));
    RelatedRowsKeepLaterBarcodesFree(db, tx1, ps, n);
    var s2 := Added(f.state, RelatedRows(code, data));
    assert s2 == SessionState(s.committed, tx1, RelatedRows(code, data), false);
    assert CleanSoFar(s2, ps, n + 1);
    var c := run.counts.(total := run.counts.total + 1, success := run.counts.success + 1);
    if c.total % BatchSize == 0 {
      var d2 := ApplyInserts(tx1, RelatedRows(code, data)).value;
      assert ApplyInserts(d2, []) == Some(d2);
      assert CommitT(s2).state == SessionState(d2, d2, [], false);
    }
  }

  /** One row keeps a clean run clean. */
  lemma {:induction false} CleanStep(db: Db, run: Run, ps: seq<ProductPayload>, n: nat)
    requires n < |ps| && FileBarcodesFree(db, ps) && CleanSoFar(run.session, ps, n)
    ensures CleanSoFar(Step(run, ps[n], NoFault).session, ps, n + 1)
  {
    var code := ps[n].product.code;
    if code != "" && code !in run.session.tx.products {
      assert Lookup(run.session, code) == Some(false);
      assert Step(run, ps[n], NoFault) == StepNew(run, ps[n]);
      CleanNewProduct(db, run, ps, n);
    }
  }

  /** Without faults the fold's n-th step is a fault-free Step. */
  lemma FaultFreeStep(db: Db, ps: seq<ProductPayload>, n: nat)
    requires 0 < n <= |ps|
    ensures RunUpTo(db, ps, [], n) == Step(RunUpTo(db, ps, [], n - 1), ps[n - 1], NoFault)
  {
    assert FaultAt([], n - 1) == NoFault;
  }

  /** The fault-free loop resumed at row `k` from `run` and stopped before row `m`, folding from
      the left so that each step starts from a plain state. */
  function RunFrom(run: Run, ps: seq<ProductPayload>, k: nat, m: nat): Run
    requires k <= m <= |ps|
    decreases m - k
  {
    if k == m then run else RunFrom(Step(run, ps[k], NoFault), ps, k + 1, m)
  }

  /** The resumed loop's last step is a fault-free Step. */
  lemma {:induction false} RunFromLast(run: Run, ps: seq<ProductPayload>, k: nat, m: nat)
    requires k < m <= |ps|
    ensures RunFrom(run, ps, k, m) == Step(RunFrom(run, ps, k, m - 1), ps[m - 1], NoFault)
    decreases m - k
  {
    if k + 1 < m {
      RunFromLast(Step(run, ps[k], NoFault), ps, k + 1, m);
    }
  }

  /** The fault-free loop folded from the left is the loop after the same rows. */
  lemma {:induction false} RunFromStart(db: Db, ps: seq<ProductPayload>, n: nat)
    requires n <= |ps|
    ensures RunFrom(Start(db), ps, 0, n) == RunUpTo(db, ps, [], n)
  {
    if n > 0 {
      RunFromStart(db, ps, n - 1);
      RunFromLast(Start(db), ps, 0, n);
      FaultFreeStep(db, ps, n);
    }
  }

  /** Rows `k` to `m` keep a clean run clean. */
  lemma {:induction false} CleanFrom(db: Db, ps: seq<ProductPayload>, run: Run, k: nat, m: nat)
    requires k <= m <= |ps| && FileBarcodesFree(db, ps) && CleanSoFar(run.session, ps, k)
    ensures CleanSoFar(RunFrom(run, ps, k, m).session, ps, m)
    decreases m - k
  {
    if k < m {
      CleanStep(db, run, ps, k);
      CleanFrom(db, ps, Step(run, ps[k], NoFault), k + 1, m);
    }
  }

  lemma {:induction false} CleanRun(db: Db, ps: seq<ProductPayload>, n: nat)
    requires n <= |ps| && FileBarcodesFree(db, ps)
    ensures CleanSoFar(RunUpTo(db, ps, [], n).session, ps, n)
  {
    CleanFrom(db, ps, Start(db), 0, n);
    RunFromStart(db, ps, n);
  }

  /** A fault-free import of a file whose barcodes are all free and distinct stores every code of
      the file. */
  lemma {:induction false} FirstImportStoresEveryCode(db: Db, rows: seq<Row>)
    requires FileBarcodesFree(db, Payloads(rows))
    ensures AllCodesStored(Import(db, rows, []).store, Payloads(rows))
  {
    FirstRunStoresEveryCode(db, Payloads(rows));
  }

  lemma {:induction false} FirstRunStoresEveryCode(db: Db, ps: seq<ProductPayload>)
    requires FileBarcodesFree(db, ps)
    ensures AllCodesStored(Finish(RunUpTo(db, ps, [], |ps|)).store, ps)
  {
    CleanRun(db, ps, |ps|);
  }

  /** Running the same fault-free import twice: the second run skips every row with a code and
      leaves the store as the first run left it. The second run's `skipped` counts rows, not
      products, so it exceeds the first run's successes when a code repeats in the file. */
  lemma {:induction false} ProductImportIdempotent(db: Db, rows: seq<Row>)
    requires FileBarcodesFree(db, Payloads(rows))
    ensures var once := Import(db, rows, []).store;
            Import(once, rows, []) == ImportResult(once, Counts(0, 0, CodedRows(Payloads(rows), |rows|), 0))
  {
    FirstImportStoresEveryCode(db, rows);
    StoredImportChangesNothing(Import(db, rows, []).store, rows);
  }
}
