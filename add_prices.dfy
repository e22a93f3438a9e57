/** The price import with per-row isolation (`add_data_prices` of the add_prices script): each row is
    validated against the price schema, then upserted by product code; a batch is committed when
    the counter, checked before it is incremented, is a positive multiple of 100, and once at the end. */
module AddPrices {
  import opened Common
  import opened DataParser
  import opened Schemas
  import opened Store

  const BatchSize := 100

  datatype Counts = Counts(counter: nat, success: nat, errors: nat)

  datatype Run = Run(session: SessionState, counts: Counts)

  datatype ImportResult = ImportResult(store: Db, counts: Counts)

  /** An exception caught by the loop: counted, and rolled back unless it is a ValueError. */
  function Failed(s: SessionState, c: Counts, kind: ErrorKind): (r: Run)
    ensures r.counts == c.(errors := c.errors + 1)
    ensures r.session == (if kind == ValueError then s else RolledBack(s))
  {
    Run(if kind == ValueError then s else RolledBack(s), c.(errors := c.errors + 1))
  }

  /** A price row that validates and has a code: the record the loop upserts. */
  function PriceRecordOf(p: PricePayload): (r: Option<PriceRecord>)
    ensures r.Some? <==> ValidatePricePayload(p).Some? && p.productCode != ""
    ensures r.Some? ==> r.value == PriceRecord(p.productCode, TiersOf(p))
  {
    var v := ValidatePricePayload(p);
    if v.Some? && v.value.productCode != "" then v else None
  }

  /** One pass of the loop body over a parsed row. */
  function Step(run: Run, p: PricePayload, fault: Fault): (r: Run)
    // a row that fails validation is counted in the ValueError branch and upserts nothing
    ensures ValidatePricePayload(p).None? ==> r == Run(run.session, run.counts.(errors := run.counts.errors + 1))
    // a row without a code is skipped without counting
    ensures ValidatePricePayload(p).Some? && p.productCode == "" ==> r == run
    // the committed store changes only at a batch commit, checked before the counter moves
    ensures r.session.committed != run.session.committed
            ==> run.counts.counter % BatchSize == 0 && run.counts.counter > 0
                && r.counts.success == run.counts.success + 1
    // an error other than a ValueError discards everything since the last commit
    ensures r.counts.errors > run.counts.errors && ValidatePricePayload(p).Some? && fault != Raise(ValueError)
            ==> r.session == Opened(run.session.committed)
    // a price for an unknown product breaks the foreign key
    ensures PriceRecordOf(p).Some? && fault == NoFault && !run.session.inactive && p.productCode !in run.session.tx.products
            ==> r == Run(Opened(run.session.committed), run.counts.(errors := run.counts.errors + 1))
    // a successful row leaves exactly the row's tiers under its code, and changes no other table
    ensures PriceRecordOf(p).Some? && fault == NoFault && !run.session.inactive && run.session.pending == []
            && p.productCode in run.session.tx.products
            ==> && r.counts == Counts(run.counts.counter + 1, run.counts.success + 1, run.counts.errors)
                && r.session.tx == run.session.tx.(prices := run.session.tx.prices[p.productCode := TiersOf(p)])
                && r.session.pending == [] && !r.session.inactive
    // conversely, a row that moves the counter at a batch boundary has committed everything
    ensures r.counts.counter == run.counts.counter + 1 && run.counts.counter % BatchSize == 0 && run.counts.counter > 0
            ==> r.session.committed == r.session.tx && r.session.pending == []
    // so a successful row at a batch boundary commits the transaction
    ensures PriceRecordOf(p).Some? && fault == NoFault && !run.session.inactive && run.session.pending == []
            && p.productCode in run.session.tx.products && run.counts.counter % BatchSize == 0 && run.counts.counter > 0
            ==> r.session.committed == r.session.tx
    ensures r.counts.counter <= run.counts.counter + 1 && r.counts.success <= run.counts.success + 1
  {
    match ValidatePricePayload(p)
    case None => Run(run.session, run.counts.(errors := run.counts.errors + 1))
    case Some(record) =>
      if record.productCode == "" then run
      else if fault.Raise? then Failed(run.session, run.counts, fault.kind)
      else StepUpsert(run, record)
  }

  /** The upsert of a validated record, then the batch commit check and the counter. */
  function StepUpsert(run: Run, record: PriceRecord): Run {
    var e := Executed(run.session, UpsertPrice(record.productCode, record.tiers));
    if e.outcome.Raised? then Failed(e.state, run.counts, e.outcome.kind)
    else
      var c := run.counts.(success := run.counts.success + 1);
      if run.counts.counter % BatchSize == 0 && run.counts.counter > 0 then
        var k := CommitT(e.state);
        if k.outcome.Raised? then Failed(k.state, c, k.outcome.kind)
        else Run(k.state, c.(counter := c.counter + 1))
      else Run(e.state, c.(counter := c.counter + 1))
  }

  function Start(db: Db): Run {
    Run(Opened(db), Counts(0, 0, 0))
  }

  /** The final commit; when it fails, the outer handler rolls back. */
  function Finish(run: Run): (r: ImportResult)
    ensures r.counts == run.counts
    ensures CommitT(run.session).outcome.Raised? ==> r.store == run.session.committed
  {
    ImportResult(CommitT(run.session).state.committed, run.counts)
  }

  function Payloads(rows: seq<Row>): (ps: seq<PricePayload>)
    ensures |ps| == |rows| && forall i :: 0 <= i < |rows| ==> ps[i] == ParsePriceData(rows[i])
  {
    seq(|rows|, i requires 0 <= i < |rows| => ParsePriceData(rows[i]))
  }

  function RunUpTo(db: Db, ps: seq<PricePayload>, faults: seq<Fault>, n: nat): Run
    requires n <= |ps|
  {
    if n == 0 then Start(db) else Step(RunUpTo(db, ps, faults, n - 1), ps[n - 1], FaultAt(faults, n - 1))
  }

  /** The whole loop over the parsed rows, then the final commit. */
  function ImportParsed(db: Db, ps: seq<PricePayload>, faults: seq<Fault>): ImportResult {
    Finish(RunUpTo(db, ps, faults, |ps|))
  }

  function Import(db: Db, rows: seq<Row>, faults: seq<Fault>): ImportResult {
    ImportParsed(db, Payloads(rows), faults)
  }

  // ---------------------------------------------------------------------------------------------
  // The loop

  method ProcessRow(session: Session, counts: Counts, p: PricePayload, fault: Fault) returns (next: Counts)
    modifies session
    ensures Run(session.State(), next) == Step(Run(old(session.State()), counts), p, fault)
  {
    next := counts;
    var validated := ValidatePricePayload(p);
    if validated.None? {
      next := next.(errors := next.errors + 1);
      return;
    }
    var record := validated.value;
    if record.productCode == "" {
      return;
    }
    if fault.Raise? {
      next := next.(errors := next.errors + 1);
      if fault.kind != ValueError {
        session.Rollback();
      }
      return;
    }
    var outcome := session.Execute(UpsertPrice(record.productCode, record.tiers));
    if outcome.Raised? {
      next := next.(errors := next.errors + 1);
      if outcome.kind != ValueError {
        session.Rollback();
      }
      return;
    }
    next := next.(success := next.success + 1);
    if next.counter % BatchSize == 0 && next.counter > 0 {
      outcome := session.Commit();
      if outcome.Raised? {
        next := next.(errors := next.errors + 1);
        if outcome.kind != ValueError {
          session.Rollback();
        }
        return;
      }
    }
    next := next.(counter := next.counter + 1);
  }

  method AddDataPrices(db: Db, rows: seq<Row>, faults: seq<Fault>) returns (store: Db, counts: Counts)
    ensures ImportResult(store, counts) == Import(db, rows, faults)
  {
    var session := new Session(db);
    counts := Counts(0, 0, 0);
    ghost var ps := Payloads(rows);
    for i := 0 to |rows|
      invariant Run(session.State(), counts) == RunUpTo(db, ps, faults, i)
    {
      var p := ParsePriceData(rows[i]);
      counts := ProcessRow(session, counts, p, FaultAt(faults, i));
    }
    var outcome := session.Commit();
    if outcome.Raised? {
      session.Rollback();
    }
    store := session.committed;
  }

  // ---------------------------------------------------------------------------------------------
  // Properties of the whole run

  /** Nothing is ever pending in this loop and the session is in good order at every row, so a
      batch commit cannot fail and `counter` always equals `success_count`. */
  lemma {:induction false} CounterIsSuccess(db: Db, ps: seq<PricePayload>, faults: seq<Fault>, n: nat)
    requires n <= |ps|
    ensures var r := RunUpTo(db, ps, faults, n);
            r.counts.counter == r.counts.success && r.session.pending == [] && !r.session.inactive
  {
    if n > 0 {
      CounterIsSuccess(db, ps, faults, n - 1);
    }
  }

  /** The price map a file describes: for each code, the tiers of its last valid row. */
  function LastWins(ps: seq<PricePayload>, n: nat): map<string, PriceTiers>
    requires n <= |ps|
  {
    if n == 0 then map[]
    else
      var m := LastWins(ps, n - 1);
      match PriceRecordOf(ps[n - 1])
      case None => m
      case Some(record) => m[record.productCode := record.tiers]
  }

  /** Every entry of the map comes from a valid row of the file. */
  lemma {:induction false} LastWinsFromRows(ps: seq<PricePayload>, n: nat)
    requires n <= |ps|
    ensures forall c :: c in LastWins(ps, n) ==>
              exists i :: 0 <= i < n && PriceRecordOf(ps[i]) == Some(PriceRecord(c, LastWins(ps, n)[c]))
  {
    if n > 0 {
      LastWinsFromRows(ps, n - 1);
    }
  }

  /** Every code the file would upsert names a known product. */
  predicate KnownCodes(db: Db, ps: seq<PricePayload>) {
    forall i :: 0 <= i < |ps| && PriceRecordOf(ps[i]).Some? ==> ps[i].productCode in db.products
  }

  /** One row of a run without faults, on a session in good order where the row's code is known. */
  lemma CleanStep(run: Run, p: PricePayload)
    requires !run.session.inactive && run.session.pending == []
    requires PriceRecordOf(p).Some? ==> p.productCode in run.session.tx.products
    ensures var r := Step(run, p, NoFault);
            && r.session.pending == [] && !r.session.inactive
            && r.session.tx == (if PriceRecordOf(p).Some?
                                then run.session.tx.(prices := run.session.tx.prices[p.productCode := TiersOf(p)])
                                else run.session.tx)
  {
  }

  lemma OverlayUpdate(a: map<string, PriceTiers>, b: map<string, PriceTiers>, k: string, v: PriceTiers)
    ensures a + b[k := v] == (a + b)[k := v]
  {
  }

  /** Without injected faults and with every code known, the transaction after `n` rows is the
      starting store with the file's price map laid over its prices. */
  lemma {:induction false} CleanRunPrices(db: Db, ps: seq<PricePayload>, n: nat)
    requires n <= |ps| && KnownCodes(db, ps)
    ensures var r := RunUpTo(db, ps, [], n);
            r.session.tx == db.(prices := db.prices + LastWins(ps, n)) && r.session.pending == [] && !r.session.inactive
  {
    if n == 0 {
      assert db.prices + map[] == db.prices;
    } else {
      CleanRunPrices(db, ps, n - 1);
      var before := RunUpTo(db, ps, [], n - 1);
      var p := ps[n - 1];
      var m := LastWins(ps, n - 1);
      assert FaultAt([], n - 1) == NoFault;
      assert RunUpTo(db, ps, [], n) == Step(before, p, NoFault);
      assert before.session.tx.products == db.products;
      CleanStep(before, p);
      if PriceRecordOf(p).Some? {
        assert LastWins(ps, n) == m[p.productCode := TiersOf(p)];
        OverlayUpdate(db.prices, m, p.productCode, TiersOf(p));
      } else {
        assert LastWins(ps, n) == m;
      }
    }
  }

  /** The import then commits exactly that store. */
  lemma CleanImport(db: Db, ps: seq<PricePayload>)
    requires KnownCodes(db, ps)
    ensures ImportParsed(db, ps, []).store == db.(prices := db.prices + LastWins(ps, |ps|))
  {
    CleanRunPrices(db, ps, |ps|);
    CommitOfCleanSession(RunUpTo(db, ps, [], |ps|).session);
  }

  /** What a fault-free run has done to the prices, apart from the prices it started with: the
      counters, the overlay committed so far and the overlay of the open batch. */
  datatype PriceTrace = PriceTrace(counts: Counts, committed: map<string, PriceTiers>, open: map<string, PriceTiers>)

  /** One fault-free row, given the known products: a rejected row is counted, a row without a code
      is skipped, an unknown code is counted and drops the open batch, and a known code adds its
      tiers to the open batch, which is committed when the counter is a positive multiple of 100. */
  function TraceNext(products: map<string, ProductFields>, t: PriceTrace, p: PricePayload): PriceTrace {
    var c := t.counts;
    match PriceRecordOf(p)
    case None => if ValidatePricePayload(p).None? then t.(counts := c.(errors := c.errors + 1)) else t
    case Some(record) =>
      if record.productCode !in products then PriceTrace(c.(errors := c.errors + 1), t.committed, map[])
      else
        var open := t.open[record.productCode := record.tiers];
        var next := Counts(c.counter + 1, c.success + 1, c.errors);
        if c.counter % BatchSize == 0 && c.counter > 0 then PriceTrace(next, t.committed + open, map[])
        else PriceTrace(next, t.committed, open)
  }

  function TraceUpTo(products: map<string, ProductFields>, ps: seq<PricePayload>, n: nat): PriceTrace
    requires n <= |ps|
  {
    if n == 0 then PriceTrace(Counts(0, 0, 0), map[], map[]) else TraceNext(products, TraceUpTo(products, ps, n - 1), ps[n - 1])
  }

  /** The run a trace stands for on a store: the committed prices are the store's with the committed
      overlay, the transaction's add the open batch, and nothing is queued. */
  function TraceState(db: Db, t: PriceTrace): Run {
    Run(SessionState(db.(prices := db.prices + t.committed), db.(prices := db.prices + (t.committed + t.open)), [], false),
        t.counts)
  }

  lemma OverlayEmpty(a: map<string, PriceTiers>)
    ensures a + map[] == a
  {
  }

  lemma OverlayTwice(a: map<string, PriceTiers>, b: map<string, PriceTiers>)
    ensures (a + b) + b == a + b
  {
  }

  /** One fault-free row moves the run exactly as it moves the trace. */
  lemma TraceStep(db: Db, t: PriceTrace, p: PricePayload)
    ensures Step(TraceState(db, t), p, NoFault) == TraceState(db, TraceNext(db.products, t, p))
  {
    var run := TraceState(db, t);
    var r := Step(run, p, NoFault);
    match PriceRecordOf(p)
    case None =>
    case Some(record) =>
      var code := record.productCode;
      if code !in db.products {
        OverlayEmpty(t.committed);
      } else {
        var v := record.tiers;
        assert v == TiersOf(p);
        OverlayUpdate(db.prices, t.committed + t.open, code, v);
        OverlayUpdate(t.committed, t.open, code, v);
        var open := t.open[code := v];
        assert r.session.tx == db.(prices := db.prices + (t.committed + open));
        if t.counts.counter % BatchSize == 0 && t.counts.counter > 0 {
          OverlayEmpty(t.committed + open);
        }
      }
  }

  /** A fault-free run, whatever its codes, is the run of its trace on the starting store. */
  lemma {:induction false} RunFollowsTrace(db: Db, ps: seq<PricePayload>, n: nat)
    requires n <= |ps|
    ensures RunUpTo(db, ps, [], n) == TraceState(db, TraceUpTo(db.products, ps, n))
  {
    if n == 0 {
      OverlayEmpty(db.prices);
      assert db.(prices := db.prices) == db;
    } else {
      RunFollowsTrace(db, ps, n - 1);
      assert FaultAt([], n - 1) == NoFault;
      TraceStep(db, TraceUpTo(db.products, ps, n - 1), ps[n - 1]);
    }
  }

  /** The fault-free import, whatever its codes, lays the file's surviving overlay over the prices
      and changes nothing else. */
  lemma ImportFollowsTrace(db: Db, ps: seq<PricePayload>)
    ensures var t := TraceUpTo(db.products, ps, |ps|);
            ImportParsed(db, ps, []).store == db.(prices := db.prices + (t.committed + t.open))
  {
    RunFollowsTrace(db, ps, |ps|);
    CommitOfCleanSession(RunUpTo(db, ps, [], |ps|).session);
  }

  /** Importing the same file a second time changes nothing, whether or not every code is known:
      rows with unknown codes fail the same way on both passes, so the same overlay survives. */
  lemma ImportIdempotent(db: Db, ps: seq<PricePayload>)
    ensures var once := ImportParsed(db, ps, []).store;
            ImportParsed(once, ps, []).store == once
  {
    var t := TraceUpTo(db.products, ps, |ps|);
    ImportFollowsTrace(db, ps);
    var once := ImportParsed(db, ps, []).store;
    assert once.products == db.products;
    ImportFollowsTrace(once, ps);
    OverlayTwice(db.prices, t.committed + t.open);
  }

  /** Of two rows for the same code, the later one decides the stored tiers. */
  lemma LastRowWins(ps: seq<PricePayload>, i: nat, j: nat)
    requires i < j < |ps| && PriceRecordOf(ps[i]).Some? && PriceRecordOf(ps[j]).Some?
    requires ps[i].productCode == ps[j].productCode
    requires forall k :: j < k < |ps| && PriceRecordOf(ps[k]).Some? ==> ps[k].productCode != ps[j].productCode
    ensures ps[j].productCode in LastWins(ps, |ps|) && LastWins(ps, |ps|)[ps[j].productCode] == TiersOf(ps[j])
  {
    LastWinsAfter(ps, j, |ps|);
  }

  lemma {:induction false} LastWinsAfter(ps: seq<PricePayload>, j: nat, n: nat)
    requires j < n <= |ps| && PriceRecordOf(ps[j]).Some?
    requires forall k :: j < k < n && PriceRecordOf(ps[k]).Some? ==> ps[k].productCode != ps[j].productCode
    ensures ps[j].productCode in LastWins(ps, n) && LastWins(ps, n)[ps[j].productCode] == TiersOf(ps[j])
  {
    if n > j + 1 {
      LastWinsAfter(ps, j, n - 1);
      assert PriceRecordOf(ps[n - 1]).Some? ==> ps[n - 1].productCode != ps[j].productCode;
    } else {
      assert LastWins(ps, n) == LastWins(ps, j)[ps[j].productCode := TiersOf(ps[j])];
    }
  }
}
