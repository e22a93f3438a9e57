/** The stock import (`add_stock_data`): warehouse names are mapped to ids once, then every row
    queues one stock record per column named after a warehouse. The session is committed after the
    rows at indexes 0, 100, 200, … and once at the end. A failure inside a row is only logged: no
    rollback follows, so a failed commit leaves the session unusable for the rest of the run. */
module AddProductStocks {
  import opened Common
  import opened Text
  import opened DataParser
  import opened Store

  const ReservedColumn := "Выписано но не выдано"

  const BatchSize := 100

  // ---------------------------------------------------------------------------------------------
  // Cells and records

  /** `int(v.strip()) if v.strip().isdigit() else 0`: a count cell, never negative. */
  function CountCell(v: string): nat {
    var s := Strip(v);
    if IsDigits(s) then DigitsValue(s) else 0
  }

  /** A count written as digits, with any whitespace around it, reads back as that count. */
  lemma CountCellRoundTrip(a: string, n: nat, b: string)
    requires AllSpace(a) && AllSpace(b)
    ensures CountCell(a + NatToDigits(n) + b) == n
  {
    var d := NatToDigits(n);
    assert Unpadded(d) by {
      assert !IsSpace(d[0]) && !IsSpace(d[|d| - 1]);
    }
    StripPadded(a, d, b);
    DigitsRoundTrip(n);
  }

  /** A cell holding a minus sign reads as 0, not as a negative count. */
  lemma SignedCellIsZero(s: string)
    ensures CountCell("-" + s) == 0
  {
    var v := "-" + s;
    assert LeadingSpace(v) == 0;
    assert Strip(v)[0] == '-';
  }

  /** A blank cell reads as 0. */
  lemma BlankCellIsZero(v: string)
    requires AllSpace(v)
    ensures CountCell(v) == 0
  {
    assert LeadingSpace(v) == |v|;
  }

  /** The map from warehouse name to warehouse id, built in table order; a later warehouse of the
      same name overwrites an earlier one. */
  function WarehouseMapping(ws: seq<Warehouse>): map<string, int> {
    if |ws| == 0 then map[] else WarehouseMapping(ws[..|ws| - 1])[ws[|ws| - 1].name := ws[|ws| - 1].id]
  }

  /** The map has one key per warehouse name. */
  lemma {:induction false} MappingKeys(ws: seq<Warehouse>)
    ensures forall name :: name in WarehouseMapping(ws) <==> exists j :: 0 <= j < |ws| && ws[j].name == name
  {
    if |ws| > 0 {
      var init := ws[..|ws| - 1];
      MappingKeys(init);
      assert WarehouseMapping(ws) == WarehouseMapping(init)[ws[|ws| - 1].name := ws[|ws| - 1].id];
      forall name | name in WarehouseMapping(ws)
        ensures exists j :: 0 <= j < |ws| && ws[j].name == name
      {
        if name != ws[|ws| - 1].name {
          assert name in WarehouseMapping(init);
          var j :| 0 <= j < |init| && init[j].name == name;
          assert ws[j] == init[j];
        }
      }
      forall j | 0 <= j < |ws|
        ensures ws[j].name in WarehouseMapping(ws)
      {
        if j < |init| {
          assert ws[j] == init[j];
        }
      }
    }
  }

  /** A warehouse whose name no later warehouse repeats is mapped to its own id; with unique names
      (the table's constraint), that is every warehouse. */
  lemma {:induction false} MappingLastWins(ws: seq<Warehouse>)
    ensures forall j :: 0 <= j < |ws| && (forall k :: j < k < |ws| ==> ws[k].name != ws[j].name)
              ==> ws[j].name in WarehouseMapping(ws) && WarehouseMapping(ws)[ws[j].name] == ws[j].id
  {
    if |ws| > 0 {
      var init := ws[..|ws| - 1];
      MappingLastWins(init);
      assert WarehouseMapping(ws) == WarehouseMapping(init)[ws[|ws| - 1].name := ws[|ws| - 1].id];
      forall j | 0 <= j < |ws| - 1 && (forall k :: j < k < |ws| ==> ws[k].name != ws[j].name)
        ensures ws[j].name in WarehouseMapping(ws) && WarehouseMapping(ws)[ws[j].name] == ws[j].id
      {
        assert ws[j] == init[j];
        assert forall k :: j < k < |init| ==> init[k] == ws[k];
      }
    }
  }

  /** Every value of the map is the id of a warehouse of that name. */
  lemma {:induction false} MappingValues(ws: seq<Warehouse>)
    ensures forall name :: name in WarehouseMapping(ws) ==>
              exists j :: 0 <= j < |ws| && ws[j].name == name && ws[j].id == WarehouseMapping(ws)[name]
  {
    if |ws| > 0 {
      var init := ws[..|ws| - 1];
      MappingValues(init);
      assert WarehouseMapping(ws) == WarehouseMapping(init)[ws[|ws| - 1].name := ws[|ws| - 1].id];
      forall name | name in WarehouseMapping(ws)
        ensures exists j :: 0 <= j < |ws| && ws[j].name == name && ws[j].id == WarehouseMapping(ws)[name]
      {
        if name != ws[|ws| - 1].name {
          assert name in WarehouseMapping(init);
          var j :| 0 <= j < |init| && init[j].name == name && init[j].id == WarehouseMapping(init)[name];
          assert ws[j] == init[j];
        }
      }
    }
  }

  /** The record one cell of a row gives: one for a warehouse column, none for any other column. */
  function ColumnRecord(cell: (string, string), mapping: map<string, int>, code: string, reserved: nat): seq<Insert> {
    if cell.0 in mapping then [InsertStock(code, mapping[cell.0], StockLevel(CountCell(cell.1), reserved))] else []
  }

  /** The records the cells of a row give, in column order. */
  function StockRecords(cells: seq<(string, string)>, mapping: map<string, int>, code: string, reserved: nat): seq<Insert> {
    if |cells| == 0 then []
    else StockRecords(cells[..|cells| - 1], mapping, code, reserved) + ColumnRecord(cells[|cells| - 1], mapping, code, reserved)
  }

  /** The records of two runs of cells are the records of each, in order. */
  lemma {:induction false} StockRecordsConcat(a: seq<(string, string)>, b: seq<(string, string)>, mapping: map<string, int>,
                                              code: string, reserved: nat)
    ensures StockRecords(a + b, mapping, code, reserved) == StockRecords(a, mapping, code, reserved) + StockRecords(b, mapping, code, reserved)
    decreases |b|
  {
    if |b| == 0 {
      assert a + b == a;
    } else {
      var b' := b[..|b| - 1];
      assert (a + b)[..|a + b| - 1] == a + b';
      StockRecordsConcat(a, b', mapping, code, reserved);
    }
  }

  /** Every record of a row carries the row's code and `reserved` value and a warehouse id from
      the map, and comes from a warehouse column of the row. */
  lemma {:induction false} StockRecordsFromColumns(cells: seq<(string, string)>, mapping: map<string, int>, code: string,
                                                   reserved: nat)
    ensures forall x :: x in StockRecords(cells, mapping, code, reserved) ==>
              && x.InsertStock? && x.code == code && x.level.reserved == reserved && x.warehouseId in mapping.Values
              && exists j :: 0 <= j < |cells| && cells[j].0 in mapping && [x] == ColumnRecord(cells[j], mapping, code, reserved)
  {
    if |cells| > 0 {
      var init := cells[..|cells| - 1];
      StockRecordsFromColumns(init, mapping, code, reserved);
      assert forall j :: 0 <= j < |init| ==> init[j] == cells[j];
    }
  }

  /** The records of one cell appear among the records of its row. */
  lemma ColumnRecordIn(cells: seq<(string, string)>, j: nat, mapping: map<string, int>, code: string, reserved: nat)
    requires j < |cells|
    ensures forall x :: x in ColumnRecord(cells[j], mapping, code, reserved) ==> x in StockRecords(cells, mapping, code, reserved)
  {
    var before, cell, after := cells[..j], [cells[j]], cells[j + 1..];
    assert cells == before + cell + after;
    StockRecordsConcat(before + cell, after, mapping, code, reserved);
    StockRecordsConcat(before, cell, mapping, code, reserved);
    assert cell[..0] == [];
  }

  /** Each warehouse column of a row gives the record of its cell. */
  lemma StockRecordsCoverColumns(cells: seq<(string, string)>, mapping: map<string, int>, code: string, reserved: nat)
    ensures forall j :: 0 <= j < |cells| && cells[j].0 in mapping ==>
              InsertStock(code, mapping[cells[j].0], StockLevel(CountCell(cells[j].1), reserved))
                in StockRecords(cells, mapping, code, reserved)
  {
    forall j | 0 <= j < |cells| && cells[j].0 in mapping
      ensures InsertStock(code, mapping[cells[j].0], StockLevel(CountCell(cells[j].1), reserved))
                in StockRecords(cells, mapping, code, reserved)
    {
      ColumnRecordIn(cells, j, mapping, code, reserved);
    }
  }

  /** A row without warehouse columns gives no records. */
  lemma {:induction false} NoWarehouseColumnsNoRecords(cells: seq<(string, string)>, mapping: map<string, int>, code: string,
                                                       reserved: nat)
    requires forall j :: 0 <= j < |cells| ==> cells[j].0 !in mapping
    ensures StockRecords(cells, mapping, code, reserved) == []
  {
    if |cells| > 0 {
      NoWarehouseColumnsNoRecords(cells[..|cells| - 1], mapping, code, reserved);
    }
  }

  // ---------------------------------------------------------------------------------------------
  // The loop

  /** An exception raised while handling the cell at `column` of a row (a short CSV row leaves a
      cell None, and `strip` fails on it): the records of the earlier cells are already queued, and
      neither that cell's record nor the commit check follows. A position past the row's end
      stands for an exception after the last cell. */
  datatype RowFault = NoRowFault | RaisesAt(column: nat)

  function RowFaultAt(faults: seq<RowFault>, i: nat): RowFault {
    if i < |faults| then faults[i] else NoRowFault
  }

  /** What the loop body reads of a row before its cells: the trimmed code and the reserved count. */
  datatype StockRow = StockRow(code: string, reserved: nat, cells: seq<(string, string)>)

  function ReadRow(row: Row): (r: StockRow)
    ensures r.cells == row
  {
    StockRow(Strip(GetOr(row, CodeColumn, "")), CountCell(GetOr(row, ReservedColumn, "")), row)
  }

  function ReadRows(rows: seq<Row>): (rs: seq<StockRow>)
    ensures |rs| == |rows| && forall i :: 0 <= i < |rows| ==> rs[i] == ReadRow(rows[i])
  {
    seq(|rows|, i requires 0 <= i < |rows| => ReadRow(rows[i]))
  }

  /** How many cells of the row are handled before the row ends or raises. */
  function CellsHandled(row: StockRow, fault: RowFault): (n: nat)
    ensures n <= |row.cells|
    ensures fault.NoRowFault? ==> n == |row.cells|
    ensures fault.RaisesAt? && fault.column <= |row.cells| ==> n == fault.column
  {
    match fault
    case NoRowFault => |row.cells|
    case RaisesAt(j) => if j < |row.cells| then j else |row.cells|
  }

  /** The records the first `n` cells of a row queue. */
  function Queued(row: StockRow, mapping: map<string, int>, n: nat): seq<Insert>
    requires n <= |row.cells|
  {
    StockRecords(row.cells[..n], mapping, row.code, row.reserved)
  }

  /** What the loop body does with one row: the records it queues, and whether a commit follows. */
  datatype RowEffect = RowEffect(queued: seq<Insert>, commits: bool)

  /** The row at `index`: the records of its handled cells, then a commit for a row that did not
      raise at an index that is a multiple of 100. */
  function Effect(index: nat, row: StockRow, mapping: map<string, int>, fault: RowFault): (e: RowEffect)
    ensures e.commits <==> fault.NoRowFault? && index % BatchSize == 0
    ensures fault.NoRowFault? ==> e.queued == StockRecords(row.cells, mapping, row.code, row.reserved)
  {
    assert row.cells[..|row.cells|] == row.cells;
    RowEffect(Queued(row, mapping, CellsHandled(row, fault)), fault.NoRowFault? && index % BatchSize == 0)
  }

  /** The effects of the rows of a file, with the warehouse map built once from the store. */
  function Effects(db: Db, rows: seq<StockRow>, faults: seq<RowFault>): (es: seq<RowEffect>)
    ensures |es| == |rows|
    ensures forall i :: 0 <= i < |rows| ==> es[i] == Effect(i, rows[i], WarehouseMapping(db.warehouses), RowFaultAt(faults, i))
  {
    seq(|rows|, i requires 0 <= i < |rows| => Effect(i, rows[i], WarehouseMapping(db.warehouses), RowFaultAt(faults, i)))
  }

  /** One pass of the loop body. */
  function Step(s: SessionState, e: RowEffect): (r: SessionState)
    ensures !e.commits ==> r == Added(s, e.queued)
    ensures r.committed != s.committed ==> e.commits
    // a committing row whose queue flushes commits the transaction with that queue applied
    ensures e.commits && !s.inactive && ApplyInserts(s.tx, s.pending + e.queued).Some?
            ==> var v := ApplyInserts(s.tx, s.pending + e.queued).value; r == SessionState(v, v, [], false)
    // one whose queue breaks a key leaves the session unusable and the committed store as it was
    ensures e.commits && ApplyInserts(s.tx, s.pending + e.queued).None?
            ==> r.inactive && r.committed == s.committed && r.tx == s.tx
    // a failed commit is not rolled back: the session stays unusable and nothing more is committed
    ensures s.inactive ==> r.inactive && r.committed == s.committed && r.tx == s.tx
  {
    var queued := Added(s, e.queued);
    if e.commits then CommitT(queued).state else queued
  }

  function RunUpTo(db: Db, es: seq<RowEffect>, n: nat): SessionState
    requires n <= |es|
  {
    if n == 0 then Opened(db) else Step(RunUpTo(db, es, n - 1), es[n - 1])
  }

  datatype StockResult = StockResult(store: Db, outcome: Outcome)

  /** The final commit, outside the handler: when it fails the exception leaves the function and
      closing the session rolls back. */
  function Finish(s: SessionState): (r: StockResult)
    ensures r.outcome == CommitT(s).outcome
    ensures r.outcome.Raised? ==> r.store == s.committed
    ensures s.inactive ==> r == StockResult(s.committed, Raised(OtherError))
  {
    var k := CommitT(s);
    StockResult(k.state.committed, k.outcome)
  }

  /** The loop over the rows as read, then the final commit. */
  function ImportRead(db: Db, rows: seq<StockRow>, faults: seq<RowFault>): StockResult {
    Finish(RunUpTo(db, Effects(db, rows, faults), |rows|))
  }

  function Import(db: Db, rows: seq<Row>, faults: seq<RowFault>): StockResult {
    ImportRead(db, ReadRows(rows), faults)
  }

  /** The inner loop: one `session.add` per warehouse column among the first `n` cells. */
  method QueueCells(session: Session, cells: seq<(string, string)>, n: nat, mapping: map<string, int>, code: string, reserved: nat)
    requires n <= |cells|
    modifies session
    ensures session.State() == Added(old(session.State()), StockRecords(cells[..n], mapping, code, reserved))
  {
    ghost var s0 := session.State();
    for j := 0 to n
      invariant session.State() == Added(s0, StockRecords(cells[..j], mapping, code, reserved))
    {
      var (k, v) := cells[j];
      ghost var before := StockRecords(cells[..j], mapping, code, reserved);
      assert cells[..j + 1][..j] == cells[..j];
      assert StockRecords(cells[..j + 1], mapping, code, reserved) == before + ColumnRecord(cells[j], mapping, code, reserved);
      if k in mapping {
        var x := InsertStock(code, mapping[k], StockLevel(CountCell(v), reserved));
        session.Add([x]);
        assert s0.pending + before + [x] == s0.pending + (before + [x]);
      } else {
        assert before + [] == before;
      }
    }
  }

  method ProcessRow(session: Session, index: nat, row: Row, mapping: map<string, int>, fault: RowFault)
    modifies session
    ensures session.State() == Step(old(session.State()), Effect(index, ReadRow(row), mapping, fault))
  {
    var code := Strip(GetOr(row, CodeColumn, ""));
    var reserved := CountCell(GetOr(row, ReservedColumn, ""));
    var handled := CellsHandled(ReadRow(row), fault);
    QueueCells(session, row, handled, mapping, code, reserved);
    if fault.NoRowFault? && index % BatchSize == 0 {
      var outcome := session.Commit();
    }
  }

  method AddStockData(db: Db, rows: seq<Row>, faults: seq<RowFault>) returns (store: Db, outcome: Outcome)
    ensures StockResult(store, outcome) == Import(db, rows, faults)
  {
    var session := new Session(db);
    var mapping := WarehouseMapping(session.tx.warehouses);
    ghost var es := Effects(db, ReadRows(rows), faults);
    for i := 0 to |rows|
      invariant session.State() == RunUpTo(db, es, i)
    {
      ProcessRow(session, i, rows[i], mapping, RowFaultAt(faults, i));
    }
    outcome := session.Commit();
    if outcome.Raised? {
      session.Rollback();
    }
    store := session.committed;
  }

  // ---------------------------------------------------------------------------------------------
  // Properties of the whole run

  /** The warehouses are never written by the loop, so the map built before it stays the map of
      the store at every row. */
  lemma {:induction false} LoopKeepsWarehouses(db: Db, es: seq<RowEffect>, n: nat)
    requires n <= |es|
    ensures var s := RunUpTo(db, es, n);
            s.committed.warehouses == s.tx.warehouses == db.warehouses
  {
    if n > 0 {
      LoopKeepsWarehouses(db, es, n - 1);
      StepKeepsWarehouses(RunUpTo(db, es, n - 1), es[n - 1]);
    }
  }

  lemma StepKeepsWarehouses(s: SessionState, e: RowEffect)
    requires s.committed.warehouses == s.tx.warehouses
    ensures var r := Step(s, e);
            r.committed.warehouses == r.tx.warehouses == s.tx.warehouses
  {
    var queued := Added(s, e.queued);
    if !queued.inactive && ApplyInserts(queued.tx, queued.pending).Some? {
      ApplyInsertsFacts(queued.tx, queued.pending);
    }
  }

  /** Once a commit has failed, every later commit fails too: the committed store is frozen. */
  lemma {:induction false} FailureIsFinal(db: Db, es: seq<RowEffect>, n: nat, m: nat)
    requires n <= m <= |es| && RunUpTo(db, es, n).inactive
    ensures RunUpTo(db, es, m).inactive && RunUpTo(db, es, m).committed == RunUpTo(db, es, n).committed
    decreases m - n
  {
    if n < m {
      FailureLasts(RunUpTo(db, es, n), es[n]);
      assert RunUpTo(db, es, n + 1) == Step(RunUpTo(db, es, n), es[n]);
      FailureIsFinal(db, es, n + 1, m);
    }
  }

  lemma FailureLasts(s: SessionState, e: RowEffect)
    requires s.inactive
    ensures Step(s, e).inactive && Step(s, e).committed == s.committed
  {
  }

  /** ... and the run ends with an error that leaves exactly that store. */
  lemma ImportAfterFailure(db: Db, rows: seq<StockRow>, faults: seq<RowFault>, n: nat)
    requires n <= |rows| && RunUpTo(db, Effects(db, rows, faults), n).inactive
    ensures ImportRead(db, rows, faults) == StockResult(RunUpTo(db, Effects(db, rows, faults), n).committed, Raised(OtherError))
  {
    FailureIsFinal(db, Effects(db, rows, faults), n, |rows|);
  }

  /** A record whose (product, warehouse) pair is already stored makes the whole flush fail: the
      records are plain inserts, and the pair is unique. */
  lemma {:induction false} StoredPairFailsFlush(db: Db, objs: seq<Insert>, j: nat)
    requires j < |objs| && objs[j].InsertStock? && (objs[j].code, objs[j].warehouseId) in db.stocks
    ensures ApplyInserts(db, objs).None?
    decreases |objs|
  {
    if j > 0 && ApplyInsert(db, objs[0]).Some? {
      var db1 := ApplyInsert(db, objs[0]).value;
      ApplyInsertFacts(db, objs[0]);
      assert objs[1..][j - 1] == objs[j];
      StoredPairFailsFlush(db1, objs[1..], j - 1);
    }
  }

  /** The first row is committed on its own. If its records cannot all be inserted (a pair already
      stored, an unknown product), that commit fails, and nothing from any row of the file is kept. */
  lemma FirstRowFailureLosesFile(db: Db, rows: seq<StockRow>, faults: seq<RowFault>)
    requires |rows| > 0 && RowFaultAt(faults, 0) == NoRowFault
    requires ApplyInserts(db, StockRecords(rows[0].cells, WarehouseMapping(db.warehouses), rows[0].code, rows[0].reserved)).None?
    ensures ImportRead(db, rows, faults) == StockResult(db, Raised(OtherError))
  {
    var es := Effects(db, rows, faults);
    assert [] + es[0].queued == es[0].queued;
    assert RunUpTo(db, es, 1) == CommitT(Added(Opened(db), es[0].queued)).state;
    ImportAfterFailure(db, rows, faults, 1);
  }

  /** When the first row's records fit, its commit stores exactly them. */
  lemma FirstRowCommitted(db: Db, rows: seq<StockRow>, faults: seq<RowFault>)
    requires |rows| > 0 && RowFaultAt(faults, 0) == NoRowFault
    requires ApplyInserts(db, StockRecords(rows[0].cells, WarehouseMapping(db.warehouses), rows[0].code, rows[0].reserved)).Some?
    ensures var s := RunUpTo(db, Effects(db, rows, faults), 1);
            && s.committed == s.tx
               == ApplyInserts(db, StockRecords(rows[0].cells, WarehouseMapping(db.warehouses), rows[0].code, rows[0].reserved)).value
            && s.pending == [] && !s.inactive
  {
    var es := Effects(db, rows, faults);
    assert [] + es[0].queued == es[0].queued;
  }

  /** A row that raises part-way through leaves the records of its earlier cells queued; they are
      not rolled back and go in with the next commit. */
  lemma RaisingRowKeepsQueued(s: SessionState, index: nat, row: StockRow, mapping: map<string, int>, column: nat)
    requires column <= |row.cells|
    ensures Step(s, Effect(index, row, mapping, RaisesAt(column))) == s.(pending := s.pending + Queued(row, mapping, column))
  {
  }
}
