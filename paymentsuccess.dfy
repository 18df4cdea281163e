/** The one-shot payment script (payment_success.py): the fee it computes, the
    lookup of the unpaid entry, and the update that marks it as paid in the
    database or in the file. */
module PaymentSuccess {
  import opened Text
  import opened Journal
  import opened Billing
  import opened Rows

  /** `calculate_payment_amount(entry_time)`: whole hours since `entry`, at least one,
      at 500 per hour; `now` is the clock in seconds. */
  function CalculatePaymentAmount(entry: int, now: int): (amount: nat)
    ensures amount >= PaymentRatePerHour
    ensures amount % PaymentRatePerHour == 0
  {
    Fee(now - entry, PaymentRatePerHour)
  }

  /** The amount only grows while the car stays, and is the hourly rate times the
      whole hours once a full hour past the first is reached. */
  lemma PaymentAmountGrows(entry: int, now1: int, now2: int, k: nat)
    requires now1 <= now2
    ensures CalculatePaymentAmount(entry, now1) <= CalculatePaymentAmount(entry, now2)
    ensures k >= 1 && k * 3600 <= now1 - entry < (k + 1) * 3600 ==> CalculatePaymentAmount(entry, now1) == k * PaymentRatePerHour
  {
    FeeMonotonic(now1 - entry, now2 - entry, PaymentRatePerHour);
    FeeWholeHours(now1 - entry, PaymentRatePerHour, k);
  }

  /** What the database query of `get_unpaid_entry` yields: a row (id, timestamp,
      amount_due), no row, or an exception (caught by the surrounding `try`). */
  datatype DbGet = DbRecord(id: int, time: nat, amountDue: Option<Money>) | DbMissing | DbError

  /** The dictionary `get_unpaid_entry` returns, by its 'source'. A CSV entry keeps
      its row position, its parsed timestamp, its plate cell as stored and its
      amount (None for an empty cell). */
  datatype EntryRecord =
    | FromDb(id: int, time: nat, amountDue: Option<Money>)
    | FromCsv(index: nat, time: nat, plateCell: string, stored: Option<real>)

  /** `float(cell) if cell else None`, with None for the outer result when `float` raises. */
  function StoredAmount(cell: string): (r: Option<Option<real>>)
    ensures r == Some(None) <==> cell == ""
    ensures r.Some? && r.value.Some? ==> ParseFloat(cell) == Some(r.value.value)
    ensures r.None? ==> ParseFloat(cell).None?
  {
    if cell == "" then Some(None)
    else match ParseFloat(cell)
      case None => None
      case Some(v) => Some(Some(v))
  }

  /** The CSV branch of `get_unpaid_entry` on the `csv.reader` rows. Every exception
      gives None. */
  function CsvEntry(rows: seq<Row>, plate: string): Option<EntryRecord>
  {
    if rows == [] || |rows[0]| < 4 then None
    else
      match HeaderColumns(ByPosition, rows[0])
      case None => None
      case Some(cols) =>
        match LatestUnpaid(ByPosition, rows, cols, plate)
        case Raised => None
        case Ok(None) => None
        case Ok(Some(k)) =>
          var plateCell := CellAt(ByPosition, rows[k], cols.plate);
          var amountCell := CellAt(ByPosition, rows[k], cols.amount);
          if !plateCell.Text? || !amountCell.Text? then None
          else
            match StoredAmount(amountCell.s)
            case None => None
            case Some(amount) => Some(FromCsv(k, Key(ByPosition, rows, cols, k).value, plateCell.s, amount))
  }

  /** `get_unpaid_entry(plate_number)`: the database first, then the file when it
      exists. */
  function UnpaidEntry(db: DbGet, present: bool, rows: seq<Row>, plate: string): Option<EntryRecord>
  {
    match db
    case DbError => None
    case DbRecord(id, time, amount) => Some(FromDb(id, time, amount))
    case DbMissing => if present then CsvEntry(rows, plate) else None
  }

  method GetUnpaidEntry(journal: CsvJournal, db: DbGet, plate: string) returns (r: Option<EntryRecord>)
    ensures r == UnpaidEntry(db, journal.present, journal.rows, plate)
  {
    if db.DbError? {
      return None;
    }
    if db.DbRecord? {
      return Some(FromDb(db.id, db.time, db.amountDue));
    }
    if !journal.present {
      return None;
    }
    r := FindCsvEntry(journal.rows, plate);
  }

  /** The CSV branch, on the rows read. */
  method FindCsvEntry(rows: seq<Row>, plate: string) returns (r: Option<EntryRecord>)
    ensures r == CsvEntry(rows, plate)
  {
    if rows == [] || |rows[0]| < 4 {
      return None;
    }
    var cols := HeaderColumns(ByPosition, rows[0]);
    if cols.None? {
      return None;
    }
    var latest := FindLatestUnpaid(ByPosition, rows, cols.value, plate);
    if latest.Raised? || latest.value.None? {
      return None;
    }
    var k := latest.value.value;
    var plateCell := CellAt(ByPosition, rows[k], cols.value.plate);
    var amountCell := CellAt(ByPosition, rows[k], cols.value.amount);
    if !plateCell.Text? || !amountCell.Text? {
      // IndexError, caught
      return None;
    }
    var amount := StoredAmount(amountCell.s);
    if amount.None? {
      return None;
    }
    return Some(FromCsv(k, Key(ByPosition, rows, cols.value, k).value, plateCell.s, amount.value));
  }

  /** On a file whose header names the five columns and whose rows all hold them, a
      CSV entry is the open unpaid entry of the plate with the latest instant, with
      that instant, its plate cell and an amount that is None exactly when the cell
      is empty. */
  lemma CsvEntryIsNewestOpenEntry(rows: seq<Row>, plate: string)
    requires rows != [] && HeaderColumns(ByPosition, rows[0]).Some?
    requires Wide(rows, HeaderColumns(ByPosition, rows[0]).value)
    ensures var cols := HeaderColumns(ByPosition, rows[0]).value;
            var e := CsvEntry(rows, plate);
            e.Some? ==>
              e.value.FromCsv? && 1 <= e.value.index < |rows| && Open(rows, cols, plate, e.value.index)
              && TimeOf(rows, cols, e.value.index) == Some(e.value.time)
              && e.value.plateCell == rows[e.value.index][cols.plate]
              && (e.value.stored.None? <==> rows[e.value.index][cols.amount] == "")
              && forall j :: 1 <= j < |rows| && Open(rows, cols, plate, j) ==>
                   TimeOf(rows, cols, j).Some? && TimeOf(rows, cols, j).value <= e.value.time
  {
    var cols := HeaderColumns(ByPosition, rows[0]).value;
    HeaderHoldsFive(rows[0]);
    LatestUnpaidOnWideRows(ByPosition, rows, cols, plate);
    var latest := LatestUnpaid(ByPosition, rows, cols, plate);
    if latest.Ok? && latest.value.Some? {
      var k := latest.value.value;
      KeyWide(ByPosition, rows, cols, k);
      assert CellAt(ByPosition, rows[k], cols.plate) == Text(rows[k][cols.plate]);
      assert CellAt(ByPosition, rows[k], cols.amount) == Text(rows[k][cols.amount]);
    }
  }

  /** A header naming the five columns has at least five cells. */
  lemma HeaderHoldsFive(header: Row)
    requires HeaderColumns(ByPosition, header).Some?
    ensures |header| >= 5
  {
    var cols := HeaderColumns(ByPosition, header).value;
    assert cols.plate != cols.action && cols.plate != cols.status && cols.plate != cols.timestamp && cols.plate != cols.amount;
    assert cols.action != cols.status && cols.action != cols.timestamp && cols.action != cols.amount;
    assert cols.status != cols.timestamp && cols.status != cols.amount && cols.timestamp != cols.amount;
    FiveDistinct(cols, |header|);
  }

  /** On such a file, a plate with no open unpaid entry gets no CSV entry. */
  lemma CsvEntryWithoutOpenEntry(rows: seq<Row>, plate: string)
    requires rows != [] && HeaderColumns(ByPosition, rows[0]).Some?
    requires Wide(rows, HeaderColumns(ByPosition, rows[0]).value)
    requires forall k :: 1 <= k < |rows| ==> !Open(rows, HeaderColumns(ByPosition, rows[0]).value, plate, k)
    ensures CsvEntry(rows, plate) == None
  {
    LatestUnpaidOnWideRows(ByPosition, rows, HeaderColumns(ByPosition, rows[0]).value, plate);
  }

  /** Five distinct positions below n need n to be at least five. */
  lemma FiveDistinct(cols: Columns, n: nat)
    requires cols.plate < n && cols.action < n && cols.status < n && cols.timestamp < n && cols.amount < n
    requires cols.plate != cols.action && cols.plate != cols.status && cols.plate != cols.timestamp && cols.plate != cols.amount
    requires cols.action != cols.status && cols.action != cols.timestamp && cols.action != cols.amount
    requires cols.status != cols.timestamp && cols.status != cols.amount && cols.timestamp != cols.amount
    ensures n >= 5
  {
    var s := {cols.plate, cols.action, cols.status, cols.timestamp, cols.amount};
    assert |s| == 5;
    Bounded(s, n);
  }

  lemma {:induction false} Bounded(s: set<nat>, n: nat)
    requires forall x :: x in s ==> x < n
    ensures |s| <= n
  {
    if n == 0 {
      assert s == {};
    } else {
      var rest := s - {n - 1};
      Bounded(rest, n - 1);
      assert |s| <= |rest| + 1;
    }
  }

  /** `rows[row_index]` for a Python index: negative ones count from the end. */
  function RowIndex(index: int, count: nat): (r: Option<nat>)
    ensures r.Some? ==> r.value < count
    ensures r.Some? <==> -(count as int) <= index < count
    ensures 0 <= index < count ==> r == Some(index as nat)
  {
    if 0 <= index < count then Some(index as nat)
    else if -(count as int) <= index < 0 then Some((index + count) as nat)
    else None
  }

  /** `update_csv_payment(row_index, amount_paid)` on the file's rows, `text` being
      `str(amount_paid)`: the result and the rows written back. Every exception
      gives False, and then nothing was written. */
  function CsvUpdate(present: bool, rows: seq<Row>, index: int, text: string): (seq<Row>, bool)
  {
    if !present || rows == [] then (rows, false)
    else
      match (Position(rows[0], StatusHeader), Position(rows[0], AmountHeader), RowIndex(index, |rows|))
      case (Some(status), Some(amount), Some(k)) =>
        if status < |rows[k]| && amount < |rows[k]| then
          assert StatusHeader != AmountHeader;
          (MarkRow(rows, k, status, amount, text), true)
        else (rows, false)
      case _ => (rows, false)
  }

  /** The update reports success exactly when it changed the file, and then it set
      the two cells of the addressed row named by the header: payment status '1' and
      the amount paid. */
  lemma CsvUpdateTouchesOneRow(present: bool, rows: seq<Row>, index: int, text: string)
    ensures !CsvUpdate(present, rows, index, text).1 ==> CsvUpdate(present, rows, index, text).0 == rows
    ensures CsvUpdate(present, rows, index, text).1 ==>
              present && rows != [] && RowIndex(index, |rows|).Some?
              && Position(rows[0], StatusHeader).Some? && Position(rows[0], AmountHeader).Some?
              && var k := RowIndex(index, |rows|).value;
                 var status := Position(rows[0], StatusHeader).value;
                 var amount := Position(rows[0], AmountHeader).value;
                 var after := CsvUpdate(present, rows, index, text).0;
                 OnlyTwoCellsDiffer(rows, after, k, status, amount)
                 && after[k][status] == Paid && after[k][amount] == text
  {
    if CsvUpdate(present, rows, index, text).1 {
      var k := RowIndex(index, |rows|).value;
      var status := Position(rows[0], StatusHeader).value;
      var amount := Position(rows[0], AmountHeader).value;
      assert StatusHeader != AmountHeader;
      MarkRowTouchesTwoCells(rows, k, status, amount, text);
    }
  }

  method UpdateCsvPayment(journal: CsvJournal, index: int, text: string) returns (ok: bool)
    modifies journal
    ensures journal.present == old(journal.present)
    ensures (journal.rows, ok) == CsvUpdate(old(journal.present), old(journal.rows), index, text)
  {
    var rows := journal.rows;
    if !journal.present || rows == [] {
      return false;
    }
    var status := Position(rows[0], StatusHeader);
    var amount := Position(rows[0], AmountHeader);
    var k := RowIndex(index, |rows|);
    if status.None? || amount.None? || k.None? {
      return false;
    }
    if status.value >= |rows[k.value]| || amount.value >= |rows[k.value]| {
      return false;
    }
    assert StatusHeader != AmountHeader;
    journal.Rewrite(MarkRow(rows, k.value, status.value, amount.value, text));
    return true;
  }

  /** `process_payment(plate_number, amount_paid)`: its result and the file's rows
      afterwards. `dbUpdated` is what `update_database_payment` returns, `text` is
      `str(amount_paid)`. */
  function Process(db: DbGet, dbUpdated: bool, present: bool, rows: seq<Row>, plate: string, text: string): (seq<Row>, bool)
  {
    match UnpaidEntry(db, present, rows, plate)
    case None => (rows, false)
    case Some(FromDb(_, _, _)) => (rows, dbUpdated)
    case Some(FromCsv(index, _, _, _)) => CsvUpdate(present, rows, index, text)
  }

  /** The file changes only when the entry was found in it, and then only the newest
      open unpaid entry of the plate is marked: payment status '1' and the amount
      paid, never the amount computed. */
  lemma ProcessMarksTheFoundEntry(db: DbGet, dbUpdated: bool, present: bool, rows: seq<Row>, plate: string, text: string)
    ensures Process(db, dbUpdated, present, rows, plate, text).0 != rows ==>
              db == DbMissing && present && CsvEntry(rows, plate).Some? && Process(db, dbUpdated, present, rows, plate, text).1
              && var k := CsvEntry(rows, plate).value.index;
                 var cols := HeaderColumns(ByPosition, rows[0]).value;
                 var after := Process(db, dbUpdated, present, rows, plate, text).0;
                 1 <= k < |rows| && OnlyTwoCellsDiffer(rows, after, k, cols.status, cols.amount)
                 && after[k][cols.status] == Paid && after[k][cols.amount] == text && after[0] == rows[0]
    ensures !Process(db, dbUpdated, present, rows, plate, text).1 ==> Process(db, dbUpdated, present, rows, plate, text).0 == rows
  {
    var e := UnpaidEntry(db, present, rows, plate);
    if e.Some? && e.value.FromCsv? {
      var k := e.value.index;
      CsvUpdateTouchesOneRow(present, rows, k, text);
      var cols := HeaderColumns(ByPosition, rows[0]).value;
      assert 1 <= k < |rows| && Key(ByPosition, rows, cols, k).Ok?;
      assert RowIndex(k, |rows|) == Some(k);
      if Process(db, dbUpdated, present, rows, plate, text).1 {
        assert Position(rows[0], StatusHeader) == Some(cols.status);
        assert Position(rows[0], AmountHeader) == Some(cols.amount);
      }
    }
  }

  /** A plate without an unpaid entry is refused and nothing changes. */
  lemma NoEntryRefused(db: DbGet, dbUpdated: bool, present: bool, rows: seq<Row>, plate: string, text: string)
    requires UnpaidEntry(db, present, rows, plate).None?
    ensures Process(db, dbUpdated, present, rows, plate, text) == (rows, false)
  {
  }

  method ProcessPayment(journal: CsvJournal, db: DbGet, dbUpdated: bool, plate: string, text: string) returns (ok: bool)
    modifies journal
    ensures journal.present == old(journal.present)
    ensures (journal.rows, ok) == Process(db, dbUpdated, old(journal.present), old(journal.rows), plate, text)
  {
    var entry := GetUnpaidEntry(journal, db, plate);
    if entry.None? {
      return false;
    }
    if entry.value.FromDb? {
      return dbUpdated;
    }
    ok := UpdateCsvPayment(journal, entry.value.index, text);
  }
}
