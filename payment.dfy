/** The payment daemon (process_payment.py): the card message it parses, the lookup
    of the unpaid entry it charges for, the marking of that entry as paid, and the
    decision taken for one serial line. */
module Payment {
  import opened Text
  import opened Journal
  import opened Billing
  import opened Rows
  import Plates

  const PlateTag: string := "PLATE:"
  const BalTag: string := "BAL:"
  const BalanceTag: string := "BALANCE:"
  const Done: string := "DONE"
  const Timeout: string := "TIMEOUT"

  /** `parse_data(line)`: the plate and balance of a card message, or None for
      `(None, None)`. Every exception raised on the way is caught and gives None. */
  function ParseData(line: string): (r: Option<(string, real)>)
    ensures r.Some? ==> StartsWith(line, PlateTag) && (Contains(line, BalTag) || Contains(line, BalanceTag))
    ensures r.Some? ==> Contains(line, ";")
    ensures r.Some? ==> Plates.IsValidPlate(r.value.0) && r.value.1 >= 0.0
  {
    if !StartsWith(line, PlateTag) || (!Contains(line, BalTag) && !Contains(line, BalanceTag)) then None
    else
      var parts := Split(line, ";");
      if |parts| < 2 then None
      else
        var fields := Split(parts[0], ":");
        if |fields| < 2 then None
        else
          var plate := Upper(Strip(fields[1]));
          var part := parts[1];
          var balance :=
            if Contains(part, BalTag) then ParseFloat(Split(part, BalTag)[1])
            else if Contains(part, BalanceTag) then ParseFloat(Split(part, BalanceTag)[1])
            else None;
          match balance
          case None => None
          case Some(b) =>
            if !Plates.IsValidPlate(plate) then None
            else if b < 0.0 then None
            else Some((plate, b))
  }

  /** Any message of the shape `PLATE:<s>;<tag><t>` is read as the stripped,
      upper-cased `s` and the number `t`, with either balance tag, as long as `s`
      holds neither separator, `t` holds no ';' and no further tag, the plate is
      valid and the number is not negative. */
  lemma ParseDataReads(s: string, tag: string, t: string, b: real)
    requires tag == BalTag || tag == BalanceTag
    requires NoChar(s, ':') && NoChar(s, ';') && NoChar(t, ';')
    requires !Contains(t, BalTag) && !Contains(t, tag)
    requires Plates.IsValidPlate(Upper(Strip(s)))
    requires ParseFloat(t) == Some(b) && b >= 0.0
    ensures ParseData(PlateTag + s + ";" + tag + t) == Some((Upper(Strip(s)), b))
  {
    MessageFields(s, tag, t);
    BalanceField(tag, t);
    ParseDataFrom(PlateTag + s + ";" + tag + t, PlateTag + s, tag + t, s, tag, t, b);
  }

  /** The message starts with its plate tag, holds its balance tag, and splits into
      the plate field and the balance field, the first of which splits on ':' into
      "PLATE" and the plate text. */
  lemma MessageFields(s: string, tag: string, t: string)
    requires tag == BalTag || tag == BalanceTag
    requires NoChar(s, ':') && NoChar(s, ';') && NoChar(t, ';')
    ensures StartsWith(PlateTag + s + ";" + tag + t, PlateTag)
    ensures Contains(PlateTag + s + ";" + tag + t, tag)
    ensures Split(PlateTag + s + ";" + tag + t, ";") == [PlateTag + s, tag + t]
    ensures Split(PlateTag + s, ":") == ["PLATE", s]
  {
    var head := PlateTag + s;
    var part := tag + t;
    assert PlateTag + s + ";" + tag + t == head + [';'] + part;
    MessageTags(head, part, s, tag, t);
    PlateHeadChars(s);
    BalanceFieldChars(tag, t);
    FieldsSplit(head, part, ';');
    PlateField(s);
  }

  lemma MessageTags(head: string, part: string, s: string, tag: string, t: string)
    requires head == PlateTag + s && part == tag + t
    ensures StartsWith(head + [';'] + part, PlateTag)
    ensures Contains(head + [';'] + part, tag)
  {
    var line := head + [';'] + part;
    assert line[..|PlateTag|] == PlateTag;
    assert line[|head| + 1..|head| + 1 + |tag|] == tag;
    assert OccursAt(line, tag, |head| + 1);
  }

  /** The plate field holds no ';' when the plate text holds none. */
  lemma PlateHeadChars(s: string)
    requires NoChar(s, ';')
    ensures NoChar(PlateTag + s, ';')
  {
    var head := PlateTag + s;
    forall k | 0 <= k < |head| ensures head[k] != ';' {
      if k >= |PlateTag| {
        assert head[k] == s[k - |PlateTag|];
      } else {
        assert head[k] == PlateTag[k];
      }
    }
  }

  lemma PlateField(s: string)
    requires NoChar(s, ':')
    ensures Split(PlateTag + s, ":") == ["PLATE", s]
  {
    assert PlateTag + s == "PLATE" + [':'] + s;
    FieldsSplit("PLATE", s, ':');
  }

  /** The balance field holds its own tag, holds "BAL:" only when that is its tag,
      and split on its tag leaves the number as the second piece. */
  lemma BalanceField(tag: string, t: string)
    requires tag == BalTag || tag == BalanceTag
    requires NoChar(t, ';') && !Contains(t, BalTag) && !Contains(t, tag)
    ensures Contains(tag + t, tag) && Split(tag + t, tag)[1] == t
    ensures Contains(tag + t, BalTag) <==> tag == BalTag
  {
    TagFieldSplits(tag, t);
    if tag == BalanceTag {
      BalanceTagHidesBal(t);
    }
  }

  /** `parse_data` once the line is known to split into its two fields as expected. */
  lemma ParseDataFrom(line: string, head: string, part: string, s: string, tag: string, t: string, b: real)
    requires tag == BalTag || tag == BalanceTag
    requires StartsWith(line, PlateTag) && Contains(line, tag)
    requires Split(line, ";") == [head, part] && Split(head, ":") == ["PLATE", s]
    requires Contains(part, tag) && (Contains(part, BalTag) <==> tag == BalTag) && Split(part, tag)[1] == t
    requires Plates.IsValidPlate(Upper(Strip(s)))
    requires ParseFloat(t) == Some(b) && b >= 0.0
    ensures ParseData(line) == Some((Upper(Strip(s)), b))
  {
  }

  /** The message a card reader sends for a plate and a whole balance is read back
      as that plate and balance. */
  lemma ParseDataRoundTrip(plate: string, n: nat)
    requires Plates.IsValidPlate(plate)
    ensures ParseData(PlateTag + plate + ";" + BalTag + NatToString(n)) == Some((plate, n as real))
  {
    var digits := NatToString(n);
    PlateChars(plate);
    forall k | 0 <= k < |digits| ensures digits[k] != ';' && digits[k] != BalTag[0] {
      assert IsDigit(digits[k]);
    }
    NoLeadCharNoMatch(digits, BalTag);
    Plates.ValidPlateNormalised(plate);
    ParseFloatOfNat(n);
    ParseDataReads(plate, BalTag, digits, n as real);
  }

  /** A message that pads and lower-cases the plate and gives a fractional balance. */
  lemma ParseDataExample()
    ensures ParseData("PLATE: rab123c ;BALANCE:12.5") == Some(("RAB123C", 12.5))
  {
    assert "PLATE: rab123c ;BALANCE:12.5" == PlateTag + " rab123c " + ";" + BalanceTag + "12.5";
    ExamplePlate();
    ExampleBalance();
    ParseDataReads(" rab123c ", BalanceTag, "12.5", 12.5);
  }

  lemma ExamplePlate()
    ensures Upper(Strip(" rab123c ")) == "RAB123C" && Plates.IsValidPlate("RAB123C")
    ensures NoChar(" rab123c ", ':') && NoChar(" rab123c ", ';')
  {
    var s := " rab123c ";
    assert Strip(s) == "rab123c" by {
      assert s[1..] == "rab123c ";
      assert s[1..][..|s| - 2] == "rab123c";
    }
    assert Upper("rab123c") == "RAB123C";
    forall k | 0 <= k < |s| ensures s[k] != ':' && s[k] != ';' {
      assert k < 5 || k == 5 || k == 6 || k == 7 || k == 8;
    }
  }

  lemma ExampleBalance()
    ensures ParseFloat("12.5") == Some(12.5)
    ensures NoChar("12.5", ';') && !Contains("12.5", BalTag) && !Contains("12.5", BalanceTag)
  {
    var t := "12.5";
    assert NoChar(t, 'B') by {
      forall k | 0 <= k < |t| ensures t[k] != 'B' {
        assert k == 0 || k == 1 || k == 2 || k == 3;
      }
    }
    assert NoChar(t, ';') by {
      forall k | 0 <= k < |t| ensures t[k] != ';' {
        assert k == 0 || k == 1 || k == 2 || k == 3;
      }
    }
    NoLeadCharNoMatch(t, BalTag);
    NoLeadCharNoMatch(t, BalanceTag);
    assert Strip(t) == t;
    assert OccursAt(t, ".", 2);
    assert !OccursAt(t, ".", 0) && !OccursAt(t, ".", 1);
    assert Find(t, ".") == Some(2);
    assert t[..2] == "12" && t[3..] == "5";
  }

  /** Splitting `a + [c] + b` on `c`, when neither side holds `c`, gives the two sides. */
  lemma FieldsSplit(a: string, b: string, c: char)
    requires NoChar(a, c) && NoChar(b, c)
    ensures Split(a + [c] + b, [c]) == [a, b]
  {
    SplitAtFirst(a, c, b);
    NoLeadCharNoMatch(b, [c]);
  }

  /** The balance field: split on its own tag, the text after the tag is the number. */
  lemma TagFieldSplits(tag: string, t: string)
    requires tag == BalTag || tag == BalanceTag
    requires !Contains(t, tag)
    ensures Contains(tag + t, tag)
    ensures Split(tag + t, tag)[1] == t
  {
    var part := tag + t;
    assert StartsWith(part, tag) by { assert part[..|tag|] == tag; }
    FindAtStart(part, tag);
    SplitTail(part, tag);
    assert part[|tag|..] == t;
  }

  /** Neither balance tag holds a ';'. */
  lemma BalanceFieldChars(tag: string, t: string)
    requires tag == BalTag || tag == BalanceTag
    requires NoChar(t, ';')
    ensures NoChar(tag + t, ';')
  {
    var part := tag + t;
    forall k | 0 <= k < |part| ensures part[k] != ';' {
      if k >= |tag| {
        assert part[k] == t[k - |tag|];
      } else {
        assert part[k] == tag[k];
        assert tag == BalTag ==> k < 4;
      }
    }
  }

  /** "BAL:" is not found in a `BALANCE:` field unless the number holds it. */
  lemma BalanceTagHidesBal(t: string)
    requires !Contains(t, BalTag)
    ensures !Contains(BalanceTag + t, BalTag)
  {
    var part := BalanceTag + t;
    forall k | 0 <= k <= |part| ensures !OccursAt(part, BalTag, k) {
      if k >= |BalanceTag| {
        if k + |BalTag| <= |part| {
          assert part[k..k + |BalTag|] == t[k - |BalanceTag|..k - |BalanceTag| + |BalTag|];
        }
        assert !OccursAt(t, BalTag, k - |BalanceTag|);
      } else if k == 0 {
        assert part[..|BalTag|] == "BALA";
      } else {
        assert part[k] == BalanceTag[k] && BalanceTag[k] != 'B';
        if k + |BalTag| <= |part| {
          assert part[k..k + |BalTag|][0] == part[k];
        }
      }
    }
  }

  /** A plate of the payment shape holds neither of the message's separators. */
  lemma PlateChars(plate: string)
    requires Plates.IsValidPlate(plate)
    ensures NoChar(plate, ';') && NoChar(plate, ':')
  {
    forall k | 0 <= k < |plate| ensures plate[k] != ';' && plate[k] != ':' {
      if k < 2 {
        assert plate[..2] == Plates.Prefix;
        assert plate[k] == plate[..2][k];
      } else {
        assert IsUpperAlnum(plate[k]);
      }
    }
  }

  /** What `db.cursor` yields for the unpaid-entry query: a row, no row, or an
      exception (which the surrounding `try` turns into "nothing found"). */
  datatype DbFind = DbFound(time: nat, amount: Money) | DbNone | DbFailed

  /** What `db.update_payment` does: returns True, returns False (no row, or a MySQL
      error it caught), or raises something else. */
  datatype DbUpdate = Updated | NotUpdated | UpdateRaised

  /** The result of `find_unpaid_entry`: `(None, None)`, or the entry time and the
      amount due. */
  datatype Lookup = NoEntry | Entry(time: nat, amount: Money)

  /** The rows `csv.DictReader` yields after the header: blank lines are skipped. */
  function NonBlank(lines: seq<Row>): (r: seq<Row>)
    ensures |r| <= |lines|
    ensures forall k :: 0 <= k < |r| ==> r[k] != [] && r[k] in lines
  {
    if lines == [] then []
    else if lines[|lines| - 1] == [] then NonBlank(lines[..|lines| - 1])
    else NonBlank(lines[..|lines| - 1]) + [lines[|lines| - 1]]
  }

  /** Skipping blank lines works line by line: what is kept of `a + b` is what is
      kept of `a` followed by what is kept of `b`. */
  lemma {:induction false} NonBlankConcat(a: seq<Row>, b: seq<Row>)
    ensures NonBlank(a + b) == NonBlank(a) + NonBlank(b)
    decreases |b|
  {
    if b == [] {
      assert a + b == a;
    } else {
      var c := a + b;
      var init := b[..|b| - 1];
      assert c[..|c| - 1] == a + init;
      assert c[|c| - 1] == b[|b| - 1];
      NonBlankConcat(a, init);
    }
  }

  /** A single line is kept exactly when it is not blank. */
  lemma NonBlankOne(x: Row)
    ensures NonBlank([x]) == (if x == [] then [] else [x])
  {
    assert [x][..0] == [];
  }

  /** What `csv.DictReader` reads from the file's lines: the field names from the
      first line, then the non-blank rows after it. */
  function DictRows(lines: seq<Row>): (r: seq<Row>)
    requires lines != []
    ensures |r| >= 1 && r[0] == lines[0]
    ensures forall k :: 1 <= k < |r| ==> r[k] != []
  {
    [lines[0]] + NonBlank(lines[1..])
  }

  /** The amount due of the chosen row: the stored amount when it is set and
      non-zero, otherwise `max(1, int(hours)) * 500` since `time`; None when the stored
      text is not a number (`float()` raises). */
  function AmountDue(cell: Cell, time: nat, now: int): (r: Option<Money>)
    ensures cell.Missing? || cell == Text("") ==> r == Some(Int(Fee(now - time, PaymentRatePerHour)))
    ensures r.Some? && r.value.Int? ==> r.value.i >= PaymentRatePerHour as int
    ensures r.Some? && r.value.Float? ==> r.value.x != 0.0 && cell.Text? && ParseFloat(cell.s) == Some(r.value.x)
    ensures cell.Text? && cell.s != "" && ParseFloat(cell.s) == Some(0.0) ==>
              r == Some(Int(Fee(now - time, PaymentRatePerHour)))
    ensures cell.Text? && cell.s != "" && ParseFloat(cell.s).Some? && ParseFloat(cell.s).value != 0.0 ==>
              r == Some(Float(ParseFloat(cell.s).value))
    ensures cell.Text? && cell.s != "" && ParseFloat(cell.s).None? ==> r.None?
  {
    match cell
    case Text(s) =>
      if s == "" then Some(Int(Fee(now - time, PaymentRatePerHour)))
      else
        (match ParseFloat(s)
         case None => None
         case Some(v) => if v == 0.0 then Some(Int(Fee(now - time, PaymentRatePerHour))) else Some(Float(v)))
    case _ => Some(Int(Fee(now - time, PaymentRatePerHour)))
  }

  /** The entry lane stores "0" as the amount due of every entry, and such an entry
      is charged the fee computed from its entry time. */
  lemma ZeroAmountComputed(time: nat, now: int)
    ensures AmountDue(Text("0"), time, now) == Some(Int(Fee(now - time, PaymentRatePerHour)))
  {
    ParseFloatOfNat(0);
    assert NatToString(0) == "0";
  }

  /** The CSV branch of `find_unpaid_entry`, on the lines of the file. */
  function CsvUnpaidEntry(lines: seq<Row>, plate: string, now: int): Lookup
  {
    if lines == [] then NoEntry
    else
      match HeaderColumns(ByName, lines[0])
      case None => NoEntry
      case Some(cols) =>
        var rows := DictRows(lines);
        match LatestUnpaid(ByName, rows, cols, plate)
        case Raised => NoEntry
        case Ok(None) => NoEntry
        case Ok(Some(k)) =>
          var time := Key(ByName, rows, cols, k).value;
          match AmountDue(CellAt(ByName, rows[k], cols.amount), time, now)
          case None => NoEntry
          case Some(amount) => Entry(time, amount)
  }

  /** `find_unpaid_entry(plate)`: the database first, the file when the database has
      no row. `file` is None when the file does not exist; `now` is the clock in
      seconds. */
  function UnpaidEntry(db: DbFind, file: Option<seq<Row>>, plate: string, now: int): Lookup
  {
    match db
    case DbFailed => NoEntry
    case DbFound(time, amount) => Entry(time, amount)
    case DbNone =>
      match file
      case None => NoEntry
      case Some(lines) => CsvUnpaidEntry(lines, plate, now)
  }

  method FindUnpaidEntry(db: DbFind, file: Option<seq<Row>>, plate: string, now: int) returns (r: Lookup)
    ensures r == UnpaidEntry(db, file, plate, now)
  {
    if db.DbFailed? {
      return NoEntry;
    }
    if db.DbFound? {
      return Entry(db.time, db.amount);
    }
    if file.None? || file.value == [] {
      return NoEntry;
    }
    var lines := file.value;
    var cols := HeaderColumns(ByName, lines[0]);
    if cols.None? {
      return NoEntry;
    }
    var rows := DictRows(lines);
    var latest := FindLatestUnpaid(ByName, rows, cols.value, plate);
    if latest.Raised? || latest.value.None? {
      return NoEntry;
    }
    var k := latest.value.value;
    var time := Key(ByName, rows, cols.value, k).value;
    var amount := AmountDue(CellAt(ByName, rows[k], cols.value.amount), time, now);
    if amount.None? {
      return NoEntry;
    }
    return Entry(time, amount.value);
  }

  /** On a file whose header names the five columns and whose rows all hold them,
      the CSV lookup finds an entry only for an open unpaid entry of the plate, and
      then the one with the latest instant, whose instant it returns. */
  lemma CsvLookupFindsNewestOpenEntry(lines: seq<Row>, plate: string, now: int)
    requires lines != [] && HeaderColumns(ByName, lines[0]).Some?
    requires Wide(DictRows(lines), HeaderColumns(ByName, lines[0]).value)
    ensures var rows := DictRows(lines);
            var cols := HeaderColumns(ByName, lines[0]).value;
            var e := CsvUnpaidEntry(lines, plate, now);
            e.Entry? ==>
              LatestUnpaid(ByName, rows, cols, plate).Ok? && LatestUnpaid(ByName, rows, cols, plate).value.Some?
              && var k := LatestUnpaid(ByName, rows, cols, plate).value.value;
                 1 <= k < |rows| && Open(rows, cols, plate, k) && TimeOf(rows, cols, k) == Some(e.time)
                 && forall j :: 1 <= j < |rows| && Open(rows, cols, plate, j) ==>
                      TimeOf(rows, cols, j).Some? && TimeOf(rows, cols, j).value <= e.time
  {
    var rows := DictRows(lines);
    var cols := HeaderColumns(ByName, lines[0]).value;
    LatestUnpaidOnWideRows(ByName, rows, cols, plate);
    var latest := LatestUnpaid(ByName, rows, cols, plate);
    if latest.Ok? && latest.value.Some? {
      KeyWide(ByName, rows, cols, latest.value.value);
    }
  }

  /** On such a file, a plate with no open unpaid entry finds nothing. */
  lemma CsvLookupWithoutOpenEntry(lines: seq<Row>, plate: string, now: int)
    requires lines != [] && HeaderColumns(ByName, lines[0]).Some?
    requires Wide(DictRows(lines), HeaderColumns(ByName, lines[0]).value)
    requires forall k :: 1 <= k < |DictRows(lines)| ==> !Open(DictRows(lines), HeaderColumns(ByName, lines[0]).value, plate, k)
    ensures CsvUnpaidEntry(lines, plate, now) == NoEntry
  {
    LatestUnpaidOnWideRows(ByName, DictRows(lines), HeaderColumns(ByName, lines[0]).value, plate);
  }

  /** The CSV branch of `mark_entry_as_paid` on the `csv.reader` rows: its result,
      Raised where an exception escapes, and the rows written back. */
  function MarkCsv(rows: seq<Row>, plate: string, text: string): (seq<Row>, Outcome<bool>)
  {
    if rows == [] || |rows[0]| < 4 then (rows, Ok(false))
    else
      match HeaderColumns(ByPosition, rows[0])
      case None => (rows, Ok(false))
      case Some(cols) =>
        match LatestUnpaid(ByPosition, rows, cols, plate)
        case Raised => (rows, Raised)
        case Ok(None) => (rows, Ok(false))
        case Ok(Some(k)) =>
          if cols.status < |rows[k]| && cols.amount < |rows[k]| then
            assert StatusHeader != AmountHeader;
            (MarkRow(rows, k, cols.status, cols.amount, text), Ok(true))
          else (rows, Raised)
  }

  /** `mark_entry_as_paid(plate, amount_paid)`: the database first, then the file.
      Returns the file's new rows and the result. */
  function MarkEntry(db: DbUpdate, present: bool, rows: seq<Row>, plate: string, text: string): (seq<Row>, Outcome<bool>)
  {
    match db
    case Updated => (rows, Ok(true))
    case UpdateRaised => (rows, Ok(false))
    case NotUpdated => if !present then (rows, Ok(false)) else MarkCsv(rows, plate, text)
  }

  /** Marking changes the file only when it reports success, and then exactly two
      cells of the newest open unpaid entry of the plate: its payment status becomes
      '1' and its amount the text given. The header is never touched. */
  lemma MarkChangesOnlyTheChosenRow(db: DbUpdate, present: bool, rows: seq<Row>, plate: string, text: string)
    ensures MarkEntry(db, present, rows, plate, text).1 != Ok(true) ==> MarkEntry(db, present, rows, plate, text).0 == rows
    ensures MarkEntry(db, present, rows, plate, text).0 != rows ==>
              db == NotUpdated && present && rows != [] && HeaderColumns(ByPosition, rows[0]).Some?
              && var cols := HeaderColumns(ByPosition, rows[0]).value;
                 var after := MarkEntry(db, present, rows, plate, text).0;
                 LatestUnpaid(ByPosition, rows, cols, plate).Ok? && LatestUnpaid(ByPosition, rows, cols, plate).value.Some?
                 && var k := LatestUnpaid(ByPosition, rows, cols, plate).value.value;
                    OnlyTwoCellsDiffer(rows, after, k, cols.status, cols.amount)
                    && after[k][cols.status] == Paid && after[k][cols.amount] == text
                    && after[0] == rows[0]
  {
    var after := MarkEntry(db, present, rows, plate, text).0;
    if after != rows {
      var cols := HeaderColumns(ByPosition, rows[0]).value;
      var k := LatestUnpaid(ByPosition, rows, cols, plate).value.value;
      assert StatusHeader != AmountHeader;
      MarkRowTouchesTwoCells(rows, k, cols.status, cols.amount, text);
    }
  }

  /** A plate with no open unpaid entry in a well-formed file is never marked: the
      result is False and the file is left as it was. */
  lemma NoEntryNotMarked(present: bool, rows: seq<Row>, plate: string, text: string)
    requires rows != [] && HeaderColumns(ByPosition, rows[0]).Some?
    requires Wide(rows, HeaderColumns(ByPosition, rows[0]).value)
    requires forall k :: 1 <= k < |rows| ==> !Open(rows, HeaderColumns(ByPosition, rows[0]).value, plate, k)
    ensures MarkEntry(NotUpdated, present, rows, plate, text) == (rows, Ok(false))
  {
    LatestUnpaidOnWideRows(ByPosition, rows, HeaderColumns(ByPosition, rows[0]).value, plate);
  }

  /** The method behind `MarkEntry`. */
  method MarkEntryAsPaid(journal: CsvJournal, db: DbUpdate, plate: string, text: string) returns (r: Outcome<bool>)
    modifies journal
    ensures journal.present == old(journal.present)
    ensures (journal.rows, r) == MarkEntry(db, old(journal.present), old(journal.rows), plate, text)
  {
    if db == Updated {
      return Ok(true);
    }
    if db == UpdateRaised || !journal.present {
      return Ok(false);
    }
    var rows := journal.rows;
    if rows == [] || |rows[0]| < 4 {
      return Ok(false);
    }
    var cols := HeaderColumns(ByPosition, rows[0]);
    if cols.None? {
      return Ok(false);
    }
    var latest := FindLatestUnpaid(ByPosition, rows, cols.value, plate);
    if latest.Raised? {
      return Raised;
    }
    if latest.value.None? {
      return Ok(false);
    }
    var k := latest.value.value;
    if cols.value.status >= |rows[k]| || cols.value.amount >= |rows[k]| {
      // IndexError before anything is written
      return Raised;
    }
    assert StatusHeader != AmountHeader;
    journal.Rewrite(MarkRow(rows, k, cols.value.status, cols.value.amount, text));
    return Ok(true);
  }

  /** The replies written to the card reader. */
  datatype Message = InvalidData | NoEntryFound | Insufficient | Pay(amount: real) | Success | DbUpdateError

  /** `str(amount_due)`: ints print in decimal; the text of a float is given. */
  function Render(m: Money, floatText: real -> string): string
  {
    match m
    case Int(i) => IntToString(i)
    case Float(x) => floatText(x)
  }

  /** What the device answered within the timeout; no answer or an empty line reads
      as "TIMEOUT". */
  function Answer(response: Option<string>): (a: string)
    ensures a != "" && (response.Some? && response.value != "" ==> a == response.value)
    ensures response.None? || response.value == "" ==> a == Timeout
  {
    if response.None? || response.value == "" then Timeout else response.value
  }

  /** The end of a pass once the payment command for `amount` was sent: on "DONE" the
      entry is marked as paid with `str(amount)`, and SUCCESS or ERROR:DB_UPDATE
      follows; any other answer ends the pass. Also says whether an exception
      escaped, and gives the file's rows afterwards. */
  function Settle(present: bool, rows: seq<Row>, plate: string, amount: Money, update: DbUpdate,
                  response: Option<string>, floatText: real -> string): (seq<Message>, bool, seq<Row>)
  {
    if Answer(response) != Done then ([Pay(amount.Value())], false, rows)
    else
      var marked := MarkEntry(update, present, rows, plate, Render(amount, floatText));
      if marked.1.Raised? then ([Pay(amount.Value())], true, marked.0)
      else if marked.1.value then ([Pay(amount.Value()), Success], false, marked.0)
      else ([Pay(amount.Value()), DbUpdateError], false, marked.0)
  }

  /** One pass of the main loop for the serial line `line`: the replies sent, whether
      the loop died on an escaping exception, and the file's rows afterwards. `db`
      and `update` are the database's answers, `now` the clock in seconds, `response`
      what the device answered to the payment command. */
  function Step(present: bool, rows: seq<Row>, line: string, db: DbFind, update: DbUpdate, now: int,
                response: Option<string>, floatText: real -> string): (seq<Message>, bool, seq<Row>)
  {
    if !Contains(line, PlateTag) then ([], false, rows)
    else Reply(present, rows, ParseData(line), LookupFor(db, present, rows, ParseData(line), now), update, response, floatText)
  }

  /** The unpaid entry looked up for a parsed message (none for a message that did
      not parse, which is never looked up). */
  function LookupFor(db: DbFind, present: bool, rows: seq<Row>, parsed: Option<(string, real)>, now: int): Lookup
  {
    if parsed.None? then NoEntry else UnpaidEntry(db, if present then Some(rows) else None, parsed.value.0, now)
  }

  /** The rest of a pass once the line mentions a plate: `parsed` is what
      `parse_data` returned and `lookup` what `find_unpaid_entry` returned. */
  function Reply(present: bool, rows: seq<Row>, parsed: Option<(string, real)>, lookup: Lookup, update: DbUpdate,
                 response: Option<string>, floatText: real -> string): (seq<Message>, bool, seq<Row>)
  {
    if parsed.None? then ([InvalidData], false, rows)
    else if lookup.NoEntry? then ([NoEntryFound], false, rows)
    else if parsed.value.1 < lookup.amount.Value() then ([Insufficient], false, rows)
    else Settle(present, rows, parsed.value.0, lookup.amount, update, response, floatText)
  }

  /** A payment command is sent only for a parsed message with an entry whose amount
      the balance covers, and it asks for that amount. */
  lemma ReplyPays(present: bool, rows: seq<Row>, parsed: Option<(string, real)>, lookup: Lookup, update: DbUpdate,
                  response: Option<string>, floatText: real -> string)
    requires var sent := Reply(present, rows, parsed, lookup, update, response, floatText).0;
             sent != [] && sent[0].Pay?
    ensures parsed.Some? && lookup.Entry? && parsed.value.1 >= lookup.amount.Value()
    ensures Reply(present, rows, parsed, lookup, update, response, floatText)
            == Settle(present, rows, parsed.value.0, lookup.amount, update, response, floatText)
    ensures Reply(present, rows, parsed, lookup, update, response, floatText).0[0] == Pay(lookup.amount.Value())
  {
  }

  /** The file changes only after a payment command and the answer "DONE", and then
      SUCCESS follows. */
  lemma ReplyMarksOnlyAfterDone(present: bool, rows: seq<Row>, parsed: Option<(string, real)>, lookup: Lookup,
                                update: DbUpdate, response: Option<string>, floatText: real -> string)
    requires Reply(present, rows, parsed, lookup, update, response, floatText).2 != rows
    ensures parsed.Some? && lookup.Entry? && parsed.value.1 >= lookup.amount.Value()
    ensures response == Some(Done)
    ensures Reply(present, rows, parsed, lookup, update, response, floatText).0 == [Pay(lookup.amount.Value()), Success]
  {
    assert parsed.Some? && lookup.Entry? && parsed.value.1 >= lookup.amount.Value();
    assert Answer(response) == Done;
    var text := Render(lookup.amount, floatText);
    MarkChangesOnlyTheChosenRow(update, present, rows, parsed.value.0, text);
  }

  /** A line that does not mention a plate is ignored. */
  lemma LineWithoutPlateIgnored(present: bool, rows: seq<Row>, line: string, db: DbFind, update: DbUpdate, now: int,
                                response: Option<string>, floatText: real -> string)
    requires !Contains(line, PlateTag)
    ensures Step(present, rows, line, db, update, now, response, floatText) == ([], false, rows)
  {
  }

  /** The file changes only for a card whose balance covers the amount due, after the
      device answered "DONE": a payment command was sent for that amount and the
      balance left, `balance - amount_due`, is not negative. */
  lemma MarkedOnlyAfterDone(present: bool, rows: seq<Row>, line: string, db: DbFind, update: DbUpdate, now: int,
                            response: Option<string>, floatText: real -> string)
    requires Step(present, rows, line, db, update, now, response, floatText).2 != rows
    ensures response == Some(Done)
    ensures ParseData(line).Some?
    ensures var lookup := UnpaidEntry(db, if present then Some(rows) else None, ParseData(line).value.0, now);
            lookup.Entry? && ParseData(line).value.1 - lookup.amount.Value() >= 0.0
            && Step(present, rows, line, db, update, now, response, floatText).0 == [Pay(lookup.amount.Value()), Success]
  {
    var parsed := ParseData(line);
    var lookup := LookupFor(db, present, rows, parsed, now);
    assert Contains(line, PlateTag);
    ReplyMarksOnlyAfterDone(present, rows, parsed, lookup, update, response, floatText);
  }

  /** A balance below the amount due is answered with ERROR:INSUFFICIENT and nothing
      else: no payment command, and the entry stays unpaid. */
  lemma InsufficientNeverMarks(present: bool, rows: seq<Row>, line: string, db: DbFind, update: DbUpdate, now: int,
                               response: Option<string>, floatText: real -> string)
    requires Contains(line, PlateTag) && ParseData(line).Some?
    requires UnpaidEntry(db, if present then Some(rows) else None, ParseData(line).value.0, now).Entry?
    requires ParseData(line).value.1 < UnpaidEntry(db, if present then Some(rows) else None, ParseData(line).value.0, now).amount.Value()
    ensures Step(present, rows, line, db, update, now, response, floatText) == ([Insufficient], false, rows)
  {
  }

  /** Every payment command asks for no more than the balance on the card. */
  lemma PaymentWithinBalance(present: bool, rows: seq<Row>, line: string, db: DbFind, update: DbUpdate, now: int,
                             response: Option<string>, floatText: real -> string)
    requires var sent := Step(present, rows, line, db, update, now, response, floatText).0;
             sent != [] && sent[0].Pay?
    ensures ParseData(line).Some?
    ensures ParseData(line).value.1 - Step(present, rows, line, db, update, now, response, floatText).0[0].amount >= 0.0
  {
    var parsed := ParseData(line);
    var lookup := LookupFor(db, present, rows, parsed, now);
    assert Contains(line, PlateTag);
    ReplyPays(present, rows, parsed, lookup, update, response, floatText);
  }

  /** Sends the payment command and waits for the device's answer. */
  method AwaitAndSettle(journal: CsvJournal, plate: string, amount: Money, update: DbUpdate,
                        response: Option<string>, floatText: real -> string) returns (sent: seq<Message>, crashed: bool)
    modifies journal
    ensures journal.present == old(journal.present)
    ensures (sent, crashed, journal.rows) == Settle(old(journal.present), old(journal.rows), plate, amount, update, response, floatText)
  {
    sent := [Pay(amount.Value())];
    crashed := false;
    if Answer(response) == Done {
      var marked := MarkEntryAsPaid(journal, update, plate, Render(amount, floatText));
      if marked.Raised? {
        crashed := true;
      } else if marked.value {
        sent := sent + [Success];
      } else {
        sent := sent + [DbUpdateError];
      }
      ghost var settled := Settle(old(journal.present), old(journal.rows), plate, amount, update, response, floatText);
      assert settled.0 == sent && settled.1 == crashed;
    }
  }

  /** The main loop's body. */
  method HandleLine(journal: CsvJournal, line: string, db: DbFind, update: DbUpdate, now: int,
                    response: Option<string>, floatText: real -> string) returns (sent: seq<Message>, crashed: bool)
    modifies journal
    ensures journal.present == old(journal.present)
    ensures (sent, crashed, journal.rows) == Step(old(journal.present), old(journal.rows), line, db, update, now, response, floatText)
  {
    if !Contains(line, PlateTag) {
      return [], false;
    }
    var parsed := ParseData(line);
    if parsed.None? {
      return [InvalidData], false;
    }
    var (plate, balance) := parsed.value;
    var lookup := FindUnpaidEntry(db, if journal.present then Some(journal.rows) else None, plate, now);
    if lookup.NoEntry? {
      return [NoEntryFound], false;
    }
    if balance < lookup.amount.Value() {
      return [Insufficient], false;
    }
    sent, crashed := AwaitAndSettle(journal, plate, lookup.amount, update, response, floatText);
  }
}
