/** The journal as raw CSV rows, and the scan that `find_unpaid_entry`
    (process_payment.py), `mark_entry_as_paid` (process_payment.py) and
    `get_unpaid_entry` (payment_success.py) all run over it: every unpaid entry of
    the plate with no later exit stamped after it, then the newest of those by
    `strptime`. The scan is modelled with the exceptions the Python expressions
    raise on short rows and unparseable timestamps, because one caller lets them
    escape and the others catch them. */
module Rows {
  import opened Text
  import opened Journal
  import opened Timestamps

  type Row = seq<string>

  /** How a cell is read: `csv.reader` rows by position, where a missing cell raises
      IndexError; `csv.DictReader` rows by name, where a missing cell reads as None. */
  datatype View = ByPosition | ByName

  /** The value of one cell expression. */
  datatype Cell = Raises | Missing | Text(s: string)

  /** The result of an evaluation that may raise an exception. */
  datatype Outcome<T> = Ok(value: T) | Raised

  function CellAt(view: View, row: Row, col: nat): (c: Cell)
    ensures col < |row| ==> c == Text(row[col])
    ensures col >= |row| ==> c == (if view == ByPosition then Raises else Missing)
  {
    if col < |row| then Text(row[col]) else if view == ByPosition then Raises else Missing
  }

  /** The positions of the five columns. */
  datatype Columns = Columns(plate: nat, action: nat, status: nat, timestamp: nat, amount: nat)

  /** `header.index(name)`: the first position holding `name`. */
  function Position(header: Row, name: string): (i: Option<nat>)
    ensures i.Some? ==> i.value < |header| && header[i.value] == name
                        && forall j :: 0 <= j < i.value ==> header[j] != name
    ensures i.None? <==> name !in header
  {
    if header == [] then None
    else if header[0] == name then Some(0)
    else match Position(header[1..], name)
      case None => None
      case Some(i) => Some(i + 1)
  }

  /** The position a DictReader field name ends up reading: when a name repeats, the
      last column wins. */
  function LastPosition(header: Row, name: string): (i: Option<nat>)
    ensures i.Some? ==> i.value < |header| && header[i.value] == name
                        && forall j :: i.value < j < |header| ==> header[j] != name
    ensures i.None? <==> name !in header
  {
    if header == [] then None
    else if header[|header| - 1] == name then Some(|header| - 1)
    else
      var i := LastPosition(header[..|header| - 1], name);
      assert header == header[..|header| - 1] + [header[|header| - 1]];
      i
  }

  /** Where a view reads the column `name`. */
  function Locate(view: View, header: Row, name: string): (i: Option<nat>)
    ensures i.Some? ==> i.value < |header| && header[i.value] == name
    ensures i.None? <==> name !in header
  {
    if view == ByPosition then Position(header, name) else LastPosition(header, name)
  }

  /** The five positions the header gives, when it names every expected column. */
  function HeaderColumns(view: View, header: Row): (c: Option<Columns>)
    ensures c.Some? <==> ValidateCsvHeaders(header)
    ensures c.Some? ==> c.value.plate < |header| && c.value.action < |header| && c.value.status < |header|
                        && c.value.timestamp < |header| && c.value.amount < |header|
    ensures c.Some? ==> header[c.value.plate] == PlateHeader && header[c.value.action] == ActionHeader
                        && header[c.value.status] == StatusHeader && header[c.value.timestamp] == TimestampHeader
                        && header[c.value.amount] == AmountHeader
  {
    assert ExpectedHeaders == [PlateHeader, ActionHeader, StatusHeader, TimestampHeader, AmountHeader];
    match (Locate(view, header, PlateHeader), Locate(view, header, ActionHeader), Locate(view, header, StatusHeader),
           Locate(view, header, TimestampHeader), Locate(view, header, AmountHeader))
    case (Some(p), Some(a), Some(s), Some(t), Some(m)) => Some(Columns(p, a, s, t, m))
    case _ => None
  }

  /** `cell.strip().upper() == plate`; None has no `strip`. */
  function PlateIs(c: Cell, plate: string): Outcome<bool>
  {
    match c
    case Text(s) => Ok(Upper(Strip(s)) == plate)
    case _ => Raised
  }

  /** `cell == v`; None equals no string. */
  function CellIs(c: Cell, v: string): Outcome<bool>
  {
    match c
    case Raises => Raised
    case Missing => Ok(false)
    case Text(s) => Ok(s == v)
  }

  /** `later > earlier` on two cells, the left one evaluated first; None cannot be
      compared with a string. */
  function LaterThan(later: Cell, earlier: Cell): Outcome<bool>
  {
    if later.Raises? || earlier.Raises? || later.Missing? || earlier.Missing? then Raised
    else Ok(StrLess(earlier.s, later.s))
  }

  /** `a and b` where evaluating b may raise and is skipped once a is false. */
  function AndThen(a: Outcome<bool>, b: Outcome<bool>): (r: Outcome<bool>)
    ensures a == Ok(false) ==> r == Ok(false)
    ensures a == Ok(true) ==> r == b
    ensures a == Raised ==> r == Raised
  {
    match a
    case Raised => Raised
    case Ok(false) => Ok(false)
    case Ok(true) => b
  }

  /** The test on `row`: an unpaid entry of the plate. */
  function IsUnpaidEntry(view: View, row: Row, cols: Columns, plate: string): Outcome<bool>
  {
    AndThen(PlateIs(CellAt(view, row, cols.plate), plate),
      AndThen(CellIs(CellAt(view, row, cols.action), EntryAction),
              CellIs(CellAt(view, row, cols.status), Unpaid)))
  }

  /** The test on `later_row`: an exit of the plate stamped after `row`. */
  function Closes(view: View, later: Row, row: Row, cols: Columns, plate: string): Outcome<bool>
  {
    AndThen(PlateIs(CellAt(view, later, cols.plate), plate),
      AndThen(CellIs(CellAt(view, later, cols.action), ExitAction),
              LaterThan(CellAt(view, later, cols.timestamp), CellAt(view, row, cols.timestamp))))
  }

  /** The test on each of the first n rows as `later_row` against `row`. */
  function ExitTests(view: View, rows: seq<Row>, row: Row, cols: Columns, plate: string, n: nat): (t: seq<Outcome<bool>>)
    requires n <= |rows|
    ensures |t| == n
  {
    if n == 0 then [] else ExitTests(view, rows, row, cols, plate, n - 1) + [Closes(view, rows[n - 1], row, cols, plate)]
  }

  lemma {:induction false} ExitTestsAt(view: View, rows: seq<Row>, row: Row, cols: Columns, plate: string, n: nat, m: nat)
    requires m < n <= |rows|
    ensures ExitTests(view, rows, row, cols, plate, n)[m] == Closes(view, rows[m], row, cols, plate)
  {
    if m < n - 1 {
      ExitTestsAt(view, rows, row, cols, plate, n - 1, m);
    }
  }

  /** A loop over `tests[j:]` that stops at the first true test and lets the first
      exception escape. */
  function FirstHit(tests: seq<Outcome<bool>>, j: nat): Outcome<bool>
    requires j <= |tests|
    decreases |tests| - j
  {
    if j == |tests| then Ok(false)
    else match tests[j]
      case Raised => Raised
      case Ok(true) => Ok(true)
      case Ok(false) => FirstHit(tests, j + 1)
  }

  /** When no test raises, the loop finds whether any test holds. */
  lemma {:induction false} FirstHitAllOk(tests: seq<Outcome<bool>>, j: nat)
    requires j <= |tests| && forall m :: j <= m < |tests| ==> tests[m].Ok?
    ensures FirstHit(tests, j) == Ok(exists m :: j <= m < |tests| && tests[m] == Ok(true))
    decreases |tests| - j
  {
    if j < |tests| {
      FirstHitAllOk(tests, j + 1);
    }
  }

  /** The inner loop over `rows[j:]`, stopping at the first row that closes `row`. */
  function ExitFrom(view: View, rows: seq<Row>, j: nat, row: Row, cols: Columns, plate: string): Outcome<bool>
    requires j <= |rows|
  {
    FirstHit(ExitTests(view, rows, row, cols, plate, |rows|), j)
  }

  /** The outcome of the outer loop's body for row k: whether it is appended to
      `unpaid_entries`. */
  function Selected(view: View, rows: seq<Row>, cols: Columns, plate: string, k: nat): Outcome<bool>
    requires k < |rows|
  {
    match IsUnpaidEntry(view, rows[k], cols, plate)
    case Raised => Raised
    case Ok(false) => Ok(false)
    case Ok(true) =>
      match ExitFrom(view, rows, k + 1, rows[k], cols, plate)
      case Raised => Raised
      case Ok(hasExit) => Ok(!hasExit)
  }

  /** The outcome of the outer loop's body for each of the first n rows. */
  function Tests(view: View, rows: seq<Row>, cols: Columns, plate: string, n: nat): (t: seq<Outcome<bool>>)
    requires n <= |rows|
    ensures |t| == n
  {
    if n == 0 then [] else Tests(view, rows, cols, plate, n - 1) + [Selected(view, rows, cols, plate, n - 1)]
  }

  lemma {:induction false} TestsAt(view: View, rows: seq<Row>, cols: Columns, plate: string, n: nat, k: nat)
    requires k < n <= |rows|
    ensures Tests(view, rows, cols, plate, n)[k] == Selected(view, rows, cols, plate, k)
  {
    if k < n - 1 {
      TestsAt(view, rows, cols, plate, n - 1, k);
    }
  }

  /** The outer loop over rows 1 .. n-1 (row 0 is the header), given the outcome of
      its body for each row: the positions appended, in file order, or Raised from
      the first row whose body raised. */
  function Gather(tests: seq<Outcome<bool>>, n: nat): Outcome<seq<nat>>
    requires 1 <= n <= |tests|
  {
    if n == 1 then Ok([])
    else match Gather(tests, n - 1)
      case Raised => Raised
      case Ok(found) =>
        match tests[n - 1]
        case Raised => Raised
        case Ok(b) => Ok(if b then found + [n - 1] else found)
  }

  /** The positions of the unpaid entries of the plate with no later closing exit. */
  function UnpaidRows(view: View, rows: seq<Row>, cols: Columns, plate: string): Outcome<seq<nat>>
    requires |rows| >= 1
  {
    Gather(Tests(view, rows, cols, plate, |rows|), |rows|)
  }

  /** Once the loop has raised, it stays raised. */
  lemma {:induction false} RaisedStays(tests: seq<Outcome<bool>>, m: nat, n: nat)
    requires 1 <= m <= n <= |tests| && Gather(tests, m).Raised?
    ensures Gather(tests, n).Raised?
    decreases n - m
  {
    if m < n {
      RaisedStays(tests, m + 1, n);
    }
  }

  /** A row whose body raises makes the whole loop raise. */
  lemma RaisedAt(tests: seq<Outcome<bool>>, i: nat)
    requires 1 <= i < |tests| && tests[i].Raised?
    ensures Gather(tests, |tests|).Raised?
  {
    assert Gather(tests, i + 1).Raised?;
    RaisedStays(tests, i + 1, |tests|);
  }

  /** The body of the outer loop for row i, with its inner loop over the later rows. */
  method SelectRow(view: View, rows: seq<Row>, cols: Columns, plate: string, i: nat) returns (s: Outcome<bool>)
    requires i < |rows|
    ensures s == Tests(view, rows, cols, plate, |rows|)[i]
  {
    TestsAt(view, rows, cols, plate, |rows|, i);
    var row := rows[i];
    var isEntry := IsUnpaidEntry(view, row, cols, plate);
    if isEntry.Raised? {
      return Raised;
    }
    if !isEntry.value {
      return Ok(false);
    }
    ghost var exits := ExitTests(view, rows, row, cols, plate, |rows|);
    var hasExit := false;
    var j := i + 1;
    while j < |rows|
      invariant i + 1 <= j <= |rows|
      invariant FirstHit(exits, i + 1) == FirstHit(exits, j)
      decreases |rows| - j
    {
      var closes := Closes(view, rows[j], row, cols, plate);
      ExitTestsAt(view, rows, row, cols, plate, |rows|, j);
      if closes.Raised? {
        return Raised;
      }
      if closes.value {
        hasExit := true;
        break;
      }
      j := j + 1;
    }
    return Ok(!hasExit);
  }

  /** The outer loop of the three scans. */
  method FindUnpaidRows(view: View, rows: seq<Row>, cols: Columns, plate: string) returns (r: Outcome<seq<nat>>)
    requires |rows| >= 1
    ensures r == UnpaidRows(view, rows, cols, plate)
  {
    ghost var tests := Tests(view, rows, cols, plate, |rows|);
    var found: seq<nat> := [];
    var i := 1;
    while i < |rows|
      invariant 1 <= i <= |rows|
      invariant Gather(tests, i) == Ok(found)
      decreases |rows| - i
    {
      var s := SelectRow(view, rows, cols, plate, i);
      assert tests[i] == s;
      if s.Raised? {
        RaisedAt(tests, i);
        return Raised;
      }
      if s.value {
        found := found + [i];
      }
      i := i + 1;
    }
    return Ok(found);
  }

  /** Every row after the header holds all five columns. */
  predicate Wide(rows: seq<Row>, cols: Columns)
  {
    forall k :: 1 <= k < |rows| ==>
      cols.plate < |rows[k]| && cols.action < |rows[k]| && cols.status < |rows[k]|
      && cols.timestamp < |rows[k]| && cols.amount < |rows[k]|
  }

  /** Row k, read plainly: an unpaid entry of the plate. */
  predicate UnpaidEntryRow(rows: seq<Row>, cols: Columns, plate: string, k: nat)
    requires 1 <= k < |rows| && Wide(rows, cols)
  {
    Upper(Strip(rows[k][cols.plate])) == plate && rows[k][cols.action] == EntryAction && rows[k][cols.status] == Unpaid
  }

  /** Row j closes row k: an exit of the plate stamped after it. */
  predicate ClosingRow(rows: seq<Row>, cols: Columns, plate: string, k: nat, j: nat)
    requires 1 <= k < |rows| && 1 <= j < |rows| && Wide(rows, cols)
  {
    Upper(Strip(rows[j][cols.plate])) == plate && rows[j][cols.action] == ExitAction
    && StrLess(rows[k][cols.timestamp], rows[j][cols.timestamp])
  }

  /** Row k is selected: an unpaid entry that no later row closes. */
  predicate Open(rows: seq<Row>, cols: Columns, plate: string, k: nat)
    requires 1 <= k < |rows| && Wide(rows, cols)
  {
    UnpaidEntryRow(rows, cols, plate, k) && forall j :: k < j < |rows| ==> !ClosingRow(rows, cols, plate, k, j)
  }

  lemma ClosesWide(view: View, rows: seq<Row>, cols: Columns, plate: string, k: nat, j: nat)
    requires Wide(rows, cols) && 1 <= k < |rows| && 1 <= j < |rows|
    ensures Closes(view, rows[j], rows[k], cols, plate) == Ok(ClosingRow(rows, cols, plate, k, j))
  {
  }

  lemma IsUnpaidEntryWide(view: View, rows: seq<Row>, cols: Columns, plate: string, k: nat)
    requires Wide(rows, cols) && 1 <= k < |rows|
    ensures IsUnpaidEntry(view, rows[k], cols, plate) == Ok(UnpaidEntryRow(rows, cols, plate, k))
  {
  }

  lemma ExitFromWide(view: View, rows: seq<Row>, cols: Columns, plate: string, k: nat, j: nat)
    requires Wide(rows, cols) && 1 <= k < j <= |rows|
    ensures ExitFrom(view, rows, j, rows[k], cols, plate)
            == Ok(exists m :: j <= m < |rows| && ClosingRow(rows, cols, plate, k, m))
  {
    var exits := ExitTests(view, rows, rows[k], cols, plate, |rows|);
    forall m | j <= m < |rows| ensures exits[m] == Ok(ClosingRow(rows, cols, plate, k, m)) {
      ExitTestsAt(view, rows, rows[k], cols, plate, |rows|, m);
      ClosesWide(view, rows, cols, plate, k, m);
    }
    FirstHitAllOk(exits, j);
  }

  lemma SelectedWide(view: View, rows: seq<Row>, cols: Columns, plate: string, k: nat)
    requires Wide(rows, cols) && 1 <= k < |rows|
    ensures Selected(view, rows, cols, plate, k) == Ok(Open(rows, cols, plate, k))
  {
    IsUnpaidEntryWide(view, rows, cols, plate, k);
    if k + 1 <= |rows| {
      ExitFromWide(view, rows, cols, plate, k, k + 1);
    }
  }

  /** When no row's body raises, the loop selects exactly the rows whose body says
      so, in increasing order. */
  lemma {:induction false} GatherAllOk(tests: seq<Outcome<bool>>, n: nat)
    requires 1 <= n <= |tests| && forall k :: 1 <= k < |tests| ==> tests[k].Ok?
    ensures Gather(tests, n).Ok?
    ensures forall k :: k in Gather(tests, n).value <==> 1 <= k < n && tests[k] == Ok(true)
    ensures forall a, b :: 0 <= a < b < |Gather(tests, n).value| ==> Gather(tests, n).value[a] < Gather(tests, n).value[b]
    ensures forall a :: 0 <= a < |Gather(tests, n).value| ==> Gather(tests, n).value[a] < n
  {
    if n > 1 {
      GatherAllOk(tests, n - 1);
    }
  }

  /** On rows holding every column the loop cannot raise, in either view, and it
      selects exactly the open unpaid entries, in file order. */
  lemma GatherOnWideRows(view: View, rows: seq<Row>, cols: Columns, plate: string)
    requires Wide(rows, cols) && 1 <= |rows|
    ensures forall k :: 1 <= k < |rows| ==> Tests(view, rows, cols, plate, |rows|)[k] == Ok(Open(rows, cols, plate, k))
  {
    var tests := Tests(view, rows, cols, plate, |rows|);
    forall k | 1 <= k < |rows| ensures tests[k] == Ok(Open(rows, cols, plate, k)) {
      TestsAt(view, rows, cols, plate, |rows|, k);
      SelectedWide(view, rows, cols, plate, k);
    }
  }

  /** On rows holding every column the scan cannot raise, in either view; it selects
      exactly the open unpaid entries, in file order. */
  lemma UnpaidOnWideRows(view: View, rows: seq<Row>, cols: Columns, plate: string)
    requires Wide(rows, cols) && |rows| >= 1
    ensures UnpaidRows(view, rows, cols, plate).Ok?
    ensures forall k :: k in UnpaidRows(view, rows, cols, plate).value <==> 1 <= k < |rows| && Open(rows, cols, plate, k)
    ensures forall a, b :: 0 <= a < b < |UnpaidRows(view, rows, cols, plate).value| ==>
              UnpaidRows(view, rows, cols, plate).value[a] < UnpaidRows(view, rows, cols, plate).value[b]
    ensures forall a :: 0 <= a < |UnpaidRows(view, rows, cols, plate).value| ==>
              UnpaidRows(view, rows, cols, plate).value[a] < |rows|
  {
    GatherOnWideRows(view, rows, cols, plate);
    GatherAllOk(Tests(view, rows, cols, plate, |rows|), |rows|);
  }

  /** A blank line, which `csv.reader` returns as an empty row, makes the scan by
      position raise. */
  lemma BlankRowRaises(rows: seq<Row>, cols: Columns, plate: string, k: nat)
    requires 1 <= k < |rows| && rows[k] == []
    ensures UnpaidRows(ByPosition, rows, cols, plate).Raised?
  {
    var tests := Tests(ByPosition, rows, cols, plate, |rows|);
    TestsAt(ByPosition, rows, cols, plate, |rows|, k);
    RaisedAt(tests, k);
  }

  /** `datetime.strptime(rows[k][timestamp], "%Y-%m-%d %H:%M:%S")` as a sort key. */
  function Key(view: View, rows: seq<Row>, cols: Columns, k: nat): Outcome<nat>
    requires k < |rows|
  {
    match CellAt(view, rows[k], cols.timestamp)
    case Text(s) => (match Instant(s) case Some(t) => Ok(t) case None => Raised)
    case _ => Raised
  }

  /** The position of the first greatest key: the head of a stable sort, newest first. */
  function FirstMax(keys: seq<nat>): (i: nat)
    requires keys != []
    ensures i < |keys|
    ensures forall j :: 0 <= j < |keys| ==> keys[j] <= keys[i]
    ensures forall j :: 0 <= j < i ==> keys[j] < keys[i]
  {
    if |keys| == 1 then 0
    else
      var b := FirstMax(keys[..|keys| - 1]);
      assert forall j :: 0 <= j < |keys| - 1 ==> keys[..|keys| - 1][j] == keys[j];
      if keys[|keys| - 1] > keys[b] then |keys| - 1 else b
  }

  /** The key of each selected row, in order. */
  function KeyList(view: View, rows: seq<Row>, cols: Columns, found: seq<nat>): (t: seq<Outcome<nat>>)
    requires forall a :: 0 <= a < |found| ==> found[a] < |rows|
    ensures |t| == |found|
  {
    if found == [] then [] else KeyList(view, rows, cols, found[..|found| - 1]) + [Key(view, rows, cols, found[|found| - 1])]
  }

  lemma {:induction false} KeyListAt(view: View, rows: seq<Row>, cols: Columns, found: seq<nat>, a: nat)
    requires forall a :: 0 <= a < |found| ==> found[a] < |rows|
    requires a < |found|
    ensures KeyList(view, rows, cols, found)[a] == Key(view, rows, cols, found[a])
  {
    if a < |found| - 1 {
      KeyListAt(view, rows, cols, found[..|found| - 1], a);
    }
  }

  /** A loop computing values in order: their list, or Raised from the first that raises. */
  function AllOk(outs: seq<Outcome<nat>>): Outcome<seq<nat>>
  {
    if outs == [] then Ok([])
    else match AllOk(outs[..|outs| - 1])
      case Raised => Raised
      case Ok(vs) =>
        match outs[|outs| - 1]
        case Raised => Raised
        case Ok(v) => Ok(vs + [v])
  }

  /** The loop raises exactly when one of the values does, and otherwise lists them all. */
  lemma {:induction false} AllOkSpec(outs: seq<Outcome<nat>>)
    ensures AllOk(outs).Ok? ==> |AllOk(outs).value| == |outs| && forall a :: 0 <= a < |outs| ==> outs[a] == Ok(AllOk(outs).value[a])
    ensures AllOk(outs).Raised? <==> exists a :: 0 <= a < |outs| && outs[a].Raised?
  {
    if outs != [] {
      var init := outs[..|outs| - 1];
      AllOkSpec(init);
      assert forall a :: 0 <= a < |init| ==> init[a] == outs[a];
      if AllOk(init).Raised? {
        var a :| 0 <= a < |init| && init[a].Raised?;
        assert outs[a].Raised?;
      }
    }
  }

  /** The keys of the selected rows, computed before any comparison: the first
      unparseable one raises. */
  function Keys(view: View, rows: seq<Row>, cols: Columns, found: seq<nat>): Outcome<seq<nat>>
    requires forall a :: 0 <= a < |found| ==> found[a] < |rows|
  {
    AllOk(KeyList(view, rows, cols, found))
  }

  lemma KeysLength(view: View, rows: seq<Row>, cols: Columns, found: seq<nat>)
    requires forall a :: 0 <= a < |found| ==> found[a] < |rows|
    ensures Keys(view, rows, cols, found).Ok? ==>
              |Keys(view, rows, cols, found).value| == |found|
              && forall a :: 0 <= a < |found| ==> Key(view, rows, cols, found[a]) == Ok(Keys(view, rows, cols, found).value[a])
  {
    AllOkSpec(KeyList(view, rows, cols, found));
    forall a | 0 <= a < |found| ensures KeyList(view, rows, cols, found)[a] == Key(view, rows, cols, found[a]) {
      KeyListAt(view, rows, cols, found, a);
    }
  }

  /** `unpaid_entries.sort(key=..., reverse=True)` followed by `unpaid_entries[0]`:
      the position of the newest selected row, the first of them on a tie. */
  function Newest(view: View, rows: seq<Row>, cols: Columns, found: seq<nat>): (r: Outcome<nat>)
    requires found != [] && forall a :: 0 <= a < |found| ==> found[a] < |rows|
    ensures r.Ok? ==> r.value in found && Key(view, rows, cols, r.value).Ok?
    ensures r.Ok? ==> forall a :: 0 <= a < |found| ==>
                        Key(view, rows, cols, found[a]).Ok? && Key(view, rows, cols, found[a]).value <= Key(view, rows, cols, r.value).value
    ensures r.Ok? ==> exists b :: 0 <= b < |found| && found[b] == r.value
                                  && forall a :: 0 <= a < b ==> Key(view, rows, cols, found[a]).value < Key(view, rows, cols, r.value).value
    ensures r.Raised? <==> exists a :: 0 <= a < |found| && Key(view, rows, cols, found[a]).Raised?
  {
    KeysLength(view, rows, cols, found);
    KeysRaise(view, rows, cols, found);
    match Keys(view, rows, cols, found)
    case Raised => Raised
    case Ok(ks) => Ok(found[FirstMax(ks)])
  }

  lemma KeysRaise(view: View, rows: seq<Row>, cols: Columns, found: seq<nat>)
    requires forall a :: 0 <= a < |found| ==> found[a] < |rows|
    ensures Keys(view, rows, cols, found).Raised? <==> exists a :: 0 <= a < |found| && Key(view, rows, cols, found[a]).Raised?
  {
    var outs := KeyList(view, rows, cols, found);
    AllOkSpec(outs);
    forall a | 0 <= a < |found| ensures outs[a] == Key(view, rows, cols, found[a]) {
      KeyListAt(view, rows, cols, found, a);
    }
  }

  /** The keys of the selected rows, computed one by one. */
  method SortKeys(view: View, rows: seq<Row>, cols: Columns, found: seq<nat>) returns (r: Outcome<seq<nat>>)
    requires forall a :: 0 <= a < |found| ==> found[a] < |rows|
    ensures r == Keys(view, rows, cols, found)
  {
    ghost var outs := KeyList(view, rows, cols, found);
    var keys: seq<nat> := [];
    var i := 0;
    while i < |found|
      invariant 0 <= i <= |found|
      invariant AllOk(outs[..i]) == Ok(keys)
      decreases |found| - i
    {
      assert outs[..i + 1][..i] == outs[..i];
      var key := Key(view, rows, cols, found[i]);
      KeyListAt(view, rows, cols, found, i);
      if key.Raised? {
        AllOkSpec(outs);
        return Raised;
      }
      keys := keys + [key.value];
      i := i + 1;
    }
    assert outs[..|found|] == outs;
    return Ok(keys);
  }

  /** The head of a stable sort on `keys`, newest first. */
  method FirstMaxLoop(keys: seq<nat>) returns (best: nat)
    requires keys != []
    ensures best == FirstMax(keys)
  {
    best := 0;
    var k := 1;
    while k < |keys|
      invariant 1 <= k <= |keys|
      invariant best == FirstMax(keys[..k])
      decreases |keys| - k
    {
      assert keys[..k + 1][..k] == keys[..k];
      if keys[k] > keys[best] {
        best := k;
      }
      k := k + 1;
    }
    assert keys[..|keys|] == keys;
  }

  /** The key loop and the head of the sort. */
  method NewestUnpaid(view: View, rows: seq<Row>, cols: Columns, found: seq<nat>) returns (r: Outcome<nat>)
    requires found != [] && forall a :: 0 <= a < |found| ==> found[a] < |rows|
    ensures r == Newest(view, rows, cols, found)
  {
    var keys := SortKeys(view, rows, cols, found);
    if keys.Raised? {
      return Raised;
    }
    KeysLength(view, rows, cols, found);
    var best := FirstMaxLoop(keys.value);
    return Ok(found[best]);
  }

  /** Everything the outer loop selects lies after the header and before n. */
  lemma {:induction false} GatherBounds(tests: seq<Outcome<bool>>, n: nat)
    requires 1 <= n <= |tests| && Gather(tests, n).Ok?
    ensures forall a :: 0 <= a < |Gather(tests, n).value| ==> 1 <= Gather(tests, n).value[a] < n
  {
    if n > 1 {
      GatherBounds(tests, n - 1);
    }
  }

  /** The row the three scans settle on: the newest unpaid entry of the plate with no
      closing exit, None when there is none, or Raised when evaluating the tests or the
      sort keys raised. */
  function LatestUnpaid(view: View, rows: seq<Row>, cols: Columns, plate: string): (r: Outcome<Option<nat>>)
    requires |rows| >= 1
    ensures r.Ok? && r.value.Some? ==> 1 <= r.value.value < |rows| && Key(view, rows, cols, r.value.value).Ok?
  {
    match UnpaidRows(view, rows, cols, plate)
    case Raised => Raised
    case Ok(found) =>
      if found == [] then Ok(None)
      else
        GatherBounds(Tests(view, rows, cols, plate, |rows|), |rows|);
        match Newest(view, rows, cols, found)
        case Raised => Raised
        case Ok(k) => Ok(Some(k))
  }

  /** The scan and the sort, as the three callers run them. */
  method FindLatestUnpaid(view: View, rows: seq<Row>, cols: Columns, plate: string) returns (r: Outcome<Option<nat>>)
    requires |rows| >= 1
    ensures r == LatestUnpaid(view, rows, cols, plate)
  {
    var found := FindUnpaidRows(view, rows, cols, plate);
    if found.Raised? {
      return Raised;
    }
    if found.value == [] {
      return Ok(None);
    }
    GatherBounds(Tests(view, rows, cols, plate, |rows|), |rows|);
    var k := NewestUnpaid(view, rows, cols, found.value);
    if k.Raised? {
      return Raised;
    }
    return Ok(Some(k.value));
  }

  /** The instant in the timestamp cell of a row holding every column. */
  function TimeOf(rows: seq<Row>, cols: Columns, k: nat): Option<nat>
    requires Wide(rows, cols) && 1 <= k < |rows|
  {
    Instant(rows[k][cols.timestamp])
  }

  lemma KeyWide(view: View, rows: seq<Row>, cols: Columns, k: nat)
    requires Wide(rows, cols) && 1 <= k < |rows|
    ensures Key(view, rows, cols, k) == (if TimeOf(rows, cols, k).Some? then Ok(TimeOf(rows, cols, k).value) else Raised)
  {
  }

  /** On rows holding every column: the scan raises exactly when an open unpaid entry
      has a timestamp `strptime` rejects; otherwise it finds nothing exactly when there
      is no open unpaid entry, and else the open unpaid entry with the latest instant,
      the first of them in the file on a tie. */
  lemma LatestUnpaidOnWideRows(view: View, rows: seq<Row>, cols: Columns, plate: string)
    requires Wide(rows, cols) && |rows| >= 1
    ensures LatestUnpaid(view, rows, cols, plate).Raised? <==>
              exists k :: 1 <= k < |rows| && Open(rows, cols, plate, k) && TimeOf(rows, cols, k).None?
    ensures LatestUnpaid(view, rows, cols, plate) == Ok(None) <==>
              forall k :: 1 <= k < |rows| ==> !Open(rows, cols, plate, k)
    ensures LatestUnpaid(view, rows, cols, plate).Ok? && LatestUnpaid(view, rows, cols, plate).value.Some? ==>
              var k := LatestUnpaid(view, rows, cols, plate).value.value;
              1 <= k < |rows| && Open(rows, cols, plate, k) && TimeOf(rows, cols, k).Some?
              && (forall j :: 1 <= j < |rows| && Open(rows, cols, plate, j) ==>
                    TimeOf(rows, cols, j).Some? && TimeOf(rows, cols, j).value <= TimeOf(rows, cols, k).value)
              && (forall j :: 1 <= j < k && Open(rows, cols, plate, j) ==> TimeOf(rows, cols, j).value < TimeOf(rows, cols, k).value)
  {
    UnpaidOnWideRows(view, rows, cols, plate);
    var found := UnpaidRows(view, rows, cols, plate).value;
    forall a | 0 <= a < |found| ensures 1 <= found[a] < |rows| {
      assert found[a] in found;
    }
    forall a | 0 <= a < |found| ensures Key(view, rows, cols, found[a]) == (if TimeOf(rows, cols, found[a]).Some? then Ok(TimeOf(rows, cols, found[a]).value) else Raised) {
      KeyWide(view, rows, cols, found[a]);
    }
    if found == [] {
      assert forall k :: 1 <= k < |rows| ==> !Open(rows, cols, plate, k) by {
        forall k | 1 <= k < |rows| ensures !Open(rows, cols, plate, k) {
          assert k !in found;
        }
      }
    } else {
      NewestOfOpenRows(view, rows, cols, plate, found);
    }
  }

  lemma NewestOfOpenRows(view: View, rows: seq<Row>, cols: Columns, plate: string, found: seq<nat>)
    requires Wide(rows, cols) && found != []
    requires forall k :: k in found <==> 1 <= k < |rows| && Open(rows, cols, plate, k)
    requires forall a, b :: 0 <= a < b < |found| ==> found[a] < found[b]
    requires forall a :: 0 <= a < |found| ==> 1 <= found[a] < |rows|
    requires forall a :: 0 <= a < |found| ==>
               Key(view, rows, cols, found[a]) == (if TimeOf(rows, cols, found[a]).Some? then Ok(TimeOf(rows, cols, found[a]).value) else Raised)
    ensures Newest(view, rows, cols, found).Raised? <==>
              exists k :: 1 <= k < |rows| && Open(rows, cols, plate, k) && TimeOf(rows, cols, k).None?
    ensures Newest(view, rows, cols, found).Ok? ==>
              var k := Newest(view, rows, cols, found).value;
              1 <= k < |rows| && Open(rows, cols, plate, k) && TimeOf(rows, cols, k).Some?
              && (forall j :: 1 <= j < |rows| && Open(rows, cols, plate, j) ==>
                    TimeOf(rows, cols, j).Some? && TimeOf(rows, cols, j).value <= TimeOf(rows, cols, k).value)
              && (forall j :: 1 <= j < k && Open(rows, cols, plate, j) ==> TimeOf(rows, cols, j).value < TimeOf(rows, cols, k).value)
  {
    var r := Newest(view, rows, cols, found);
    if r.Raised? {
      var a :| 0 <= a < |found| && Key(view, rows, cols, found[a]).Raised?;
      assert found[a] in found;
    } else {
      var k := r.value;
      assert k in found;
      forall j | 1 <= j < |rows| && Open(rows, cols, plate, j)
        ensures TimeOf(rows, cols, j).Some? && TimeOf(rows, cols, j).value <= TimeOf(rows, cols, k).value
      {
        assert j in found;
        var a :| 0 <= a < |found| && found[a] == j;
      }
      var b :| 0 <= b < |found| && found[b] == k
               && forall a :: 0 <= a < b ==> Key(view, rows, cols, found[a]).value < Key(view, rows, cols, k).value;
      forall j | 1 <= j < k && Open(rows, cols, plate, j) ensures TimeOf(rows, cols, j).value < TimeOf(rows, cols, k).value {
        assert j in found;
        var a :| 0 <= a < |found| && found[a] == j;
        assert a < b;
      }
    }
  }

  /** The journal file as `csv.reader` rows, and whether the file exists. Its rows
      are read whole, changed in memory and written back. */
  class CsvJournal {
    var present: bool
    var rows: seq<Row>

    constructor (present: bool, rows: seq<Row>)
      ensures this.present == present && this.rows == rows
    {
      this.present := present;
      this.rows := rows;
    }

    /** `csv.writer(f).writerows(rows)` on the file opened for writing. */
    method Rewrite(rows: seq<Row>)
      modifies this`rows
      ensures this.rows == rows
    {
      this.rows := rows;
    }
  }

  /** `rows[k][status] = '1'; rows[k][amount] = text` */
  function MarkRow(rows: seq<Row>, k: nat, status: nat, amount: nat, text: string): (r: seq<Row>)
    requires k < |rows| && status < |rows[k]| && amount < |rows[k]| && status != amount
    ensures |r| == |rows| && |r[k]| == |rows[k]|
    ensures r[k][status] == Paid && r[k][amount] == text
    ensures forall i :: 0 <= i < |rows| && i != k ==> r[i] == rows[i]
    ensures forall c :: 0 <= c < |rows[k]| && c != status && c != amount ==> r[k][c] == rows[k][c]
  {
    rows[k := rows[k][status := Paid][amount := text]]
  }

  /** Two cells of one row change, and nothing else. */
  predicate OnlyTwoCellsDiffer(before: seq<Row>, after: seq<Row>, k: nat, status: nat, amount: nat)
  {
    |after| == |before|
    && (forall i :: 0 <= i < |before| ==> |after[i]| == |before[i]|)
    && forall i, c :: 0 <= i < |before| && 0 <= c < |before[i]| && after[i][c] != before[i][c] ==>
                        i == k && (c == status || c == amount)
  }

  lemma MarkRowTouchesTwoCells(rows: seq<Row>, k: nat, status: nat, amount: nat, text: string)
    requires k < |rows| && status < |rows[k]| && amount < |rows[k]| && status != amount
    ensures OnlyTwoCellsDiffer(rows, MarkRow(rows, k, status, amount, text), k, status, amount)
    ensures k > 0 ==> MarkRow(rows, k, status, amount, text)[0] == rows[0]
  {
  }
}
