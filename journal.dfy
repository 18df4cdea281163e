/** The flat-file journal `plates_log.csv`: a header row
    `Plate Number, Action, Payment Status, Timestamp, Amount Due` followed by one row
    per event. The camera lanes and `find_unpaid_entry` read it with
    `csv.DictReader`, so they see a sequence of five-field records; this module gives
    that view, the header check, and the amounts stored in the last column. */
module Journal {
  import opened Text

  const PlateHeader: string := "Plate Number"
  const ActionHeader: string := "Action"
  const StatusHeader: string := "Payment Status"
  const TimestampHeader: string := "Timestamp"
  const AmountHeader: string := "Amount Due"

  /** `EXPECTED_HEADERS`, and the header row the entry lane writes when it creates the file. */
  const ExpectedHeaders: seq<string> := [PlateHeader, ActionHeader, StatusHeader, TimestampHeader, AmountHeader]

  const EntryAction: string := "entry"
  const ExitAction: string := "exit"
  const Unpaid: string := "0"
  const Paid: string := "1"

  /** One journal row as `csv.DictReader` presents it. */
  datatype Record = Record(plate: string, action: string, status: string, timestamp: string, amount: string)

  /** The row `csv.writer` writes for a record. */
  function RowOf(r: Record): seq<string>
  {
    [r.plate, r.action, r.status, r.timestamp, r.amount]
  }

  /** `validate_csv_headers(header_row)` (process_payment.py and payment_success.py
      define it identically): the row is non-empty and holds every expected name. */
  function ValidateCsvHeaders(header: seq<string>): (ok: bool)
    ensures ok <==> forall name :: name in ExpectedHeaders ==> name in header
  {
    assert ExpectedHeaders[0] in ExpectedHeaders;
    header != [] && forall i :: 0 <= i < |ExpectedHeaders| ==> ExpectedHeaders[i] in header
  }

  /** The check looks at names only: their order and any extra columns do not matter. */
  lemma HeaderOrderIrrelevant(header: seq<string>, extra: seq<string>)
    requires multiset(header) == multiset(ExpectedHeaders)
    ensures ValidateCsvHeaders(header + extra)
    ensures forall k :: 0 <= k < |ExpectedHeaders| ==> !ValidateCsvHeaders(RemoveAll(ExpectedHeaders, ExpectedHeaders[k]))
  {
    forall name | name in ExpectedHeaders ensures name in header + extra {
      assert name in multiset(header);
    }
    forall k | 0 <= k < |ExpectedHeaders|
      ensures !ValidateCsvHeaders(RemoveAll(ExpectedHeaders, ExpectedHeaders[k]))
    {
      RemoveAllSpec(ExpectedHeaders, ExpectedHeaders[k]);
    }
  }

  function RemoveAll(s: seq<string>, x: string): seq<string>
  {
    if s == [] then [] else (if s[0] == x then [] else [s[0]]) + RemoveAll(s[1..], x)
  }

  lemma {:induction false} RemoveAllSpec(s: seq<string>, x: string)
    ensures x !in RemoveAll(s, x)
  {
    if s != [] { RemoveAllSpec(s[1..], x); }
  }

  /** A Python number: the amounts handled are either ints (computed fees) or floats
      (parsed from the journal or from a card). */
  datatype Money = Int(i: int) | Float(x: real)
  {
    function Value(): real
    {
      match this
      case Int(i) => i as real
      case Float(x) => x
    }
  }

  function Pow10(n: nat): (p: nat)
    ensures p >= 1
  {
    if n == 0 then 1 else 10 * Pow10(n - 1)
  }

  predicate AllDigits(s: string)
  {
    forall k :: 0 <= k < |s| ==> IsDigit(s[k])
  }

  /** The unsigned decimal `int[.frac]` with at least one digit, or None. */
  function UnsignedDecimal(s: string): Option<real>
  {
    match Find(s, ".")
    case None => if s != [] && AllDigits(s) then Some(DigitsValue(s) as real) else None
    case Some(i) =>
      var whole := s[..i];
      var frac := s[i + 1..];
      if AllDigits(whole) && AllDigits(frac) && (whole != [] || frac != []) then
        Some(DigitsValue(whole) as real + DigitsValue(frac) as real / Pow10(|frac|) as real)
      else None
  }

  /** `float(s)` for plain decimal text, white space around it allowed; None where
      Python raises ValueError. */
  function ParseFloat(s: string): (r: Option<real>)
  {
    var t := Strip(s);
    if t != [] && t[0] == '-' then
      match UnsignedDecimal(t[1..]) case None => None case Some(v) => Some(-v)
    else if t != [] && t[0] == '+' then UnsignedDecimal(t[1..])
    else UnsignedDecimal(t)
  }

  /** `float()` reads back every whole number `str(int)` writes. */
  lemma ParseFloatOfNat(n: nat)
    ensures ParseFloat(NatToString(n)) == Some(n as real)
  {
    var s := NatToString(n);
    assert !IsSpace(s[0]) && !IsSpace(s[|s| - 1]);
    TrimUnchanged(s);
    assert Find(s, ".") == None by {
      forall k | 0 <= k < |s| ensures !OccursAt(s, ".", k) {
        assert s[k..k + 1][0] == s[k];
      }
    }
  }

  /** The journal file as the lanes see it. It exists from start-up on: the entry
      lane creates it with its header row when it is missing. */
  class LogFile {
    var records: seq<Record>

    constructor (records: seq<Record>)
      ensures this.records == records
    {
      this.records := records;
    }

    /** `csv.writer(f).writerow(row)` on the file opened for appending. */
    method Append(r: Record)
      modifies this
      ensures records == old(records) + [r]
    {
      records := records + [r];
    }
  }
}
