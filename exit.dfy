/** The exit lane (car_exit.py): which entry lets a plate leave, the fee at 200 per
    hour, the exit row appended to the journal, the gate sequence, and one step of
    the main loop. */
module ExitLane {
  import opened Text
  import opened Journal
  import opened Gate
  import opened Debounce
  import opened Billing
  import opened Timestamps
  import Plates

  /** An entry of `plate` whose payment status is '1'. */
  predicate PaidEntryOf(r: Record, plate: string)
  {
    r.plate == plate && r.action == EntryAction && r.status == Paid
  }

  /** An exit of `plate` stamped strictly later (as strings compare) than `ts`. */
  predicate ExitAfter(e: Record, plate: string, ts: string)
  {
    e.plate == plate && e.action == ExitAction && StrLess(ts, e.timestamp)
  }

  /** `any(e['Action'] == 'exit' and e['Timestamp'] > ts for e in later if
      e['Plate Number'] == plate)` */
  function AnyLaterExit(later: seq<Record>, plate: string, ts: string): (b: bool)
    ensures b <==> exists j :: 0 <= j < |later| && ExitAfter(later[j], plate, ts)
  {
    if later == [] then false
    else if ExitAfter(later[0], plate, ts) then true
    else
      var b := AnyLaterExit(later[1..], plate, ts);
      assert forall j :: 0 < j < |later| ==> later[j] == later[1..][j - 1];
      b
  }

  /** Row i lets the plate leave: a paid entry with no later exit of the plate
      stamped after it. */
  predicate Qualifies(records: seq<Record>, i: nat, plate: string)
    requires i < |records|
  {
    PaidEntryOf(records[i], plate)
    && forall j :: i < j < |records| ==> !ExitAfter(records[j], plate, records[i].timestamp)
  }

  /** The reversed scan of `check_exit_requirements` over the rows before position k:
      the newest qualifying row, judged against every row after it. */
  function LatestQualifying(records: seq<Record>, k: nat, plate: string): (ix: Option<nat>)
    requires k <= |records|
    ensures ix.Some? ==> ix.value < k && Qualifies(records, ix.value, plate)
                         && forall j :: ix.value < j < k ==> !Qualifies(records, j, plate)
    ensures ix.None? ==> forall j :: 0 <= j < k ==> !Qualifies(records, j, plate)
  {
    if k == 0 then None
    else
      var r := records[k - 1];
      assert forall j :: 0 <= j < |records[k..]| ==> records[k..][j] == records[k + j];
      if PaidEntryOf(r, plate) && !AnyLaterExit(records[k..], plate, r.timestamp) then Some(k - 1)
      else LatestQualifying(records, k - 1, plate)
  }

  /** `check_exit_requirements(plate)`: (True, ts) is `Some(ts)`, (False, None) is
      `None`. The plate may leave exactly when some row qualifies, and `ts` is the
      timestamp of the newest one. */
  function CheckExitRequirements(records: seq<Record>, plate: string): (r: Option<string>)
    ensures r.Some? <==> exists i :: 0 <= i < |records| && Qualifies(records, i, plate)
    ensures r.Some? ==> exists i :: 0 <= i < |records| && Qualifies(records, i, plate)
                                    && r.value == records[i].timestamp
                                    && forall j :: i < j < |records| ==> !Qualifies(records, j, plate)
  {
    match LatestQualifying(records, |records|, plate)
    case None => None
    case Some(i) => Some(records[i].timestamp)
  }

  /** The entry lookup of `process_exit` AS WRITTEN: a row's later rows are taken
      from `records.index(r) + 1`, the first row EQUAL to it, not from its own
      position. Scans the rows before position k from the newest back. */
  function ExitLookupAsWritten(records: seq<Record>, k: nat, plate: string): (e: Option<Record>)
    requires k <= |records|
    ensures e.Some? ==> PaidEntryOf(e.value, plate) && e.value in records[..k]
  {
    if k == 0 then None
    else
      var r := records[k - 1];
      assert r in records;
      assert r in records[..k];
      var first := FirstIndex(records, r);
      if PaidEntryOf(r, plate) && !AnyLaterExit(records[first + 1..], plate, r.timestamp) then Some(r)
      else
        var e := ExitLookupAsWritten(records, k - 1, plate);
        assert records[..k - 1] <= records[..k];
        e
  }

  /** A journal whose newest row repeats an earlier paid entry of the plate, with an
      exit stamped after that entry in between: `check_exit_requirements` lets the
      plate out (nothing follows its newest row), but `process_exit` finds no entry,
      because for that row it looks from the identical first row on and sees the
      exit. The lane then buzzes and keeps the gate shut. */
  lemma {:induction false} ExitLookupMissesDuplicate(e: Record, x: Record, plate: string)
    requires PaidEntryOf(e, plate) && ExitAfter(x, plate, e.timestamp)
    ensures CheckExitRequirements([e, x, e], plate) == Some(e.timestamp)
    ensures ExitLookupAsWritten([e, x, e], 3, plate) == None
  {
    var rs := [e, x, e];
    assert FirstIndex(rs, e) == 0;
    assert rs[1..][0] == x;
    assert AnyLaterExit(rs[1..], plate, e.timestamp);
    assert rs[3..] == [];
    assert LatestQualifying(rs, 3, plate) == Some(2);
    assert rs[2..][0] == e;
    assert ExitLookupAsWritten(rs, 2, plate) == None;
  }

  /** Such a journal exists: one entry at 10:00 and an exit at 11:00 of the same day. */
  lemma ExitLookupMissesDuplicateExample()
    ensures PaidEntryOf(Record("RAB123C", EntryAction, Paid, "2024-01-01 10:00:00", "0"), "RAB123C")
    ensures ExitAfter(Record("RAB123C", ExitAction, Paid, "2024-01-01 11:00:00", "200"), "RAB123C", "2024-01-01 10:00:00")
  {
    assert "2024-01-01 10:00:00" == "2024-01-01 1" + "0:00:00";
    assert "2024-01-01 11:00:00" == "2024-01-01 1" + "1:00:00";
    StrLessSharedPrefix("2024-01-01 1", "0:00:00", "1:00:00");
  }

  /** When no two rows of the journal are identical, the lookup as written is the
      lookup by position. */
  lemma {:induction false} ExitLookupDistinctRows(records: seq<Record>, k: nat, plate: string)
    requires k <= |records|
    requires forall i, j :: 0 <= i < j < |records| ==> records[i] != records[j]
    ensures ExitLookupAsWritten(records, k, plate) == ExitLookup(records, k, plate)
  {
    if k > 0 {
      assert records[k - 1] in records;
      assert FirstIndex(records, records[k - 1]) == k - 1;
      ExitLookupDistinctRows(records, k - 1, plate);
    }
  }

  /** The entry lookup of `process_exit` by position, as intended: the newest row
      passing the test of `check_exit_requirements`. */
  function ExitLookup(records: seq<Record>, k: nat, plate: string): (e: Option<Record>)
    requires k <= |records|
  {
    match LatestQualifying(records, k, plate)
    case None => None
    case Some(i) => Some(records[i])
  }

  /** The corrected lookup finds an entry exactly when `check_exit_requirements`
      lets the plate out, and it is the entry whose timestamp that returns; so the
      lane never buzzes at a plate it has just cleared. */
  lemma ExitLookupAgrees(records: seq<Record>, plate: string)
    ensures ExitLookup(records, |records|, plate).Some? <==> CheckExitRequirements(records, plate).Some?
    ensures ExitLookup(records, |records|, plate).Some? ==>
              PaidEntryOf(ExitLookup(records, |records|, plate).value, plate)
              && ExitLookup(records, |records|, plate).value.timestamp == CheckExitRequirements(records, plate).value
  {
  }

  /** The row `process_exit` appends: the plate, 'exit', '1', the exit time and the fee. */
  function ExitRow(plate: string, timestamp: string, fee: nat): (r: Record)
    ensures r.plate == plate && r.action == ExitAction && r.status == Paid && r.timestamp == timestamp
    ensures ParseFloat(r.amount) == Some(fee as real)
  {
    ParseFloatOfNat(fee);
    Record(plate, ExitAction, Paid, timestamp, NatToString(fee))
  }

  /** The fee for leaving at `exitStamp` after entering at `entryStamp`, when both
      parse. */
  function ExitFee(entryStamp: string, exitStamp: string): (fee: Option<nat>)
    ensures fee.Some? <==> Instant(entryStamp).Some? && Instant(exitStamp).Some?
    ensures fee.Some? ==> fee.value >= ExitRatePerHour
                          && fee.value == Fee(Instant(exitStamp).value - Instant(entryStamp).value, ExitRatePerHour)
  {
    match (Instant(entryStamp), Instant(exitStamp))
    case (Some(t0), Some(t1)) => Some(Fee(t1 - t0, ExitRatePerHour))
    case _ => None
  }

  /** The gate sequence of an exit: open, and when the board confirmed it, close.
      `ok` is what `process_exit` then returns. */
  function ExitGateSequence(port: Port, first: Reply, second: Reply): (r: GateResult)
    ensures r.ok <==> ExitControlGate(port, OpenAction, first).ok
    ensures port.Simulated? ==> r == GateResult("", true)
    ensures port.Attached? ==>
              r.written == (if first.WriteFault? then "" else "OPEN\n")
                           + (if first == Says("OK") && !second.WriteFault? then "CLOSE\n" else "")
  {
    var opening := ExitControlGate(port, OpenAction, first);
    if opening.ok then GateResult(opening.written + ExitControlGate(port, CloseAction, second).written, true)
    else GateResult(opening.written, false)
  }

  /** `process_exit(plate, arduino)` with the lookup by position. `exitStamp` is
      `datetime.now()` formatted; `first` and `second` are what the board does after
      the first and second gate command. Returns what `process_exit` returns and what
      was written to the link. The lookup by position differs from the one written
      in car_exit.py only on a journal with two identical rows
      (`ExitLookupDistinctRows`, `ExitLookupMissesDuplicate`). */
  method ProcessExit(log: LogFile, port: Port, plate: string, exitStamp: string, first: Reply, second: Reply)
    returns (ok: bool, written: string)
    requires Instant(exitStamp).Some?
    modifies log
    ensures ExitLookup(old(log.records), |old(log.records)|, plate).None? ==>
              !ok && log.records == old(log.records) && written == ExitControlGate(port, BuzzerAction, first).written
    ensures ExitLookup(old(log.records), |old(log.records)|, plate).Some? ==>
              var entry := ExitLookup(old(log.records), |old(log.records)|, plate).value;
              match ExitFee(entry.timestamp, exitStamp)
              case None => !ok && log.records == old(log.records) && written == ""
              case Some(fee) =>
                log.records == old(log.records) + [ExitRow(plate, exitStamp, fee)]
                && ok == ExitGateSequence(port, first, second).ok
                && written == ExitGateSequence(port, first, second).written
  {
    var entry := ExitLookup(log.records, |log.records|, plate);
    if entry.None? {
      var buzz := ExitControlGate(port, BuzzerAction, first);
      return false, buzz.written;
    }
    var fee := ExitFee(entry.value.timestamp, exitStamp);
    if fee.None? {
      // strptime raised: the exception is caught and nothing is written
      return false, "";
    }
    log.Append(ExitRow(plate, exitStamp, fee.value));
    var opening := ExitControlGate(port, OpenAction, first);
    written := opening.written;
    ok := false;
    if opening.ok {
      var closing := ExitControlGate(port, CloseAction, second);
      written := written + closing.written;
      ok := true;
    }
  }

  /** Once the exit is logged, no entry stamped before it lets the plate out again. */
  lemma {:induction false} NoSecondExit(records: seq<Record>, plate: string, exitStamp: string, fee: nat)
    requires forall i :: 0 <= i < |records| && records[i].plate == plate ==> StrLess(records[i].timestamp, exitStamp)
    ensures CheckExitRequirements(records + [ExitRow(plate, exitStamp, fee)], plate) == None
  {
    var rs := records + [ExitRow(plate, exitStamp, fee)];
    forall i | 0 <= i < |rs| ensures !Qualifies(rs, i, plate) {
      if i < |records| && PaidEntryOf(rs[i], plate) {
        assert ExitAfter(rs[|records|], plate, rs[i].timestamp);
      }
    }
  }

  /** Rows that are neither paid entries nor exits of the plate, such as the unpaid
      entry the entry lane writes, change nothing for it: an unpaid car cannot leave. */
  lemma {:induction false} NonExitRowIgnored(records: seq<Record>, r: Record, plate: string)
    requires !PaidEntryOf(r, plate) && !(r.plate == plate && r.action == ExitAction)
    ensures CheckExitRequirements(records + [r], plate) == CheckExitRequirements(records, plate)
  {
    var rs := records + [r];
    forall i | 0 <= i < |records| ensures Qualifies(rs, i, plate) <==> Qualifies(records, i, plate) {
      assert rs[i] == records[i];
      assert !ExitAfter(rs[|records|], plate, records[i].timestamp);
      assert forall j :: i < j < |records| ==> rs[j] == records[j];
    }
    ExitScanPrefix(records, rs, plate, |records|);
  }

  /** When rows below k qualify in `rs` exactly as in `records`, and nothing from k on
      qualifies in `rs`, the scans agree. */
  lemma {:induction false} ExitScanPrefix(records: seq<Record>, rs: seq<Record>, plate: string, k: nat)
    requires k == |records| <= |rs|
    requires forall i :: 0 <= i < k ==> rs[i] == records[i] && (Qualifies(rs, i, plate) <==> Qualifies(records, i, plate))
    requires forall i :: k <= i < |rs| ==> !Qualifies(rs, i, plate)
    ensures CheckExitRequirements(rs, plate) == CheckExitRequirements(records, plate)
  {
    var a := LatestQualifying(rs, |rs|, plate);
    var b := LatestQualifying(records, |records|, plate);
    if a.Some? {
      assert a.value < k;
      assert Qualifies(records, a.value, plate);
    }
    if b.Some? {
      assert Qualifies(rs, b.value, plate);
    }
  }

  /** What one reading led to at the exit. */
  datatype ExitOutcome =
    | Waiting                                   // no plate taken yet
    | Turned(plate: string, written: string)    // no paid entry: buzzer
    | Released(plate: string, written: string)  // `process_exit` returned True
    | Held(plate: string, written: string)      // `process_exit` returned False

  /** One pass of the exit lane's main loop for one OCR text. `now` is `time.time()`,
      `exitStamp` the formatted `datetime.now()`. */
  method ExitStep(deb: PlateDebouncer, log: LogFile, port: Port, text: string, now: real,
                  exitStamp: string, first: Reply, second: Reply) returns (out: ExitOutcome)
    requires deb.Valid() && Instant(exitStamp).Some?
    modifies deb, log
    ensures deb.Valid()
    ensures Plates.ValidatePlate(text).None? ==>
              out == Waiting && deb.buffer == old(deb.buffer) && log.records == old(log.records)
    ensures out.Waiting? ==> log.records == old(log.records)
                             && deb.lastPlate == old(deb.lastPlate) && deb.lastTime == old(deb.lastTime)
    ensures Plates.ValidatePlate(text).Some? && out.Waiting? ==>
              deb.buffer == old(deb.buffer) + [Plates.ValidatePlate(text).value]
              && !Fires(old(deb.buffer) + [Plates.ValidatePlate(text).value], old(deb.lastPlate), old(deb.lastTime), now)
    ensures !out.Waiting? ==>
              Plates.ValidatePlate(text).Some?
              && Fires(old(deb.buffer) + [Plates.ValidatePlate(text).value], old(deb.lastPlate), old(deb.lastTime), now)
              && out.plate == MostCommon(old(deb.buffer) + [Plates.ValidatePlate(text).value]).0
              && deb.buffer == []
    ensures out.Turned? <==> !out.Waiting? && CheckExitRequirements(old(log.records), out.plate).None?
    ensures out.Turned? ==> log.records == old(log.records)
                            && out.written == ExitControlGate(port, BuzzerAction, first).written
    ensures out.Released? ==> deb.lastPlate == Some(out.plate) && deb.lastTime == now
    ensures out.Released? || out.Held? ==>
              CheckExitRequirements(old(log.records), out.plate).Some?
              && match ExitFee(CheckExitRequirements(old(log.records), out.plate).value, exitStamp)
                 case None => out.Held? && log.records == old(log.records) && out.written == ""
                 case Some(fee) =>
                   log.records == old(log.records) + [ExitRow(out.plate, exitStamp, fee)]
                   && (out.Released? <==> ExitGateSequence(port, first, second).ok)
                   && out.written == ExitGateSequence(port, first, second).written
    ensures !out.Released? ==> deb.lastPlate == old(deb.lastPlate) && deb.lastTime == old(deb.lastTime)
  {
    var plate := Plates.ValidatePlate(text);
    if plate.None? {
      return Waiting;
    }
    var taken := deb.Observe(plate.value, now);
    if taken.None? {
      return Waiting;
    }
    var p := taken.value;
    if CheckExitRequirements(log.records, p).Some? {
      ExitLookupAgrees(log.records, p);
      var ok, written := ProcessExit(log, port, p, exitStamp, first, second);
      if ok {
        deb.Acted(p, now);
        out := Released(p, written);
      } else {
        out := Held(p, written);
      }
    } else {
      var buzz := ExitControlGate(port, BuzzerAction, first);
      out := Turned(p, buzz.written);
    }
  }
}
