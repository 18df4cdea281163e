/** The entry lane (car_entry.py): the admission decision read from the journal,
    the row `log_action` appends, the gate sequence it drives, and one step of the
    main loop from an OCR reading to the action taken. */
module EntryLane {
  import opened Text
  import opened Journal
  import opened Gate
  import opened Debounce
  import Plates

  /** What `check_plate_status` returns: None, 'entry' or 'exit'. */
  datatype PlateStatus = NoStatus | Entered | Exited

  /** A row that decides the status of `plate`: an unpaid entry or an exit of it.
      A paid entry, or any other action, is passed over. */
  predicate Decides(r: Record, plate: string)
  {
    r.plate == plate && ((r.action == EntryAction && r.status == Unpaid) || r.action == ExitAction)
  }

  /** `check_plate_status(plate)`: the rows are scanned from the newest back and the
      first deciding row gives the answer. */
  function CheckPlateStatus(records: seq<Record>, plate: string): (s: PlateStatus)
    ensures s == NoStatus <==> forall i :: 0 <= i < |records| ==> !Decides(records[i], plate)
    ensures s != NoStatus ==>
              exists i :: 0 <= i < |records| && Decides(records[i], plate)
                          && (forall j :: i < j < |records| ==> !Decides(records[j], plate))
                          && (s == Entered <==> records[i].action == EntryAction)
  {
    if records == [] then NoStatus
    else
      var last := records[|records| - 1];
      var older := records[..|records| - 1];
      if last.plate == plate && last.action == EntryAction && last.status == Unpaid then Entered
      else if last.plate == plate && last.action == ExitAction then Exited
      else
        var s := CheckPlateStatus(older, plate);
        assert forall i :: 0 <= i < |older| ==> older[i] == records[i];
        assert s != NoStatus ==>
                 exists i :: 0 <= i < |records| && Decides(records[i], plate)
                             && (forall j :: i < j < |records| ==> !Decides(records[j], plate))
                             && (s == Entered <==> records[i].action == EntryAction) by {
          if s != NoStatus {
            var i :| 0 <= i < |older| && Decides(older[i], plate)
                     && (forall j :: i < j < |older| ==> !Decides(older[j], plate))
                     && (s == Entered <==> older[i].action == EntryAction);
            assert records[i] == older[i];
            forall j | i < j < |records| ensures !Decides(records[j], plate) {
              if j < |older| {
                assert records[j] == older[j];
              }
            }
          }
        }
        s
  }

  /** The lane admits a plate exactly when its status is None or 'exit'. */
  predicate Admits(s: PlateStatus)
  {
    s == NoStatus || s == Exited
  }

  /** The row `log_action` writes: payment status '0' for an entry and '1' for
      anything else, amount '0'. */
  function LogRow(plate: string, action: string, timestamp: string): (r: Record)
    ensures r.plate == plate && r.action == action && r.timestamp == timestamp && r.amount == "0"
    ensures r.status == Unpaid <==> action == EntryAction
    ensures r.status == Paid <==> action != EntryAction
  {
    Record(plate, action, if action == EntryAction then Unpaid else Paid, timestamp, "0")
  }

  /** Once a plate has been admitted its status is 'entry', so the same plate is
      refused until an exit is logged. */
  lemma AdmittedThenEntered(records: seq<Record>, plate: string, timestamp: string)
    ensures CheckPlateStatus(records + [LogRow(plate, EntryAction, timestamp)], plate) == Entered
    ensures !Admits(CheckPlateStatus(records + [LogRow(plate, EntryAction, timestamp)], plate))
  {
  }

  /** An exit row for the plate makes its status 'exit', whatever came before. */
  lemma ExitRowReopens(records: seq<Record>, r: Record)
    requires r.action == ExitAction
    ensures CheckPlateStatus(records + [r], r.plate) == Exited
    ensures Admits(CheckPlateStatus(records + [r], r.plate))
  {
  }

  /** A row that does not decide for the plate (another plate, a paid entry) leaves
      the plate's status as it was. */
  lemma {:induction false} NonDecidingRowIgnored(records: seq<Record>, r: Record, plate: string)
    requires !Decides(r, plate)
    ensures CheckPlateStatus(records + [r], plate) == CheckPlateStatus(records, plate)
  {
    assert (records + [r])[..|records|] == records;
  }

  /** A paid entry is skipped: a plate whose newest row is a paid entry is judged by
      the rows before it, so an older unpaid entry of the same plate still refuses it. */
  lemma PaidEntrySkipped(records: seq<Record>, plate: string, timestamp: string, amount: string)
    ensures CheckPlateStatus(records + [LogRow(plate, EntryAction, timestamp)] + [Record(plate, EntryAction, Paid, timestamp, amount)], plate) == Entered
  {
    var rs := records + [LogRow(plate, EntryAction, timestamp)];
    NonDecidingRowIgnored(rs, Record(plate, EntryAction, Paid, timestamp, amount), plate);
  }

  /** The gate sequence of an entry: open, and when that succeeded, close. `first`
      and `second` are what the board does after each command. Returns what was
      written to the link: an OPEN whose answer could not be read is never followed
      by a CLOSE. */
  function EntryGateSequence(port: Port, first: Reply, second: Reply): (written: string)
    ensures port.Simulated? ==> written == ""
    ensures port.Attached? && first.WriteFault? ==> written == ""
    ensures port.Attached? && first.ReadFault? ==> written == "OPEN\n"
    ensures port.Attached? && !first.Raises() && second.WriteFault? ==> written == "OPEN\n"
    ensures port.Attached? && !first.Raises() && !second.WriteFault? ==> written == "OPEN\n" + "CLOSE\n"
  {
    var opening := EntryControlGate(port, OpenAction, first);
    if opening.ok then opening.written + EntryControlGate(port, CloseAction, second).written
    else opening.written
  }

  /** `log_action(plate, action, arduino)`: appends exactly one row and, for an
      entry, runs the gate sequence. `timestamp` is the formatted clock reading. */
  method LogAction(log: LogFile, port: Port, plate: string, action: string, timestamp: string,
                   first: Reply, second: Reply) returns (written: string)
    modifies log
    ensures log.records == old(log.records) + [LogRow(plate, action, timestamp)]
    ensures written == (if action == EntryAction then EntryGateSequence(port, first, second) else "")
  {
    log.Append(LogRow(plate, action, timestamp));
    written := "";
    if action == EntryAction {
      var opening := EntryControlGate(port, OpenAction, first);
      written := opening.written;
      if opening.ok {
        var closed := EntryControlGate(port, CloseAction, second);
        written := written + closed.written;
      }
    }
  }

  /** What one reading led to. */
  datatype EntryOutcome =
    | Waiting                                  // no plate taken yet
    | Admitted(plate: string, written: string) // an entry row was logged
    | Refused(plate: string, written: string)  // the plate has an unclosed entry: buzzer

  /** One pass of the main loop for one OCR text: validate, debounce, decide, act.
      `now` is `time.time()`, `timestamp` the formatted `datetime.now()`, `first`
      and `second` what the board does after the first and second gate command. */
  method EntryStep(deb: PlateDebouncer, log: LogFile, port: Port, text: string, now: real,
                   timestamp: string, first: Reply, second: Reply) returns (out: EntryOutcome)
    requires deb.Valid()
    modifies deb, log
    ensures deb.Valid()
    ensures Plates.ValidatePlate(text).None? ==>
              out == Waiting && deb.buffer == old(deb.buffer) && log.records == old(log.records)
    ensures out.Waiting? ==> log.records == old(log.records)
                             && deb.lastPlate == old(deb.lastPlate) && deb.lastTime == old(deb.lastTime)
    ensures Plates.ValidatePlate(text).Some? && out.Waiting? ==>
              deb.buffer == old(deb.buffer) + [Plates.ValidatePlate(text).value]
              && !Fires(old(deb.buffer) + [Plates.ValidatePlate(text).value], old(deb.lastPlate), old(deb.lastTime), now)
    ensures !out.Waiting? ==>
              Plates.ValidatePlate(text).Some?
              && Fires(old(deb.buffer) + [Plates.ValidatePlate(text).value], old(deb.lastPlate), old(deb.lastTime), now)
              && out.plate == MostCommon(old(deb.buffer) + [Plates.ValidatePlate(text).value]).0
              && deb.buffer == []
    ensures out.Admitted? <==> !out.Waiting? && Admits(CheckPlateStatus(old(log.records), out.plate))
    ensures out.Admitted? ==>
              log.records == old(log.records) + [LogRow(out.plate, EntryAction, timestamp)]
              && out.written == EntryGateSequence(port, first, second)
              && deb.lastPlate == Some(out.plate) && deb.lastTime == now
    ensures out.Refused? ==>
              log.records == old(log.records)
              && out.written == EntryControlGate(port, BuzzerAction, first).written
              && deb.lastPlate == old(deb.lastPlate) && deb.lastTime == old(deb.lastTime)
  {
    var plate := Plates.ValidatePlate(text);
    if plate.None? {
      return Waiting;
    }
    var taken := deb.Observe(plate.value, now);
    if taken.None? {
      return Waiting;
    }
    out := Decide(log, port, taken.value, timestamp, first, second);
    if out.Admitted? {
      deb.Acted(out.plate, now);
    }
  }

  /** What the main loop does with a plate the debouncer has taken: admit it (one
      entry row and the gate sequence) when its status is None or 'exit', and sound
      the buzzer otherwise. */
  method Decide(log: LogFile, port: Port, p: string, timestamp: string, first: Reply, second: Reply)
    returns (out: EntryOutcome)
    modifies log
    ensures !out.Waiting? && out.plate == p
    ensures out.Admitted? <==> Admits(CheckPlateStatus(old(log.records), p))
    ensures out.Admitted? ==>
              log.records == old(log.records) + [LogRow(p, EntryAction, timestamp)]
              && out.written == EntryGateSequence(port, first, second)
    ensures out.Refused? ==>
              log.records == old(log.records) && out.written == EntryControlGate(port, BuzzerAction, first).written
  {
    var status := CheckPlateStatus(log.records, p);
    if status == NoStatus || status == Exited {
      var written := LogAction(log, port, p, EntryAction, timestamp, first, second);
      out := Admitted(p, written);
    } else {
      var buzz := EntryControlGate(port, BuzzerAction, first);
      out := Refused(p, buzz.written);
    }
  }
}
