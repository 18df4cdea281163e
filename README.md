# Parking lot: plate decisions and payment ledger

A model of the decision logic of a small parking system. Two camera lanes read
number plates:

- The entry lane (`car_entry.py`) admits a plate unless it has an open unpaid
  entry.
- The exit lane (`car_exit.py`) lets a plate out only after a paid entry, and
  bills 200 per whole hour of the stay, with a minimum of one hour.

A card-reader daemon (`process_payment.py`) reads `PLATE:…;BAL:…` messages,
looks up the amount due at 500 per hour and marks the entry as paid. A one-shot
script (`payment_success.py`) does the same for a given payment.

All of them share the flat-file journal `plates_log.csv`. Its header is
`Plate Number, Action, Payment Status, Timestamp, Amount Due`, followed by one
row per event.

The modules follow the program:

- `Text`: the string operations the scripts use, such as `strip`, `upper`,
  `find`, `split`, `str(int)` and string comparison.
- `Plates`: `validate_plate` and `is_valid_plate`.
- `Journal`: the CSV header check, `float()` on amounts, and the journal as the
  lanes see it with `csv.DictReader`.
- `Timestamps`: `strptime` on the fixed timestamp format.
- `Billing`: the fee formula.
- `Gate`: the two `control_gate` versions.
- `Debounce`: the plate buffer in both lanes' main loops.
- `EntryLane` and `ExitLane`: the two lanes.
- `Rows`: the journal as raw CSV rows. It holds the unpaid-entry scan that
  `find_unpaid_entry`, `mark_entry_as_paid` and `get_unpaid_entry` all run, and
  the two-cell update.
- `Payment`: the card-reader daemon.
- `PaymentSuccess`: the one-shot script.

Imperative parts are methods proved against specification functions:

- Scans that build lists in loops: `Rows.FindUnpaidRows`, `Rows.SortKeys`,
  `Rows.FirstMaxLoop`.
- Objects updated in place: `Debounce.PlateDebouncer`, `Journal.LogFile`,
  `Rows.CsvJournal`.
- Main-loop bodies: `EntryLane.EntryStep`, `ExitLane.ExitStep`,
  `Payment.HandleLine`.

How the code is modelled:

- Exceptions that the Python expressions raise are modelled where they change
  the outcome. Examples are a short row, a `None` cell, a bad timestamp and a
  bad number. `Rows.Outcome.Raised` stands for an exception that escapes.
- Clock readings, serial replies and database answers are parameters.

Behaviours of the code a reader might not expect, all modelled as the code has
them:

- Fees truncate the hours (`int(hours)`) instead of rounding up.
- The entry lane skips paid entries when deciding, so a plate whose last entry
  was paid and has not exited is admitted again.
- The exit lane does not log an unauthorised exit. It sounds the buzzer once.
- `parse_data` takes the plate from between the first and second `:` of the
  first field (`split(':')[1]`).

## Model

| member | source | states |
|---|---|---|
| Plates.ValidatePlate | car_entry.py:117-150 | the result is None or the seven characters at the first "RA", exactly when they are "RA" plus five of A-Z/0-9 with at least two digits among the five |
| Plates.ValidatePlateIdempotent | car_exit.py:120-140 | validating a plate the check returned gives the same plate back |
| Plates.ConfirmedPlateAccepted | car_entry.py:117-150 | every confirmed plate passes the check unchanged |
| Plates.OnlyFirstPrefixTried | car_entry.py:123-127 | when the text at the first "RA" fails, a later "RA" that would pass does not rescue the text |
| Plates.ConfirmedIsValid | process_payment.py:22-24 | every plate the lanes accept passes `is_valid_plate`, while "RAABCDE" passes only `is_valid_plate` (no digit count) |
| Plates.ValidPlateNormalised | process_payment.py:48 | a plate of the payment shape is unchanged by `.strip().upper()` |
| Journal.ValidateCsvHeaders | process_payment.py:70-72 | true exactly when every one of the five expected names is in the header row |
| Journal.HeaderOrderIrrelevant | payment_success.py:14-16 | the header check ignores order and extra columns, and fails when any one expected name is missing |
| Journal.ParseFloatOfNat | process_payment.py:53 | `float()` reads back the text `str()` writes for a whole number |
| Journal.LogFile.Append | car_entry.py:209-211 | exactly one row is appended and the earlier rows stay |
| Text.StripIdempotent | process_payment.py:48 | stripping twice is stripping once |
| Text.StripPiece | process_payment.py:48 | `strip()` returns a contiguous piece of the text, with only white space cut from either end |
| Text.Find | car_entry.py:123 | `str.find`: the first position where the pattern occurs, or none when it occurs nowhere |
| Text.Split | process_payment.py:42 | `str.split(sep)` gives at least one piece, and more than one exactly when the text contains sep; the first piece is the text before the first sep |
| Text.JoinSplit | process_payment.py:42 | joining the pieces of `split(sep)` with `sep` gives back the text |
| Text.SplitPiecesFree | process_payment.py:42 | no piece of `split(sep)` contains the separator |
| Text.StrLessSpec | process_payment.py:123 | Python string `<` is a strict order: irreflexive, and the first differing character or a proper prefix decides |
| Text.StrLessTransitive | car_exit.py:162 | string `<` is transitive |
| Text.NatToString | car_exit.py:247 | `str(n)` is a non-empty run of digits, without a leading zero, whose value is n |
| Billing.Fee | car_exit.py:234-235 | the fee is never below one hour's rate |
| Billing.FeeWholeHours | car_exit.py:234-235 | stays under two hours (a negative duration included) cost one hour; k full hours cost k times the rate |
| Billing.FeeMonotonic | process_payment.py:141-142 | a longer stay never costs less |
| Billing.FeeIgnoresMicroseconds | payment_success.py:21-22 | the fraction of a second of `datetime.now()` never changes the hours billed |
| Gate.Token | car_exit.py:184-188 | open, close and buzzer each have a command, and no other action has one |
| Gate.EntryControlGate | car_entry.py:173-197 | without a board: nothing is written and the result is True. With one: the result is True unless a serial call raises, and the token is on the link unless the write itself raised (a flush, read or decode that raises afterwards still leaves it sent) |
| Gate.ExitControlGate | car_exit.py:177-203 | without a board: True. An unknown action: False, nothing written. Otherwise the result is True exactly when the waiting answer is "OK", and the token is on the link unless the write itself raised (an `in_waiting`, read or decode that raises afterwards still leaves it sent) |
| Gate.EntryExitGateDiffer | car_exit.py:195-200 | a silent board counts as success at the entry lane and as failure at the exit lane |
| Debounce.MostCommon | car_entry.py:272 | the plate read most often and its count; on a tie, the plate read first |
| Debounce.PlateDebouncer.Observe | car_entry.py:269-290 | a plate is taken exactly when the buffer holds at least three readings, the most common has three votes and the cooldown allows it; the buffer empties exactly then, and otherwise keeps the new reading |
| Debounce.PlateDebouncer.Acted | car_entry.py:284-285 | the last plate and time become the plate acted on and the clock reading |
| Debounce.FiresNeedsThreeReadings | car_exit.py:326-332 | a plate is taken only after three votes and never within five seconds of acting on the same plate |
| Debounce.ThreeReadings | car_entry.py:271-275 | from an empty buffer, the third identical reading fires (cooldown permitting) and the first two never do |
| EntryLane.CheckPlateStatus | car_entry.py:152-171 | None when no row is an unpaid entry or an exit of the plate. Otherwise the newest such row decides: 'entry' for an unpaid entry, 'exit' for an exit |
| EntryLane.LogRow | car_entry.py:201-211 | the appended row is the plate, the action, '0' for an entry and '1' otherwise, the timestamp and '0' |
| EntryLane.AdmittedThenEntered | car_entry.py:281-285 | once admitted, a plate's status is 'entry', so it is refused until an exit is logged |
| EntryLane.ExitRowReopens | car_entry.py:166-167 | an exit row makes the plate's status 'exit', whatever came before |
| EntryLane.NonDecidingRowIgnored | car_entry.py:162-167 | a row of another plate, or a paid entry, leaves the status unchanged |
| EntryLane.PaidEntrySkipped | car_entry.py:164 | a paid entry does not hide an older unpaid entry of the plate |
| EntryLane.EntryGateSequence | car_entry.py:217-221 | open is sent first, and close only when open succeeded; an open whose answer could not be read is on the link with no close after it |
| EntryLane.LogAction | car_entry.py:199-221 | exactly one row is appended, and the gate sequence runs only for an entry |
| EntryLane.Decide | car_entry.py:278-290 | a taken plate is admitted (one entry row, the gate sequence) exactly when its status is None or 'exit'; otherwise the buzzer sounds and no row is added |
| EntryLane.EntryStep | car_entry.py:265-290 | an invalid reading changes nothing. A taken plate is admitted (row appended, gate sequence, last plate and time set) exactly when its status is None or 'exit'. Otherwise the buzzer sounds and no row is added |
| ExitLane.AnyLaterExit | car_exit.py:161-165 | true exactly when a later row is an exit of the plate stamped after the entry |
| ExitLane.LatestQualifying | car_exit.py:155-169 | the newest paid entry with no later exit stamped after it, among the first k rows |
| ExitLane.CheckExitRequirements | car_exit.py:143-175 | (True, ts) exactly when some paid entry of the plate has no later exit stamped after it; ts is the timestamp of the newest such entry |
| Text.FirstIndex | car_exit.py:221 | `records.index(r)` is the first position holding r: no earlier position holds it |
| ExitLane.ExitLookupAsWritten | car_exit.py:214-224 | the lookup as written returns only a paid entry of the plate found in the journal |
| ExitLane.ExitLookupMissesDuplicate | car_exit.py:214-224 | when the newest row repeats an earlier paid entry with an exit in between, `check_exit_requirements` clears the plate but the lookup as written finds nothing |
| ExitLane.ExitLookupMissesDuplicateExample | car_exit.py:214-224 | such a journal exists: an entry stamped 10:00 and an exit stamped 11:00 |
| ExitLane.ExitLookupDistinctRows | car_exit.py:214-224 | without identical rows, the lookup as written equals the lookup by position |
| ExitLane.ExitLookupAgrees | car_exit.py:214-224 | the lookup by position finds an entry exactly when the plate is cleared, and it is the entry whose timestamp `check_exit_requirements` returns |
| ExitLane.ExitRow | car_exit.py:242-248 | the row is the plate, 'exit', '1', the exit time and the fee, which `float()` reads back |
| ExitLane.ExitFee | car_exit.py:232-235 | the fee exists exactly when both times parse; it is `max(1, int(hours)) * 200`, and never below 200 |
| ExitLane.ExitGateSequence | car_exit.py:250-256 | the result is True exactly when open succeeded; open is on the link unless its write raised, and close is sent only after an "OK" |
| ExitLane.ProcessExit | car_exit.py:205-259 | with the entry found by position: no entry: buzzer, nothing appended, False. A bad timestamp: nothing appended, False. Otherwise exactly one exit row with the fee is appended, and the result is that of the gate sequence |
| ExitLane.NoSecondExit | car_exit.py:240-248 | once the exit is logged, no earlier entry lets the plate out again |
| ExitLane.NonExitRowIgnored | car_exit.py:156-165 | rows that are neither paid entries nor exits of the plate, such as unpaid entries, change nothing |
| ExitLane.ExitStep | car_exit.py:316-344 | with the entry found by position: a taken plate without a qualifying entry gets the buzzer and no row. Otherwise a bad entry timestamp holds the car with no row; else exactly one exit row is appended, with the fee from the timestamp `check_exit_requirements` returned, and the car is released exactly when the gate sequence succeeded. The last plate and time change only on release |
| Rows.CellAt | payment_success.py:75 | a cell present in the row reads as its text; a missing one raises by position and reads as None by name |
| Rows.Position | process_payment.py:178-182 | `header.index(name)`: the first position holding the name; None (ValueError) exactly when the name is absent |
| Rows.LastPosition | process_payment.py:105 | with repeated field names, `DictReader` reads the last such column |
| Rows.HeaderColumns | payment_success.py:64-71 | the five positions exist exactly when the header check passes, and each holds its name |
| Rows.AndThen | process_payment.py:114-116 | `and` skips the right operand after False, so an exception there is never raised |
| Rows.FindUnpaidRows | payment_success.py:73-88 | the nested loops yield the unpaid-entry list of the specification, or Raised when a test raises |
| Rows.SelectRow | payment_success.py:79-88 | the inner loop's verdict on one row, with the `break` at the first closing exit |
| Rows.RaisedStays | process_payment.py:190-204 | once a row's test raises, the scan result is Raised whatever follows |
| Rows.GatherAllOk | payment_success.py:73-88 | a scan whose tests never raise lists, in file order, exactly the rows whose test is true |
| Rows.UnpaidOnWideRows | payment_success.py:73-88 | when every row holds the five columns, the scan lists, in order, exactly the open unpaid entries (unpaid entry of the plate, no later exit stamped after it) |
| Rows.BlankRowRaises | process_payment.py:189-190 | a blank row in the `csv.reader` rows makes the scan raise |
| Rows.FirstMax | payment_success.py:91-95 | the position of the largest key, the first of them on a tie (stable sort, newest first) |
| Rows.AllOkSpec | payment_success.py:91-94 | the key loop raises exactly when one key does, and otherwise lists them all |
| Rows.Newest | process_payment.py:210-217 | the chosen row's key is the greatest, and strictly greater than every key before it among the rows found; Raised exactly when some key fails to parse |
| Rows.SortKeys | process_payment.py:211-214 | the loop computes the keys of the specification |
| Rows.FirstMaxLoop | process_payment.py:211-217 | the loop finds the first position of the greatest key |
| Rows.NewestUnpaid | process_payment.py:210-217 | the method picks the row the specification picks |
| Rows.LatestUnpaid | process_payment.py:187-217 | the row chosen lies after the header, and its timestamp parses |
| Rows.FindLatestUnpaid | payment_success.py:73-95 | the scan and sort as the three callers run them compute the specification |
| Rows.LatestUnpaidOnWideRows | payment_success.py:73-98 | on rows holding the five columns: Raised exactly when an open unpaid entry has a bad timestamp; nothing exactly when there is no open unpaid entry; otherwise the open unpaid entry with the latest instant, the first on a tie |
| Rows.CsvJournal.Rewrite | process_payment.py:221-224 | the file's rows become the rows written |
| Rows.MarkRow | process_payment.py:218-219 | the payment status becomes '1' and the amount the text given, and every other cell and row stays |
| Rows.MarkRowTouchesTwoCells | payment_success.py:140-141 | only two cells of one row change, and the header stays when the row is not the header |
| Payment.ParseData | process_payment.py:34-68 | a parsed message starts with "PLATE:", holds ";" and "BAL:" or "BALANCE:", and gives a plate passing `is_valid_plate` and a balance that is not negative |
| Payment.ParseDataReads | process_payment.py:34-65 | any `PLATE:<s>;BAL:<t>` or `PLATE:<s>;BALANCE:<t>` is read as the stripped, upper-cased `s` and the number `t`, when `s` holds no ':' or ';', `t` holds no ';' and no further tag, the plate is valid and the number not negative |
| Payment.ParseDataRoundTrip | process_payment.py:34-65 | the message `PLATE:<plate>;BAL:<n>` reads back as that plate and balance |
| Payment.ParseDataExample | process_payment.py:34-65 | `PLATE: rab123c ;BALANCE:12.5` is read as ("RAB123C", 12.5) |
| Payment.DictRows | process_payment.py:105-110 | `csv.DictReader` keeps the header line and skips blank lines after it |
| Payment.NonBlankConcat | process_payment.py:105-110 | skipping blank lines works line by line: what is kept of two runs of lines is what is kept of each, in order |
| Payment.NonBlankOne | process_payment.py:105-110 | a single line is kept exactly when it is not blank |
| Payment.AmountDue | process_payment.py:137-142 | an empty, missing or zero stored amount gives `max(1, int(hours)) * 500`; a stored non-zero number is returned as that float, and text `float()` rejects gives None |
| Payment.ZeroAmountComputed | process_payment.py:137-142 | the "0" the entry lane stores (car_entry.py:203) is charged the computed fee |
| Payment.FindUnpaidEntry | process_payment.py:74-150 | the method computes the lookup: database row first, the file when it has none, nothing when the query raised |
| Payment.CsvLookupFindsNewestOpenEntry | process_payment.py:104-144 | on a well-formed file, an entry found is the open unpaid entry with the latest instant, and its time is that instant |
| Payment.CsvLookupWithoutOpenEntry | process_payment.py:127-130 | a plate without an open unpaid entry finds nothing |
| Payment.MarkChangesOnlyTheChosenRow | process_payment.py:152-229 | the file changes only when True is returned. Then only two cells of the newest open unpaid entry change: status to '1' and amount to `str(amount_paid)`. The header stays |
| Payment.NoEntryNotMarked | process_payment.py:206-208 | without an open unpaid entry the result is False and the file stays |
| Payment.MarkEntryAsPaid | process_payment.py:152-229 | the method computes `mark_entry_as_paid`: database success first, then the file; Raised when an exception escapes |
| Payment.Answer | process_payment.py:281-283 | no answer or an empty one reads as "TIMEOUT" |
| Payment.LineWithoutPlateIgnored | process_payment.py:235 | a line without "PLATE:" gets no reply and changes nothing |
| Payment.InsufficientNeverMarks | process_payment.py:258-261 | a balance below the amount due gets ERROR:INSUFFICIENT only, and nothing is marked |
| Payment.PaymentWithinBalance | process_payment.py:258-269 | every payment command asks for no more than the card's balance, so the new balance is not negative |
| Payment.MarkedOnlyAfterDone | process_payment.py:263-291 | the file changes only after the device answered "DONE" to a payment the balance covers, and then SUCCESS follows |
| Payment.AwaitAndSettle | process_payment.py:266-294 | after the payment command: "DONE" marks the entry, then SUCCESS or ERROR:DB_UPDATE; any other answer ends the pass |
| Payment.HandleLine | process_payment.py:232-301 | one pass of the main loop computes the replies, whether it crashed, and the new file |
| PaymentSuccess.CalculatePaymentAmount | payment_success.py:18-23 | at least 500, and a whole number of hours at 500 |
| PaymentSuccess.PaymentAmountGrows | payment_success.py:18-23 | never decreases as time passes; k full hours cost k times 500 |
| PaymentSuccess.StoredAmount | payment_success.py:101 | an empty cell gives None; otherwise the number `float()` reads, or a failure when it reads none |
| PaymentSuccess.GetUnpaidEntry | payment_success.py:25-106 | the method computes the lookup: database row first, the file when it has none, None when the query raised |
| PaymentSuccess.FindCsvEntry | payment_success.py:56-102 | the CSV branch, as the specification function gives it |
| PaymentSuccess.CsvEntryIsNewestOpenEntry | payment_success.py:73-102 | on a well-formed file: the entry is the open unpaid entry with the latest instant, with its index counting the header as 0, its instant, its plate cell, and an amount that is None exactly when the cell is empty |
| PaymentSuccess.CsvEntryWithoutOpenEntry | payment_success.py:90-106 | a plate without an open unpaid entry gets None |
| PaymentSuccess.RowIndex | payment_success.py:140 | a Python row index: in range exactly when between -len and len, negatives counting from the end |
| PaymentSuccess.CsvUpdateTouchesOneRow | payment_success.py:128-151 | False leaves the file unchanged. On True, only the status and amount cells of the addressed row changed, to '1' and `str(amount_paid)` |
| PaymentSuccess.UpdateCsvPayment | payment_success.py:128-151 | the method computes the update |
| PaymentSuccess.ProcessMarksTheFoundEntry | payment_success.py:153-180 | the file changes only for an entry found in it, in two cells of that row: status '1' and the text of the amount paid. False leaves the file unchanged |
| PaymentSuccess.NoEntryRefused | payment_success.py:160-163 | without an unpaid entry the result is False and nothing changes |
| PaymentSuccess.ProcessPayment | payment_success.py:153-180 | the method computes `process_payment` |

## Left out

- Camera, YOLO and OCR (`extract_plate_text`, frame display): a reading enters the model as the OCR text.
- Serial hardware: `detect_arduino_port`, `connect_arduino`, `read_distance` and `read_serial_line` are left out. The 5-second polling wait and the `time.sleep` pauses are left out too. A board is `Gate.Port`, what it does after a command is `Gate.Reply`, and the device's answer to a payment is a parameter.
- The database (`database.py`, every first branch, `update_database_payment`): its answers are parameters (`Payment.DbFind`, `Payment.DbUpdate`, `PaymentSuccess.DbGet`, the `dbUpdated` flag).
- Clocks: `time.time()` and `datetime.now()` are parameters (`now`, the formatted timestamp).
- `strptime` is modelled on the canonical `YYYY-MM-DD HH:MM:SS` text only. Its lenient forms (single-digit fields, for example) are read as failures.
- `float()` is modelled on plain decimals with an optional sign and white space around them. Exponents, `inf`, `nan` and digit underscores read as failures.
- `str(float)` and the `%.2f` formats are not modelled. The text written for a float amount is a parameter (`floatText`, `text`), and payment commands carry the amount as a number.
- `upper()` is modelled for ASCII letters only.
- File writes always succeed. The `except` paths for a failed write (both rewrites, `log_action`) are left out.
- Journal.LogFile: the camera lanes see the journal through `csv.DictReader` as five-field records. Short rows, missing columns and a missing file are left out there, because the entry lane creates the file with its header. The payment scripts read raw rows, where these cases are modelled.
- CSV quoting and line endings are left out. The file is given as its rows.
- `update_csv_payment` reads the file again. The model assumes it reads the same rows `get_unpaid_entry` read, since nothing runs in between.
- The amount `process_payment` computes with `calculate_payment_amount` is never used afterwards. `PaymentSuccess.Process` therefore does not compute it; `PaymentSuccess.CalculatePaymentAmount` models the function itself.
- Amounts stored in the database are taken as numbers. A NULL amount, which would make the balance comparison raise, is left out.
- The web dashboard, `app.py`, `check_db.py`, `mini.py`, `config.py` and `test_flask.py` are not part of this model.
- ExitLane.ProcessExit: finds the entry by position (`ExitLookup`), not with the `records.index(r) + 1` slice car_exit.py:221 has. The two differ only on a journal holding two identical rows (`ExitLane.ExitLookupDistinctRows`). On `[e, x, e]` the code as written buzzes and appends nothing, which `ExitLane.ExitLookupMissesDuplicate` shows; the model appends the exit row and opens the gate.
- ExitLane.ExitStep: inherits that lookup from `ProcessExit`. On `[e, x, e]` its contract promises an appended exit row and a release decided by the gate sequence, where the code as written buzzes, appends nothing and holds the car.
- Journal.Money: Python floats are modelled as exact reals, not rounded to binary64, so a comparison of amounts (the balance check, for example) can differ from Python's beyond about 16 significant digits: a balance of `499.99999999999999999` reads as 500.0 in Python and covers 500, but not in the model.
- Concurrency between the scripts sharing the file is left out. Each operation sees one consistent state of the file.

## Findings

| source | as written | input that shows it | evidently intended | confidence | as-written member | corrected member |
|---|---|---|---|---|---|---|
| car_exit.py:221 | the later rows of a candidate entry are taken from `records.index(r) + 1`, the first row equal to it | rows `[e, x, e]` where e is a paid entry of the plate and x an exit of it stamped later: `check_exit_requirements` clears the plate, `process_exit` finds no entry and buzzes | judge each row against the rows after its own position, as `check_exit_requirements` does | low (the third row repeats an entry stamped before the exit logged ahead of it, so rows must be appended out of time order, by a clock set back or an edited file); not executed | ExitLane.ExitLookupMissesDuplicate | ExitLane.ExitLookupAgrees |
