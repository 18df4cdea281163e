/** `control_gate(arduino, action)` as the two lanes define it. The serial link is
    abstract: either no Arduino was found (simulation, `arduino` is None) or one is
    attached, and what the board does after a command is given as a `Reply`. */
module Gate {

  const OpenAction: string := "open"
  const CloseAction: string := "close"
  const BuzzerAction: string := "buzzer"

  datatype Port = Simulated | Attached

  /** What happens on the link when a command is sent: the write itself raises, so
      nothing reaches the board; or, once the token is written and the lane has
      paused for 100 ms, nothing is waiting, a line is waiting (decoded and
      stripped), or a later serial call (flush, in_waiting, readline, decode)
      raises. */
  datatype Reply = Silent | Says(line: string) | WriteFault | ReadFault
  {
    /** The serial call raised, before or after the token went out. */
    predicate Raises()
    {
      WriteFault? || ReadFault?
    }
  }

  /** What one call wrote to the link and what it returned. */
  datatype GateResult = GateResult(written: string, ok: bool)

  /** The bytes each action is sent as; any other action has none. */
  function Token(action: string): (t: string)
    ensures t == "" <==> action !in {OpenAction, CloseAction, BuzzerAction}
  {
    if action == OpenAction then "OPEN\n"
    else if action == CloseAction then "CLOSE\n"
    else if action == BuzzerAction then "BUZZ\n"
    else ""
  }

  /** car_entry.py's version: without a board it only reports the intent; with one it
      writes the token, reads (and ignores) whatever answer comes, and returns True
      unless a serial call raised; the token is on the link unless the write itself
      raised. */
  function EntryControlGate(port: Port, action: string, reply: Reply): (r: GateResult)
    ensures port.Simulated? ==> r == GateResult("", true)
    ensures port.Attached? ==> (r.ok <==> !reply.Raises())
    ensures r.written == (if port.Attached? && !reply.WriteFault? then Token(action) else "")
  {
    if port.Simulated? then GateResult("", true)
    else if reply.WriteFault? then GateResult("", false)
    else GateResult(Token(action), !reply.ReadFault?)
  }

  /** car_exit.py's version: without a board it returns True; an unknown action
      writes nothing and returns False; otherwise it writes the token and returns
      True exactly when an answer is waiting and that answer is "OK". */
  function ExitControlGate(port: Port, action: string, reply: Reply): (r: GateResult)
    ensures port.Simulated? ==> r == GateResult("", true)
    ensures port.Attached? && Token(action) == "" ==> r == GateResult("", false)
    ensures port.Attached? && Token(action) != "" ==> (r.ok <==> reply == Says("OK"))
    ensures r.written == (if port.Attached? && !reply.WriteFault? then Token(action) else "")
  {
    if port.Simulated? then GateResult("", true)
    else if Token(action) == "" then GateResult("", false)
    else match reply
      case WriteFault => GateResult("", false)
      case ReadFault => GateResult(Token(action), false)
      case Silent => GateResult(Token(action), false)
      case Says(line) => GateResult(Token(action), line == "OK")
  }

  /** The two versions agree without a board and disagree on a silent board: the
      entry lane takes silence as success, the exit lane as failure. */
  lemma EntryExitGateDiffer(action: string)
    requires Token(action) != ""
    ensures EntryControlGate(Simulated, action, Silent) == ExitControlGate(Simulated, action, Silent)
    ensures EntryControlGate(Attached, action, Silent).ok && !ExitControlGate(Attached, action, Silent).ok
  {
  }
}
