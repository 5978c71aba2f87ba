/**
  What the script manager exchanges with the outside world: the host's log
  and screen state, the calls it makes into the host and the console, and
  the answers the script engine gives. The engine itself is not modelled;
  each of its answers is handed to the manager's operations as a value.
 */
module HostInterface {

  datatype Option<+T> = None | Some(value: T)

  /** The game screen the host reports; only two screens matter to the manager. */
  datatype Screen = Menu | Online | OtherScreen

  /** One line the manager writes to the host log. */
  datatype LogEntry =
    | ConsoleMessage(text: string)               // forwarded from the developer console
    | ScriptMessage(modName: string, text: string) // forwarded from a script, tagged with its mod
    | LuaError(modName: string, text: string)      // a script result that is not a success sentinel

  /** The file the developer console keeps its history in. */
  const HistoryFile: string := "console_history.txt"

  /** Calls into the host and the console whose effect lies outside the manager. */
  datatype HostCall =
    | RegisterScriptModType
    | LoadHistory(file: string)
    | SetMaxHistorySize(size: int)
    | SaveHistory(file: string)
    | ShowCursor
    | HideCursor
    | ConsoleToggle

  /** One message a script has queued: its text may be null. */
  datatype Message = Message(text: Option<string>, time: nat)

  /** What the engine reports when a script is instantiated at commit time. */
  datatype Instantiation = Instantiation(id: nat, result: Option<string>, unsafe: bool)

  /** What the engine reports for one live script during one update. */
  datatype TickReport = TickReport(result: Option<string>, messages: seq<Message>)

  /**
    The cursor state the calls in `calls` leave behind: shown iff the last
    cursor call among them is ShowCursor (hidden when there is none).
   */
  function CursorShown(calls: seq<HostCall>): bool
  {
    if |calls| == 0 then false
    else match calls[|calls| - 1]
      case ShowCursor => true
      case HideCursor => false
      case _ => CursorShown(calls[..|calls| - 1])
  }

  /**
    The cursor calls in `calls` alternate, starting with ShowCursor: a show
    is issued only while hidden and a hide only while shown.
   */
  ghost predicate CursorAlternates(calls: seq<HostCall>)
  {
    |calls| == 0 ||
    (CursorAlternates(calls[..|calls| - 1]) &&
     match calls[|calls| - 1]
       case ShowCursor => !CursorShown(calls[..|calls| - 1])
       case HideCursor => CursorShown(calls[..|calls| - 1])
       case _ => true)
  }

  /** Appending calls that are not cursor calls keeps the alternation and the cursor state. */
  lemma {:induction false} AppendOtherCalls(calls: seq<HostCall>, more: seq<HostCall>)
    requires CursorAlternates(calls)
    requires forall c :: c in more ==> !c.ShowCursor? && !c.HideCursor?
    ensures CursorAlternates(calls + more)
    ensures CursorShown(calls + more) == CursorShown(calls)
  {
    if |more| > 0 {
      var init := calls + more[..|more| - 1];
      assert (calls + more)[..|calls + more| - 1] == init;
      assert more[..|more| - 1] + [more[|more| - 1]] == more;
      AppendOtherCalls(calls, more[..|more| - 1]);
    } else {
      assert calls + more == calls;
    }
  }

  /** A cursor call appended where the alternation allows it keeps the alternation and sets the state. */
  lemma AppendCursorCall(calls: seq<HostCall>, show: bool)
    requires CursorAlternates(calls)
    requires CursorShown(calls) != show
    ensures CursorAlternates(calls + [if show then ShowCursor else HideCursor])
    ensures CursorShown(calls + [if show then ShowCursor else HideCursor]) == show
  {
    assert (calls + [if show then ShowCursor else HideCursor])[..|calls|] == calls;
  }
}
