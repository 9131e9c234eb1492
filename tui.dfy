/**
 * The node terminal UI's state (`App`): which panel is active, the
 * connection status, the latest CPU reading and a history of the last 120
 * readings, and the greeter's input line and last response. Events from
 * the background stream update it; key presses update it and may ask the
 * main loop for an action.
 *
 * A CPU usage reading is a whole-number sample; the history stores it
 * converted to an unsigned integer, which turns a negative reading into 0.
 */
module Tui {
  import opened Common

  /** The most readings the history keeps. */
  const HistoryCapacity: nat := 120

  datatype Panel = Cpu | Greeter

  /** What a key press asks the main loop to do. */
  datatype Action = Quit | Reconnect | SendGreeting(text: string)

  /** `AppEvent`: a CPU reading, a greeter reply, or the stream's failure. */
  datatype AppEvent = CpuUpdate(cpuCount: nat, totalUsage: int) | GreeterResponse(msg: string) | Disconnected(err: string)

  /** The key codes the UI tells apart; `Other` is every remaining key. */
  datatype Key = Esc | Tab | Enter | Backspace | Char(c: char) | Other

  /** `total_usage as u64`: negative readings become 0. */
  function AsUnsigned(usage: int): (n: nat)
    ensures usage >= 0 ==> n == usage
    ensures usage < 0 ==> n == 0
  {
    if usage < 0 then 0 else usage
  }

  /** The last `HistoryCapacity` samples, or all of them when there are fewer. */
  function Window(samples: seq<nat>): (w: seq<nat>)
    ensures |w| == Min(|samples|, HistoryCapacity) && |w| <= HistoryCapacity
    ensures w == samples[|samples| - |w|..]
  {
    if |samples| <= HistoryCapacity then samples else samples[|samples| - HistoryCapacity..]
  }

  function Toggle(p: Panel): (q: Panel)
    ensures q != p
  {
    match p
    case Cpu => Greeter
    case Greeter => Cpu
  }

  /** `String::pop`: drop the last character, if any. */
  function PopLast(s: string): (r: string)
    ensures s == [] ==> r == []
    ensures s != [] ==> r + [s[|s| - 1]] == s
  {
    if s == [] then [] else s[..|s| - 1]
  }

  class App {
    var activePanel: Panel
    var connected: bool
    var connectionError: Option<string>
    var cpuCount: nat
    var cpuUsage: int
    var cpuHistory: seq<nat>
    var greeterInput: string
    var greeterResponse: Option<string>
    /** Every sample pushed since the app started. */
    ghost var samples: seq<nat>

    /** The history is the window of the last readings. */
    ghost predicate Valid()
      reads this
    {
      cpuHistory == Window(samples)
    }

    /** `App::new`. */
    constructor()
      ensures Valid()
      ensures activePanel == Cpu && !connected && connectionError == None
      ensures cpuCount == 0 && cpuUsage == 0 && cpuHistory == [] && samples == []
      ensures greeterInput == "world" && greeterResponse == None
    {
      activePanel := Cpu;
      connected := false;
      connectionError := None;
      cpuCount := 0;
      cpuUsage := 0;
      cpuHistory := [];
      greeterInput := "world";
      greeterResponse := None;
      samples := [];
    }

    /**
     * `App::apply_event`: a CPU reading marks the stream connected, clears
     * the error, stores the reading and appends it to the history, dropping
     * the oldest entry when 120 are held; a greeter reply is stored; a
     * failure marks the stream disconnected with its message.
     */
    method ApplyEvent(event: AppEvent)
      requires Valid()
      modifies this
      ensures Valid()
      ensures activePanel == old(activePanel) && greeterInput == old(greeterInput)
      ensures event.CpuUpdate? ==>
        && connected && connectionError == None
        && cpuCount == event.cpuCount && cpuUsage == event.totalUsage
        && samples == old(samples) + [AsUnsigned(event.totalUsage)]
        && cpuHistory == (if |old(cpuHistory)| >= HistoryCapacity then old(cpuHistory)[1..] else old(cpuHistory))
                         + [AsUnsigned(event.totalUsage)]
        && greeterResponse == old(greeterResponse)
      ensures event.GreeterResponse? ==>
        && greeterResponse == Some(event.msg)
        && connected == old(connected) && connectionError == old(connectionError)
        && cpuCount == old(cpuCount) && cpuUsage == old(cpuUsage)
        && cpuHistory == old(cpuHistory) && samples == old(samples)
      ensures event.Disconnected? ==>
        && !connected && connectionError == Some(event.err)
        && cpuCount == old(cpuCount) && cpuUsage == old(cpuUsage)
        && cpuHistory == old(cpuHistory) && samples == old(samples)
        && greeterResponse == old(greeterResponse)
    {
      match event
      case CpuUpdate(count, usage) =>
        connected := true;
        connectionError := None;
        cpuCount := count;
        cpuUsage := usage;
        PushSample(AsUnsigned(usage));
      case GreeterResponse(msg) =>
        greeterResponse := Some(msg);
      case Disconnected(err) =>
        connected := false;
        connectionError := Some(err);
    }

    /** Append a reading to the history, dropping the oldest when 120 are held. */
    method PushSample(x: nat)
      requires Valid()
      modifies this`cpuHistory, this`samples
      ensures Valid()
      ensures samples == old(samples) + [x]
      ensures cpuHistory == (if |old(cpuHistory)| >= HistoryCapacity then old(cpuHistory)[1..] else old(cpuHistory)) + [x]
    {
      WindowPush(samples, x);
      if |cpuHistory| >= HistoryCapacity {
        cpuHistory := cpuHistory[1..];
      }
      cpuHistory := cpuHistory + [x];
      samples := samples + [x];
    }

    /**
     * `App::handle_key`: Esc quits and Tab switches panel whatever the
     * panel; 'c' on the CPU panel asks to reconnect. Then on the CPU panel
     * 'q' quits; on the greeter panel Enter sends the input, Backspace
     * deletes its last character and any other character is typed into it.
     */
    method HandleKey(key: Key) returns (action: Option<Action>)
      modifies this`activePanel, this`greeterInput
      ensures key == Esc ==>
        action == Some(Quit) && activePanel == old(activePanel) && greeterInput == old(greeterInput)
      ensures key == Tab ==>
        action == None && activePanel == Toggle(old(activePanel)) && greeterInput == old(greeterInput)
      ensures key != Esc && key != Tab ==> activePanel == old(activePanel)
      ensures key != Esc && key != Tab && old(activePanel) == Cpu ==>
        && greeterInput == old(greeterInput)
        && action == (if key == Char('c') then Some(Reconnect) else if key == Char('q') then Some(Quit) else None)
      ensures key != Esc && key != Tab && old(activePanel) == Greeter ==>
        && action == (if key == Enter then Some(SendGreeting(old(greeterInput))) else None)
        && greeterInput == match key {
             case Backspace => PopLast(old(greeterInput))
             case Char(c) => old(greeterInput) + [c]
             case _ => old(greeterInput)
           }
    {
      match key {
        case Esc => return Some(Quit);
        case Tab =>
          activePanel := Toggle(activePanel);
          return None;
        case _ =>
          if key == Char('c') && activePanel == Cpu {
            return Some(Reconnect);
          }
      }
      match activePanel {
        case Cpu =>
          action := if key == Char('q') then Some(Quit) else None;
        case Greeter =>
          match key {
            case Enter => action := Some(SendGreeting(greeterInput));
            case Backspace =>
              greeterInput := PopLast(greeterInput);
              action := None;
            case Char(c) =>
              greeterInput := greeterInput + [c];
              action := None;
            case _ => action := None;
          }
      }
    }
  }

  // ----- Lemmas -----

  /**
   * Pushing a sample onto the window drops the oldest entry exactly when
   * the window is full.
   */
  lemma WindowPush(samples: seq<nat>, x: nat)
    ensures Window(samples + [x]) ==
      (if |Window(samples)| >= HistoryCapacity then Window(samples)[1..] else Window(samples)) + [x]
  {
    var s := samples + [x];
    if |samples| >= HistoryCapacity {
      assert s[|s| - HistoryCapacity..] == samples[|samples| - HistoryCapacity..][1..] + [x];
    }
  }

  /** Pressing Tab twice returns to the panel one started on. */
  lemma TabTwice(p: Panel)
    ensures Toggle(Toggle(p)) == p
  {
  }

  /** Typing a character and then Backspace leaves the input as it was. */
  lemma TypeThenBackspace(s: string, c: char)
    ensures PopLast(s + [c]) == s
  {
    assert (s + [c])[..|s|] == s;
  }
}
