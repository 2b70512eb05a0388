/** The broadcast dispatch loop `send_messages` (client_win.py:38-75).

    Its effects on the world are recorded as one ordered trace of events:
    the sends it issues to the Telegram client, the sleeps it awaits and the
    lines it writes to the log box. The client's answer to each send comes
    from an outcome oracle indexed by the send's ordinal (0 for the first
    send of the run), the filesystem check `os.path.exists` is a predicate
    parameter, and the CSV rows arrive as a sequence of dictionaries. */
module Broadcast {
  import opened Text
  import opened Roster

  /** One CSV row as `csv.DictReader` yields it: column name to cell text. */
  type Row = map<string, string>

  /** What the client's send call does: return, raise `FloodWaitError` with
      its `seconds`, or raise any other exception with its text. */
  datatype Outcome = Ok | FloodWait(seconds: int) | Fail(error: string)

  /** The lines the loop writes to the log box, one constructor per
      f-string of the source (the emoji and fixed wording are left implicit). */
  datatype LogLine =
    | FoundGroups(count: nat)                   // "Found {n} groups."
    | NoGroups                                  // "No groups found."
    | SentImage(title: string)                  // "Sent image + message to {title}"
    | SentMessage(title: string)                // "Sent message to {title}"
    | FloodWaiting(seconds: int)                // "Flood wait: waiting {n}s..."
    | SendFailed(title: string, error: string)  // "Failed to send to {title}: {e}"
    | Countdown(seconds: int)                   // "Waiting {sec}s before next CSV line..."
    | AllSent                                   // "All messages sent!"

  /** One observable step of a run. */
  datatype Event =
    | Log(line: LogLine)
    | SendMedia(chat: int, path: string, caption: string)  // client.send_file
    | SendText(chat: int, text: string)                    // client.send_message
    | Sleep(seconds: int)                                  // asyncio.sleep

  /** `row.get(key, "")`. */
  function Field(row: Row, key: string): string {
    if key in row then row[key] else ""
  }

  /** A row as the loop sees it after line 48-49 of client_win.py: its
      message and image path, each stripped of surrounding whitespace. */
  datatype StrippedRow = StrippedRow(message: string, image: string)

  function Prepare(row: Row): StrippedRow {
    StrippedRow(Strip(Field(row, "message")), Strip(Field(row, "image")))
  }

  function Prepared(rows: seq<Row>): (lines: seq<StrippedRow>)
    ensures |lines| == |rows|
  {
    seq(|rows|, i requires 0 <= i < |rows| => Prepare(rows[i]))
  }

  /** A row the loop skips with `continue` (client_win.py:51-52). */
  predicate IsBlank(line: StrippedRow) {
    line.message == ""
  }

  /** A row is skipped exactly when its message cell is missing, empty or
      all whitespace. */
  lemma BlankIffWhitespace(row: Row)
    ensures IsBlank(Prepare(row)) <==> AllSpace(Field(row, "message"))
  {
    StripSpec(Field(row, "message"));
  }

  /** The send issued to `group` for a message and image path: a media send
      with the message as caption when the path is non-empty and exists, a
      text send of the message otherwise (client_win.py:56-60). */
  function Request(group: Entity, message: string, image: string, pathExists: string -> bool): Event {
    if image != "" && pathExists(image) then SendMedia(group.id, image, message)
    else SendText(group.id, message)
  }

  /** The events of one pass through the `try` block for one group: the send,
      then what the outcome makes the loop log and await (client_win.py:55-66). */
  function Attempt(group: Entity, message: string, image: string, pathExists: string -> bool,
                   outcome: Outcome): seq<Event>
  {
    var request := Request(group, message, image, pathExists);
    [request] +
      match outcome
      case Ok =>
        [Log(if request.SendMedia? then SentImage(group.title) else SentMessage(group.title))]
      case FloodWait(n) => [Log(FloodWaiting(n)), Sleep(n)]
      case Fail(e) => [Log(SendFailed(group.title, e))]
  }

  /** The inner loop over `groups` for one row, whose first send has ordinal
      `base` (client_win.py:54-66). */
  function GroupsTrace(groups: seq<Entity>, message: string, image: string,
                       pathExists: string -> bool, outcome: nat -> Outcome, base: nat): seq<Event>
  {
    if groups == [] then []
    else
      var n := |groups| - 1;
      GroupsTrace(groups[..n], message, image, pathExists, outcome, base) +
      Attempt(groups[n], message, image, pathExists, outcome(base + n))
  }

  /** The countdown after a row, from `delay` down to 1, one log line and one
      one-second sleep per tick; nothing when `delay <= 0` (client_win.py:69-73). */
  function Ticks(delay: int): seq<Event>
    decreases delay
  {
    if delay <= 0 then [] else [Log(Countdown(delay)), Sleep(1)] + Ticks(delay - 1)
  }

  /** The rows the loop does not skip, in file order. */
  function NonBlank(rows: seq<StrippedRow>): (kept: seq<StrippedRow>)
    ensures |kept| <= |rows|
    ensures forall k :: 0 <= k < |kept| ==> !IsBlank(kept[k])
  {
    if rows == [] then []
    else
      var n := |rows| - 1;
      NonBlank(rows[..n]) + (if IsBlank(rows[n]) then [] else [rows[n]])
  }

  /** The number of sends that `rows` issue to a roster of `width` groups:
      `width` for every row that is not blank. */
  function SendCount(rows: seq<StrippedRow>, width: nat): nat {
    if rows == [] then 0
    else
      var n := |rows| - 1;
      SendCount(rows[..n], width) + (if IsBlank(rows[n]) then 0 else width)
  }

  /** The events one row contributes, given the ordinal of its first send. */
  function RowTrace(row: StrippedRow, groups: seq<Entity>, delay: int, pathExists: string -> bool,
                    outcome: nat -> Outcome, base: nat): seq<Event>
  {
    if IsBlank(row) then []
    else GroupsTrace(groups, row.message, row.image, pathExists, outcome, base) + Ticks(delay)
  }

  /** The outer loop over the rows (client_win.py:47-73): every non-blank row
      before the current one has issued one send per group. */
  function RowsTrace(rows: seq<StrippedRow>, groups: seq<Entity>, delay: int, pathExists: string -> bool,
                     outcome: nat -> Outcome): seq<Event>
  {
    if rows == [] then []
    else
      var n := |rows| - 1;
      RowsTrace(rows[..n], groups, delay, pathExists, outcome) +
      RowTrace(rows[n], groups, delay, pathExists, outcome, SendCount(rows[..n], |groups|))
  }

  /** Unfolds `RowsTrace` and `SendCount` over the prefix `rows[..i + 1]`. */
  lemma RowsTraceStep(rows: seq<StrippedRow>, i: nat, groups: seq<Entity>, delay: int,
                      pathExists: string -> bool, outcome: nat -> Outcome)
    requires i < |rows|
    ensures RowsTrace(rows[..i + 1], groups, delay, pathExists, outcome) ==
            RowsTrace(rows[..i], groups, delay, pathExists, outcome) +
            RowTrace(rows[i], groups, delay, pathExists, outcome, SendCount(rows[..i], |groups|))
    ensures SendCount(rows[..i + 1], |groups|) ==
            SendCount(rows[..i], |groups|) + (if IsBlank(rows[i]) then 0 else |groups|)
  {
    assert rows[..i + 1][..i] == rows[..i];
  }

  /** The whole run of `send_messages` (client_win.py:38-75) for the roster
      `groups` and the stripped rows. */
  function Run(groups: seq<Entity>, rows: seq<StrippedRow>, delay: int, pathExists: string -> bool,
               outcome: nat -> Outcome): seq<Event>
  {
    [Log(FoundGroups(|groups|))] +
      if groups == [] then [Log(NoGroups)]
      else RowsTrace(rows, groups, delay, pathExists, outcome) + [Log(AllSent)]
  }

  /** Unfolds `GroupsTrace` over the prefix `groups[..j + 1]`. */
  lemma GroupsTraceStep(groups: seq<Entity>, j: nat, message: string, image: string,
                        pathExists: string -> bool, outcome: nat -> Outcome, base: nat)
    requires j < |groups|
    ensures GroupsTrace(groups[..j + 1], message, image, pathExists, outcome, base) ==
            GroupsTrace(groups[..j], message, image, pathExists, outcome, base) +
            Attempt(groups[j], message, image, pathExists, outcome(base + j))
  {
    assert groups[..j + 1][..j] == groups[..j];
  }

  /** The inner `for group in groups` loop for one row: one send per group,
      in roster order, with the outcome of each handled in place; `base` is
      the ordinal of the row's first send. */
  method SendToGroups(groups: seq<Entity>, message: string, imagePath: string,
                      pathExists: string -> bool, outcome: nat -> Outcome, base: nat)
    returns (events: seq<Event>)
    ensures events == GroupsTrace(groups, message, imagePath, pathExists, outcome, base)
  {
    events := [];
    for j := 0 to |groups|
      invariant events == GroupsTrace(groups[..j], message, imagePath, pathExists, outcome, base)
    {
      GroupsTraceStep(groups, j, message, imagePath, pathExists, outcome, base);
      var group := groups[j];
      var media := imagePath != "" && pathExists(imagePath);
      var request := if media then SendMedia(group.id, imagePath, message)
                     else SendText(group.id, message);
      var handled: seq<Event>;  // what the try/except appends after the send
      match outcome(base + j) {
        case Ok =>
          handled := [Log(if media then SentImage(group.title) else SentMessage(group.title))];
        case FloodWait(n) =>
          handled := [Log(FloodWaiting(n)), Sleep(n)];
        case Fail(e) =>
          handled := [Log(SendFailed(group.title, e))];
      }
      events := events + ([request] + handled);
    }
    assert groups[..|groups|] == groups;
  }

  /** The delay block after a row: `for sec in range(delay, 0, -1)`, guarded
      by `delay > 0`. */
  method CountDown(delay: int) returns (events: seq<Event>)
    ensures events == Ticks(delay)
  {
    events := [];
    if delay > 0 {
      var sec := delay;
      while sec > 0
        invariant 0 <= sec <= delay
        invariant events + Ticks(sec) == Ticks(delay)
      {
        events := events + [Log(Countdown(sec))];
        events := events + [Sleep(1)];
        sec := sec - 1;
      }
    }
  }

  /** The body of the row loop for one stripped row (client_win.py:50-73):
      nothing when the message is empty, otherwise one send per group
      followed by the countdown. */
  method SendRow(groups: seq<Entity>, line: StrippedRow, delay: int, pathExists: string -> bool,
                 outcome: nat -> Outcome, base: nat)
    returns (events: seq<Event>)
    ensures events == RowTrace(line, groups, delay, pathExists, outcome, base)
  {
    if line.message == "" {
      return [];
    }
    var sends := SendToGroups(groups, line.message, line.image, pathExists, outcome, base);
    var ticks := CountDown(delay);
    events := sends + ticks;
  }

  /** The `with open(csv_file)` block of `send_messages` (client_win.py:45-73):
      for each row, in file order, skip it when its stripped message is empty,
      otherwise send it to every group and count down the delay. Returns what
      the block appends to the trace. */
  method SendRows(groups: seq<Entity>, rows: seq<Row>, delay: int, pathExists: string -> bool,
                  outcome: nat -> Outcome)
    returns (events: seq<Event>)
    ensures events == RowsTrace(Prepared(rows), groups, delay, pathExists, outcome)
  {
    ghost var lines := Prepared(rows);
    var sent: nat := 0;  // sends issued so far: the oracle's next index
    events := [];
    assert lines[..0] == [];
    for i := 0 to |rows|
      invariant sent == SendCount(lines[..i], |groups|)
      invariant events == RowsTrace(lines[..i], groups, delay, pathExists, outcome)
    {
      RowsTraceStep(lines, i, groups, delay, pathExists, outcome);
      var line := Prepare(rows[i]);
      var rowEvents := SendRow(groups, line, delay, pathExists, outcome, sent);
      events := events + rowEvents;
      if line.message != "" {
        sent := sent + |groups|;
      }
    }
    assert lines[..|rows|] == lines;
  }

  /** `send_messages`: loads the roster and reports its size; stops after a
      warning when it is empty, otherwise processes the rows and reports
      completion. */
  method SendMessages(dialogs: seq<Dialog>, rows: seq<Row>, delay: int, pathExists: string -> bool,
                      outcome: nat -> Outcome)
    returns (trace: seq<Event>)
    ensures trace == Run(Groups(dialogs), Prepared(rows), delay, pathExists, outcome)
  {
    var groups := GetAllGroups(dialogs);
    trace := [Log(FoundGroups(|groups|))];
    if groups == [] {
      trace := trace + [Log(NoGroups)];
      return;
    }
    var events := SendRows(groups, rows, delay, pathExists, outcome);
    trace := trace + events;
    trace := trace + [Log(AllSent)];
  }
}
