/** What a run of `send_messages` promises, stated over the trace `Run`
    that `Broadcast.SendMessages` is proved to produce. */
module BroadcastProperties {
  import opened Text
  import opened Roster
  import opened Broadcast

  // ---------------------------------------------------------------------
  // Views of a trace

  /** A call into the Telegram client. */
  predicate IsSendEvent(e: Event) {
    e.SendMedia? || e.SendText?
  }

  predicate IsFailureEvent(e: Event) {
    e.Log? && e.line.SendFailed?
  }

  /** The events of `trace` that satisfy `keep`, in trace order. */
  function Filter(trace: seq<Event>, keep: Event -> bool): (kept: seq<Event>)
    ensures |kept| <= |trace|
  {
    if trace == [] then []
    else
      var n := |trace| - 1;
      Filter(trace[..n], keep) + (if keep(trace[n]) then [trace[n]] else [])
  }

  /** The sends of a trace, in the order they were issued. */
  function Sends(trace: seq<Event>): seq<Event> {
    Filter(trace, IsSendEvent)
  }

  lemma {:induction false} FilterAppend(a: seq<Event>, b: seq<Event>, keep: Event -> bool)
    ensures Filter(a + b, keep) == Filter(a, keep) + Filter(b, keep)
  {
    if b == [] {
      assert a + b == a;
    } else {
      var n := |b| - 1;
      assert (a + b)[..|a + b| - 1] == a + b[..n];
      FilterAppend(a, b[..n], keep);
    }
  }

  lemma {:induction false} FilterNone(trace: seq<Event>, keep: Event -> bool)
    requires forall e :: e in trace ==> !keep(e)
    ensures Filter(trace, keep) == []
  {
    if trace != [] {
      var n := |trace| - 1;
      assert forall e :: e in trace[..n] ==> e in trace;
      FilterNone(trace[..n], keep);
    }
  }

  /** `x` occurs in `t` as one contiguous block right after the first `k`
      sends of `t`. When `x` starts with a send, that send is send number
      `k` of `t` (`SendAtOrdinal`), so the block has exactly one place. */
  ghost predicate OccursAfter(x: seq<Event>, t: seq<Event>, k: nat) {
    exists before, after :: t == before + x + after && |Sends(before)| == k
  }

  lemma OccursAfterConcat(before: seq<Event>, x: seq<Event>, after: seq<Event>)
    ensures OccursAfter(x, before + x + after, |Sends(before)|)
  {
    assert before + x + after == before + x + after;
  }

  lemma OccursAfterSplit(x: seq<Event>, t: seq<Event>, before: seq<Event>, after: seq<Event>, k: nat)
    requires t == before + x + after && |Sends(before)| == k
    ensures OccursAfter(x, t, k)
  {
    OccursAfterConcat(before, x, after);
  }

  lemma OccursAtStart(x: seq<Event>, t: seq<Event>)
    requires x <= t
    ensures OccursAfter(x, t, 0)
  {
    assert t == [] + x + t[|x|..];
    OccursAfterConcat([], x, t[|x|..]);
  }

  /** Occurrences compose: a block of `y` that follows `k` of its sends,
      with `y` following `m` sends of `t`, follows `m + k` sends of `t`. */
  lemma OccursAfterTransitive(x: seq<Event>, y: seq<Event>, t: seq<Event>, k: nat, m: nat)
    requires OccursAfter(x, y, k) && OccursAfter(y, t, m)
    ensures OccursAfter(x, t, m + k)
  {
    var a, b :| y == a + x + b && |Sends(a)| == k;
    var c, d :| t == c + y + d && |Sends(c)| == m;
    assert |Sends(c + a)| == m + k by {
      FilterAppend(c, a, IsSendEvent);
    }
    assert t == (c + a) + x + (b + d);
    OccursAfterSplit(x, t, c + a, b + d, m + k);
  }

  /** A block that starts with a send and follows `k` sends of `t` starts
      with send number `k` of `t`. */
  lemma SendAtOrdinal(x: seq<Event>, t: seq<Event>, k: nat)
    requires OccursAfter(x, t, k) && x != [] && IsSendEvent(x[0])
    ensures k < |Sends(t)| && Sends(t)[k] == x[0]
  {
    var a, b :| t == a + x + b && |Sends(a)| == k;
    assert Sends(t) == Sends(a) + Sends(x) + Sends(b) by {
      FilterAppend(a + x, b, IsSendEvent);
      FilterAppend(a, x, IsSendEvent);
    }
    assert Sends(x) == [x[0]] + Sends(x[1..]) by {
      assert x == [x[0]] + x[1..];
      FilterAppend([x[0]], x[1..], IsSendEvent);
      assert [x[0]][..0] == [];
    }
  }

  // ---------------------------------------------------------------------
  // The roster-empty case and the completion line

  /** With no group the run logs the count and the warning and does nothing
      else: no send, no sleep, no completion line, and the rows are never
      looked at (client_win.py:40-43). */
  lemma EmptyRosterStopsEarly(groups: seq<Entity>, rows: seq<StrippedRow>, delay: int,
                              pathExists: string -> bool, outcome: nat -> Outcome)
    requires groups == []
    ensures Run(groups, rows, delay, pathExists, outcome) == [Log(FoundGroups(0)), Log(NoGroups)]
  {
  }

  /** The countdown: `delay` ticks, each a countdown line then a one-second
      sleep, counting `delay, delay - 1, ..., 1` (client_win.py:69-73). */
  lemma {:induction false} TicksCountDown(delay: int)
    ensures |Ticks(delay)| == if delay > 0 then 2 * delay else 0
    ensures forall k :: 0 <= k < |Ticks(delay)| ==>
              Ticks(delay)[k] == if k % 2 == 0 then Log(Countdown(delay - k / 2)) else Sleep(1)
  {
    if delay > 0 {
      TicksCountDown(delay - 1);
      var t := Ticks(delay);
      assert t == [Log(Countdown(delay)), Sleep(1)] + Ticks(delay - 1);
      forall k | 2 <= k < |t|
        ensures t[k] == if k % 2 == 0 then Log(Countdown(delay - k / 2)) else Sleep(1)
      {
        assert t[k] == Ticks(delay - 1)[k - 2];
        assert (k - 2) % 2 == k % 2 && (k - 2) / 2 == k / 2 - 1;
      }
    }
  }

  lemma {:induction false} TicksHaveNoLines(delay: int)
    ensures forall e :: e in Ticks(delay) ==> e == Sleep(1) || (e.Log? && e.line.Countdown?)
  {
    if delay > 0 {
      TicksHaveNoLines(delay - 1);
    }
  }

  lemma {:induction false} GroupsTraceLines(groups: seq<Entity>, message: string, image: string,
                                            pathExists: string -> bool, outcome: nat -> Outcome, base: nat)
    ensures Log(AllSent) !in GroupsTrace(groups, message, image, pathExists, outcome, base)
    ensures (forall k :: base <= k < base + |groups| ==> !outcome(k).Fail?) ==>
              forall e :: e in GroupsTrace(groups, message, image, pathExists, outcome, base) ==>
                !IsFailureEvent(e)
  {
    if groups != [] {
      var n := |groups| - 1;
      GroupsTraceLines(groups[..n], message, image, pathExists, outcome, base);
      if forall k :: base <= k < base + |groups| ==> !outcome(k).Fail? {
        assert !outcome(base + n).Fail?;
      }
    }
  }

  lemma {:induction false} RowsTraceLines(rows: seq<StrippedRow>, groups: seq<Entity>, delay: int,
                                          pathExists: string -> bool, outcome: nat -> Outcome)
    ensures Log(AllSent) !in RowsTrace(rows, groups, delay, pathExists, outcome)
    ensures (forall k :: 0 <= k < SendCount(rows, |groups|) ==> !outcome(k).Fail?) ==>
              forall e :: e in RowsTrace(rows, groups, delay, pathExists, outcome) ==> !IsFailureEvent(e)
  {
    if rows != [] {
      var n := |rows| - 1;
      RowsTraceLines(rows[..n], groups, delay, pathExists, outcome);
      GroupsTraceLines(groups, rows[n].message, rows[n].image, pathExists, outcome,
                       SendCount(rows[..n], |groups|));
      TicksHaveNoLines(delay);
    }
  }

  /** With at least one group the run opens with the count of groups and
      ends with the completion line, which occurs nowhere else
      (client_win.py:40, 75). */
  lemma CompletionLineOnceAtEnd(groups: seq<Entity>, rows: seq<StrippedRow>, delay: int,
                                pathExists: string -> bool, outcome: nat -> Outcome)
    requires groups != []
    ensures var trace := Run(groups, rows, delay, pathExists, outcome);
            trace[0] == Log(FoundGroups(|groups|)) &&
            trace[|trace| - 1] == Log(AllSent) &&
            Log(AllSent) !in trace[..|trace| - 1]
  {
    var middle := RowsTrace(rows, groups, delay, pathExists, outcome);
    RowsTraceLines(rows, groups, delay, pathExists, outcome);
    var trace := Run(groups, rows, delay, pathExists, outcome);
    assert trace[..|trace| - 1] == [Log(FoundGroups(|groups|))] + middle;
  }

  /** A send is reported as failed only when the client raised an error other
      than a flood wait: when none of the run's sends does, whatever the
      oracle answers beyond them, a missing or blank image path never causes
      a failure line on its own (client_win.py:56-66). */
  lemma NoFailureWithoutError(groups: seq<Entity>, rows: seq<StrippedRow>, delay: int,
                              pathExists: string -> bool, outcome: nat -> Outcome)
    requires forall k :: 0 <= k < SendCount(rows, |groups|) ==> !outcome(k).Fail?
    ensures Filter(Run(groups, rows, delay, pathExists, outcome), IsFailureEvent) == []
  {
    RowsTraceLines(rows, groups, delay, pathExists, outcome);
    FilterNone(Run(groups, rows, delay, pathExists, outcome), IsFailureEvent);
  }

  /** The failure lines one row's sends are to log: one naming the group
      and the error for every group, in roster order, whose send the client
      answered with an error other than a flood wait. */
  function GroupFailures(groups: seq<Entity>, outcome: nat -> Outcome, base: nat): seq<Event> {
    if groups == [] then []
    else
      var n := |groups| - 1;
      GroupFailures(groups[..n], outcome, base) +
      (if outcome(base + n).Fail? then [Log(SendFailed(groups[n].title, outcome(base + n).error))]
       else [])
  }

  /** The failure lines a run is to log: those of every non-blank row, in
      file order, each row's sends numbered on from the earlier rows'. */
  function PlannedFailures(rows: seq<StrippedRow>, groups: seq<Entity>, outcome: nat -> Outcome)
    : seq<Event>
  {
    if rows == [] then []
    else
      var n := |rows| - 1;
      PlannedFailures(rows[..n], groups, outcome) +
      (if IsBlank(rows[n]) then [] else GroupFailures(groups, outcome, SendCount(rows[..n], |groups|)))
  }

  lemma FailuresOfAttempt(group: Entity, message: string, image: string,
                          pathExists: string -> bool, outcome: Outcome)
    ensures Filter(Attempt(group, message, image, pathExists, outcome), IsFailureEvent) ==
            if outcome.Fail? then [Log(SendFailed(group.title, outcome.error))] else []
  {
    var attempt := Attempt(group, message, image, pathExists, outcome);
    var request := Request(group, message, image, pathExists);
    assert attempt == [request] + attempt[1..];
    FilterAppend([request], attempt[1..], IsFailureEvent);
    assert [request][..0] == [];
    if outcome.Fail? {
      assert attempt[1..] == [Log(SendFailed(group.title, outcome.error))];
      assert attempt[1..][..0] == [];
    } else {
      FilterNone(attempt[1..], IsFailureEvent);
    }
  }

  lemma {:induction false} FailuresOfGroupsTrace(groups: seq<Entity>, message: string, image: string,
                                                 pathExists: string -> bool, outcome: nat -> Outcome,
                                                 base: nat)
    ensures Filter(GroupsTrace(groups, message, image, pathExists, outcome, base), IsFailureEvent) ==
            GroupFailures(groups, outcome, base)
  {
    if groups != [] {
      var n := |groups| - 1;
      var init := GroupsTrace(groups[..n], message, image, pathExists, outcome, base);
      var attempt := Attempt(groups[n], message, image, pathExists, outcome(base + n));
      assert GroupsTrace(groups, message, image, pathExists, outcome, base) == init + attempt;
      assert Filter(init + attempt, IsFailureEvent) ==
             GroupFailures(groups[..n], outcome, base) + Filter(attempt, IsFailureEvent) by {
        FilterAppend(init, attempt, IsFailureEvent);
        FailuresOfGroupsTrace(groups[..n], message, image, pathExists, outcome, base);
      }
      FailuresOfAttempt(groups[n], message, image, pathExists, outcome(base + n));
    }
  }

  lemma {:induction false} FailuresOfRowsTrace(rows: seq<StrippedRow>, groups: seq<Entity>, delay: int,
                                               pathExists: string -> bool, outcome: nat -> Outcome)
    ensures Filter(RowsTrace(rows, groups, delay, pathExists, outcome), IsFailureEvent) ==
            PlannedFailures(rows, groups, outcome)
  {
    if rows != [] {
      var n := |rows| - 1;
      var row := rows[n];
      var base := SendCount(rows[..n], |groups|);
      FailuresOfRowsTrace(rows[..n], groups, delay, pathExists, outcome);
      FilterAppend(RowsTrace(rows[..n], groups, delay, pathExists, outcome),
                   RowTrace(row, groups, delay, pathExists, outcome, base), IsFailureEvent);
      if !IsBlank(row) {
        FilterAppend(GroupsTrace(groups, row.message, row.image, pathExists, outcome, base),
                     Ticks(delay), IsFailureEvent);
        FailuresOfGroupsTrace(groups, row.message, row.image, pathExists, outcome, base);
        TicksHaveNoLines(delay);
        FilterNone(Ticks(delay), IsFailureEvent);
      } else {
        assert Filter([], IsFailureEvent) == [];
      }
    }
  }

  /** The failure lines of a run are exactly one `SendFailed` naming the
      group and the error for each (non-blank row, group) send the client
      answered with an error other than a flood wait, in the order of the
      sends, and none when there is no group (client_win.py:65-66). */
  lemma RunFailures(groups: seq<Entity>, rows: seq<StrippedRow>, delay: int,
                    pathExists: string -> bool, outcome: nat -> Outcome)
    ensures Filter(Run(groups, rows, delay, pathExists, outcome), IsFailureEvent) ==
            if groups == [] then [] else PlannedFailures(rows, groups, outcome)
  {
    var header := [Log(FoundGroups(|groups|))];
    FilterNone(header, IsFailureEvent);
    if groups == [] {
      FilterNone(Run(groups, rows, delay, pathExists, outcome), IsFailureEvent);
    } else {
      var middle := RowsTrace(rows, groups, delay, pathExists, outcome);
      FilterAppend(header, middle + [Log(AllSent)], IsFailureEvent);
      FilterAppend(middle, [Log(AllSent)], IsFailureEvent);
      FilterNone([Log(AllSent)], IsFailureEvent);
      FailuresOfRowsTrace(rows, groups, delay, pathExists, outcome);
      assert header + (middle + [Log(AllSent)]) == Run(groups, rows, delay, pathExists, outcome);
    }
  }

  // ---------------------------------------------------------------------
  // Blank rows

  lemma {:induction false} NonBlankAppend(a: seq<StrippedRow>, b: seq<StrippedRow>)
    ensures NonBlank(a + b) == NonBlank(a) + NonBlank(b)
  {
    if b == [] {
      assert a + b == a;
    } else {
      var n := |b| - 1;
      assert (a + b)[..|a + b| - 1] == a + b[..n];
      NonBlankAppend(a, b[..n]);
    }
  }

  lemma {:induction false} NonBlankKeepsNonBlank(rows: seq<StrippedRow>)
    requires forall k :: 0 <= k < |rows| ==> !IsBlank(rows[k])
    ensures NonBlank(rows) == rows
  {
    if rows != [] {
      var n := |rows| - 1;
      NonBlankKeepsNonBlank(rows[..n]);
      assert rows[..n] + [rows[n]] == rows;
    }
  }

  lemma {:induction false} RowsTraceOfNonBlank(rows: seq<StrippedRow>, groups: seq<Entity>, delay: int,
                                               pathExists: string -> bool, outcome: nat -> Outcome)
    ensures RowsTrace(NonBlank(rows), groups, delay, pathExists, outcome) ==
            RowsTrace(rows, groups, delay, pathExists, outcome)
    ensures SendCount(NonBlank(rows), |groups|) == SendCount(rows, |groups|)
  {
    if rows != [] {
      var n := |rows| - 1;
      var init, last := rows[..n], rows[n];
      var kept := NonBlank(init);
      RowsTraceOfNonBlank(init, groups, delay, pathExists, outcome);
      if !IsBlank(last) {
        var grown := kept + [last];
        assert NonBlank(rows) == grown;
        RowsTraceStep(grown, |kept|, groups, delay, pathExists, outcome);
        assert grown[..|kept| + 1] == grown && grown[..|kept|] == kept;
        assert SendCount(grown, |groups|) == SendCount(kept, |groups|) + |groups|;
        assert RowsTrace(grown, groups, delay, pathExists, outcome) ==
               RowsTrace(kept, groups, delay, pathExists, outcome) +
               RowTrace(last, groups, delay, pathExists, outcome, SendCount(kept, |groups|));
      } else {
        assert NonBlank(rows) == kept;
        assert RowsTrace(rows, groups, delay, pathExists, outcome) ==
               RowsTrace(init, groups, delay, pathExists, outcome);
      }
    }
  }

  /** Blank rows leave no trace: the run over the rows is the run over the
      non-blank rows alone, so a row whose stripped message is empty causes
      no send, no log line and no countdown (client_win.py:48-52). */
  lemma BlankRowsLeaveNoTrace(groups: seq<Entity>, rows: seq<StrippedRow>, delay: int,
                              pathExists: string -> bool, outcome: nat -> Outcome)
    ensures Run(groups, rows, delay, pathExists, outcome) ==
            Run(groups, NonBlank(rows), delay, pathExists, outcome)
  {
    RowsTraceOfNonBlank(rows, groups, delay, pathExists, outcome);
  }

  lemma PreparedInsert(before: seq<Row>, row: Row, after: seq<Row>)
    ensures Prepared(before + [row] + after) == Prepared(before) + [Prepare(row)] + Prepared(after)
    ensures Prepared(before + after) == Prepared(before) + Prepared(after)
  {
  }

  lemma NonBlankSkips(before: seq<StrippedRow>, line: StrippedRow, after: seq<StrippedRow>)
    requires IsBlank(line)
    ensures NonBlank(before + [line] + after) == NonBlank(before + after)
  {
    NonBlankAppend(before + [line], after);
    NonBlankAppend(before, [line]);
    NonBlankAppend(before, after);
    assert NonBlank([line]) == [] by { assert [line][..0] == []; }
  }

  /** Inserting into the CSV file a row whose message cell is missing, empty
      or whitespace, anywhere, changes nothing in the run. */
  lemma BlankRowAnywhere(groups: seq<Entity>, before: seq<Row>, row: Row, after: seq<Row>,
                         delay: int, pathExists: string -> bool, outcome: nat -> Outcome)
    requires AllSpace(Field(row, "message"))
    ensures Run(groups, Prepared(before + [row] + after), delay, pathExists, outcome) ==
            Run(groups, Prepared(before + after), delay, pathExists, outcome)
  {
    var pb, pa := Prepared(before), Prepared(after);
    BlankIffWhitespace(row);
    PreparedInsert(before, row, after);
    NonBlankSkips(pb, Prepare(row), pa);
    BlankRowsLeaveNoTrace(groups, pb + [Prepare(row)] + pa, delay, pathExists, outcome);
    BlankRowsLeaveNoTrace(groups, pb + pa, delay, pathExists, outcome);
  }

  // ---------------------------------------------------------------------
  // The sends: how many, in which order, media or text

  /** The send of `row` to each of `groups`, in roster order. */
  function RowSends(row: StrippedRow, groups: seq<Entity>, pathExists: string -> bool): seq<Event> {
    seq(|groups|, j requires 0 <= j < |groups| =>
          Request(groups[j], row.message, row.image, pathExists))
  }

  /** The sends a run is meant to issue: for every non-blank row, in file
      order, one send to every group, in roster order. */
  function Planned(rows: seq<StrippedRow>, groups: seq<Entity>, pathExists: string -> bool): seq<Event> {
    if rows == [] then []
    else
      var n := |rows| - 1;
      Planned(rows[..n], groups, pathExists) +
      (if IsBlank(rows[n]) then [] else RowSends(rows[n], groups, pathExists))
  }

  lemma SendsOfAttempt(group: Entity, message: string, image: string,
                       pathExists: string -> bool, outcome: Outcome)
    ensures Sends(Attempt(group, message, image, pathExists, outcome)) ==
            [Request(group, message, image, pathExists)]
  {
    var request := Request(group, message, image, pathExists);
    var attempt := Attempt(group, message, image, pathExists, outcome);
    var handled := attempt[1..];
    assert attempt == [request] + handled;
    FilterAppend([request], handled, IsSendEvent);
    assert [request][..0] == [];
    FilterNone(handled, IsSendEvent);
  }

  lemma {:induction false} SendsOfGroupsTrace(groups: seq<Entity>, message: string, image: string,
                                              pathExists: string -> bool, outcome: nat -> Outcome,
                                              base: nat)
    ensures Sends(GroupsTrace(groups, message, image, pathExists, outcome, base)) ==
            seq(|groups|, j requires 0 <= j < |groups| => Request(groups[j], message, image, pathExists))
  {
    if groups != [] {
      var n := |groups| - 1;
      var init := groups[..n];
      SendsOfGroupsTrace(init, message, image, pathExists, outcome, base);
      FilterAppend(GroupsTrace(init, message, image, pathExists, outcome, base),
                   Attempt(groups[n], message, image, pathExists, outcome(base + n)), IsSendEvent);
      SendsOfAttempt(groups[n], message, image, pathExists, outcome(base + n));
    }
  }

  lemma {:induction false} SendsOfRowsTrace(rows: seq<StrippedRow>, groups: seq<Entity>, delay: int,
                                            pathExists: string -> bool, outcome: nat -> Outcome)
    ensures Sends(RowsTrace(rows, groups, delay, pathExists, outcome)) == Planned(rows, groups, pathExists)
  {
    if rows != [] {
      var n := |rows| - 1;
      var row := rows[n];
      SendsOfRowsTrace(rows[..n], groups, delay, pathExists, outcome);
      var base := SendCount(rows[..n], |groups|);
      FilterAppend(RowsTrace(rows[..n], groups, delay, pathExists, outcome),
                   RowTrace(row, groups, delay, pathExists, outcome, base), IsSendEvent);
      if !IsBlank(row) {
        var sends := GroupsTrace(groups, row.message, row.image, pathExists, outcome, base);
        FilterAppend(sends, Ticks(delay), IsSendEvent);
        SendsOfGroupsTrace(groups, row.message, row.image, pathExists, outcome, base);
        TicksHaveNoLines(delay);
        FilterNone(Ticks(delay), IsSendEvent);
      } else {
        assert Filter([], IsSendEvent) == [];
      }
    }
  }

  /** The sends of a run are the planned ones whatever the client answers:
      none without a group, otherwise one per (non-blank row, group) pair in
      row-major order, none repeated (client_win.py:47-66). */
  lemma RunSends(groups: seq<Entity>, rows: seq<StrippedRow>, delay: int,
                 pathExists: string -> bool, outcome: nat -> Outcome)
    ensures Sends(Run(groups, rows, delay, pathExists, outcome)) ==
            if groups == [] then [] else Planned(rows, groups, pathExists)
  {
    var header := [Log(FoundGroups(|groups|))];
    assert Filter(header, IsSendEvent) == [] by { FilterNone(header, IsSendEvent); }
    if groups == [] {
      FilterNone(Run(groups, rows, delay, pathExists, outcome), IsSendEvent);
    } else {
      var middle := RowsTrace(rows, groups, delay, pathExists, outcome);
      FilterAppend(header, middle + [Log(AllSent)], IsSendEvent);
      FilterAppend(middle, [Log(AllSent)], IsSendEvent);
      FilterNone([Log(AllSent)], IsSendEvent);
      SendsOfRowsTrace(rows, groups, delay, pathExists, outcome);
      assert header + (middle + [Log(AllSent)]) == Run(groups, rows, delay, pathExists, outcome);
    }
  }

  lemma MulSucc(k: nat, width: nat)
    ensures (k + 1) * width == k * width + width
  {
  }

  /** Row-major indexing stays inside the product. */
  lemma RowMajorBound(i: nat, j: nat, rows: nat, width: nat)
    requires i < rows && j < width
    ensures i * width + j < rows * width
  {
    assert (i + 1) * width <= rows * width;
  }

  /** The plan has `width` sends per non-blank row, and its send number
      `i * |groups| + j` takes the i-th non-blank row to the j-th group: a
      media send with the row's stripped message as caption when the
      stripped image path is non-empty and exists, a text send of that
      message otherwise (client_win.py:54-61). */
  lemma {:induction false} PlannedSend(rows: seq<StrippedRow>, groups: seq<Entity>, pathExists: string -> bool,
                                       i: nat, j: nat)
    requires i < |NonBlank(rows)| && j < |groups|
    ensures |Planned(rows, groups, pathExists)| == |NonBlank(rows)| * |groups|
    ensures i * |groups| + j < |NonBlank(rows)| * |groups|
    ensures var row := NonBlank(rows)[i];
            var message, image := row.message, row.image;
            Planned(rows, groups, pathExists)[i * |groups| + j] ==
              if image != "" && pathExists(image) then SendMedia(groups[j].id, image, message)
              else SendText(groups[j].id, message)
  {
    var n := |rows| - 1;
    var init := rows[..n];
    var kept := NonBlank(init);
    var w := |groups|;
    PlannedLength(rows, groups, pathExists);
    RowMajorBound(i, j, |NonBlank(rows)|, w);
    if IsBlank(rows[n]) {
      PlannedSend(init, groups, pathExists, i, j);
    } else {
      assert NonBlank(rows) == kept + [rows[n]];
      if i < |kept| {
        PlannedSend(init, groups, pathExists, i, j);
      } else {
        PlannedLength(init, groups, pathExists);
      }
    }
  }

  lemma {:induction false} PlannedCount(rows: seq<StrippedRow>, groups: seq<Entity>, pathExists: string -> bool)
    ensures |Planned(rows, groups, pathExists)| == SendCount(rows, |groups|)
  {
    if rows != [] {
      PlannedCount(rows[..|rows| - 1], groups, pathExists);
    }
  }

  /** The plan has one send per (non-blank row, group) pair. */
  lemma PlannedLength(rows: seq<StrippedRow>, groups: seq<Entity>, pathExists: string -> bool)
    ensures |Planned(rows, groups, pathExists)| == |NonBlank(rows)| * |groups|
  {
    PlannedCount(rows, groups, pathExists);
    SendCountIsProduct(rows, |groups|);
  }

  /** The number of sends of a run is the number of non-blank rows times the
      number of groups, with no retry ever (client_win.py:47, 54-66). */
  lemma SendCountOfRun(groups: seq<Entity>, rows: seq<StrippedRow>, delay: int,
                       pathExists: string -> bool, outcome: nat -> Outcome)
    ensures |Sends(Run(groups, rows, delay, pathExists, outcome))| ==
            |NonBlank(rows)| * |groups|
  {
    RunSends(groups, rows, delay, pathExists, outcome);
    PlannedLength(rows, groups, pathExists);
  }

  /** Error isolation: which sends happen, and in which order, does not
      depend on what the client answers nor on the delay
      (client_win.py:62-66). */
  lemma SendsIgnoreOutcomes(groups: seq<Entity>, rows: seq<StrippedRow>, delay1: int, delay2: int,
                            pathExists: string -> bool, outcome1: nat -> Outcome,
                            outcome2: nat -> Outcome)
    ensures Sends(Run(groups, rows, delay1, pathExists, outcome1)) ==
            Sends(Run(groups, rows, delay2, pathExists, outcome2))
  {
    RunSends(groups, rows, delay1, pathExists, outcome1);
    RunSends(groups, rows, delay2, pathExists, outcome2);
  }

  /** A missing or whitespace-only image cell, or a path that does not
      exist, gives a plain text send of the stripped message
      (client_win.py:49, 56, 60). */
  lemma TextSendWithoutImage(row: Row, group: Entity, pathExists: string -> bool)
    requires AllSpace(Field(row, "image")) || !pathExists(Prepare(row).image)
    ensures var line := Prepare(row);
            Request(group, line.message, line.image, pathExists) == SendText(group.id, line.message)
  {
    StripSpec(Field(row, "image"));
  }

  // ---------------------------------------------------------------------
  // Where each attempt stands in the run

  lemma {:induction false} GroupsTracePrefix(groups: seq<Entity>, k: nat, message: string, image: string,
                                             pathExists: string -> bool, outcome: nat -> Outcome, base: nat)
    requires k <= |groups|
    ensures GroupsTrace(groups[..k], message, image, pathExists, outcome, base) <=
            GroupsTrace(groups, message, image, pathExists, outcome, base)
    decreases |groups| - k
  {
    if k < |groups| {
      var n := |groups| - 1;
      GroupsTracePrefix(groups[..n], k, message, image, pathExists, outcome, base);
      assert groups[..n][..k] == groups[..k];
    } else {
      assert groups[..k] == groups;
    }
  }

  lemma {:induction false} RowsTracePrefix(rows: seq<StrippedRow>, k: nat, groups: seq<Entity>, delay: int,
                                           pathExists: string -> bool, outcome: nat -> Outcome)
    requires k <= |rows|
    ensures RowsTrace(rows[..k], groups, delay, pathExists, outcome) <=
            RowsTrace(rows, groups, delay, pathExists, outcome)
    decreases |rows| - k
  {
    if k < |rows| {
      var n := |rows| - 1;
      RowsTracePrefix(rows[..n], k, groups, delay, pathExists, outcome);
      assert rows[..n][..k] == rows[..k];
    } else {
      assert rows[..k] == rows;
    }
  }

  lemma {:induction false} SendCountIsProduct(rows: seq<StrippedRow>, width: nat)
    ensures SendCount(rows, width) == |NonBlank(rows)| * width
  {
    if rows != [] {
      var n := |rows| - 1;
      SendCountIsProduct(rows[..n], width);
      MulSucc(|NonBlank(rows[..n])|, width);
    }
  }

  /** The ordinal of the first send of the i-th non-blank row, for a roster
      of `width` groups: `width` sends for each earlier non-blank row. The
      position lemmas below use it in place of the product `i * width`,
      which `RowOrdinalIsProduct` shows it equals. */
  function RowOrdinal(i: nat, width: nat): nat {
    if i == 0 then 0 else RowOrdinal(i - 1, width) + width
  }

  lemma {:induction false} RowOrdinalIsProduct(i: nat, width: nat)
    ensures RowOrdinal(i, width) == i * width
  {
    if i > 0 {
      RowOrdinalIsProduct(i - 1, width);
      MulSucc(i - 1, width);
    }
  }

  /** Over rows that are all non-blank, the loop's send counter after `k`
      rows is the ordinal of row `k`. */
  lemma {:induction false} SendCountOfNonBlank(rows: seq<StrippedRow>, width: nat)
    requires forall k :: 0 <= k < |rows| ==> !IsBlank(rows[k])
    ensures SendCount(rows, width) == RowOrdinal(|rows|, width)
  {
    if rows != [] {
      SendCountOfNonBlank(rows[..|rows| - 1], width);
    }
  }

  /** The events of the first `k` groups of a row open the row's events
      and hold its first `k` sends. */
  lemma GroupsTraceHead(groups: seq<Entity>, k: nat, message: string, image: string,
                        pathExists: string -> bool, outcome: nat -> Outcome, base: nat)
    requires k <= |groups|
    ensures var head := GroupsTrace(groups[..k], message, image, pathExists, outcome, base);
            var all := GroupsTrace(groups, message, image, pathExists, outcome, base);
            |head| <= |all| && all == head + all[|head|..] && |Sends(head)| == k
  {
    GroupsTracePrefix(groups, k, message, image, pathExists, outcome, base);
    SendsOfGroupsTrace(groups[..k], message, image, pathExists, outcome, base);
  }

  /** The events of the first `k` rows open the row loop's events and hold
      as many sends as the loop's send counter after those rows. */
  lemma RowsTraceHead(rows: seq<StrippedRow>, k: nat, groups: seq<Entity>, delay: int,
                      pathExists: string -> bool, outcome: nat -> Outcome)
    requires k <= |rows|
    ensures var head := RowsTrace(rows[..k], groups, delay, pathExists, outcome);
            var all := RowsTrace(rows, groups, delay, pathExists, outcome);
            |head| <= |all| && all == head + all[|head|..] &&
            |Sends(head)| == SendCount(rows[..k], |groups|)
  {
    RowsTracePrefix(rows, k, groups, delay, pathExists, outcome);
    SendsOfRowsTrace(rows[..k], groups, delay, pathExists, outcome);
    PlannedCount(rows[..k], groups, pathExists);
  }

  /** The row loop's events sit in the run between the count line and the
      completion line, so none of the run's sends precedes them. */
  lemma RowsTraceInRun(groups: seq<Entity>, rows: seq<StrippedRow>, delay: int,
                       pathExists: string -> bool, outcome: nat -> Outcome)
    requires groups != []
    ensures Run(groups, rows, delay, pathExists, outcome) ==
            [Log(FoundGroups(|groups|))] + RowsTrace(rows, groups, delay, pathExists, outcome) +
            [Log(AllSent)]
    ensures OccursAfter(RowsTrace(rows, groups, delay, pathExists, outcome),
                        Run(groups, rows, delay, pathExists, outcome), 0)
  {
    var header := [Log(FoundGroups(|groups|))];
    FilterNone(header, IsSendEvent);
    OccursAfterConcat(header, RowsTrace(rows, groups, delay, pathExists, outcome), [Log(AllSent)]);
  }

  /** Over rows that are all non-blank, row i adds its block to the events
      of the rows before it, which hold `RowOrdinal(i, |groups|)` sends. */
  lemma KeptRowBlock(kept: seq<StrippedRow>, i: nat, groups: seq<Entity>, delay: int,
                     pathExists: string -> bool, outcome: nat -> Outcome)
    requires forall k :: 0 <= k < |kept| ==> !IsBlank(kept[k])
    requires i < |kept|
    ensures var head := RowsTrace(kept[..i], groups, delay, pathExists, outcome);
            RowsTrace(kept[..i + 1], groups, delay, pathExists, outcome) ==
              head + (GroupsTrace(groups, kept[i].message, kept[i].image, pathExists, outcome,
                                  RowOrdinal(i, |groups|)) + Ticks(delay)) &&
            |Sends(head)| == RowOrdinal(i, |groups|)
  {
    assert SendCount(kept[..i], |groups|) == RowOrdinal(i, |groups|) by {
      SendCountOfNonBlank(kept[..i], |groups|);
    }
    RowsTraceStep(kept, i, groups, delay, pathExists, outcome);
    RowsTraceHead(kept, i, groups, delay, pathExists, outcome);
  }

  /** The events of the i-th non-blank row form one block of the row loop's
      events, right after the earlier rows' `RowOrdinal(i, |groups|)` sends
      (which is `i * |groups|`); that is also the ordinal its first send
      hands to the outcome oracle. */
  lemma RowBlockInRows(groups: seq<Entity>, rows: seq<StrippedRow>, delay: int,
                       pathExists: string -> bool, outcome: nat -> Outcome, i: nat)
    requires i < |NonBlank(rows)|
    ensures var row := NonBlank(rows)[i];
            OccursAfter(GroupsTrace(groups, row.message, row.image, pathExists, outcome,
                                    RowOrdinal(i, |groups|)) + Ticks(delay),
                        RowsTrace(rows, groups, delay, pathExists, outcome), RowOrdinal(i, |groups|))
  {
    var kept := NonBlank(rows);
    var row := kept[i];
    var block := GroupsTrace(groups, row.message, row.image, pathExists, outcome,
                             RowOrdinal(i, |groups|)) + Ticks(delay);
    var head := RowsTrace(kept[..i], groups, delay, pathExists, outcome);
    var upTo := RowsTrace(kept[..i + 1], groups, delay, pathExists, outcome);
    var all := RowsTrace(rows, groups, delay, pathExists, outcome);
    KeptRowBlock(kept, i, groups, delay, pathExists, outcome);
    assert |upTo| <= |all| && all == upTo + all[|upTo|..] by {
      RowsTraceOfNonBlank(rows, groups, delay, pathExists, outcome);
      RowsTraceHead(kept, i + 1, groups, delay, pathExists, outcome);
    }
    assert all == head + block + all[|upTo|..];
    OccursAfterSplit(block, all, head, all[|upTo|..], RowOrdinal(i, |groups|));
  }

  /** The events of the i-th non-blank row (its sends to every group and
      then its countdown) form one block of the run, right after the run's
      first `RowOrdinal(i, |groups|)` sends. */
  lemma RowBlockInRun(groups: seq<Entity>, rows: seq<StrippedRow>, delay: int,
                      pathExists: string -> bool, outcome: nat -> Outcome, i: nat)
    requires groups != [] && i < |NonBlank(rows)|
    ensures var row := NonBlank(rows)[i];
            OccursAfter(GroupsTrace(groups, row.message, row.image, pathExists, outcome,
                                    RowOrdinal(i, |groups|)) + Ticks(delay),
                        Run(groups, rows, delay, pathExists, outcome), RowOrdinal(i, |groups|))
  {
    var row := NonBlank(rows)[i];
    RowBlockInRows(groups, rows, delay, pathExists, outcome, i);
    RowsTraceInRun(groups, rows, delay, pathExists, outcome);
    OccursAfterTransitive(GroupsTrace(groups, row.message, row.image, pathExists, outcome,
                                      RowOrdinal(i, |groups|)) + Ticks(delay),
                          RowsTrace(rows, groups, delay, pathExists, outcome),
                          Run(groups, rows, delay, pathExists, outcome), RowOrdinal(i, |groups|), 0);
  }

  /** Whatever occurs after `k` sends of the i-th non-blank row's block
      occurs after `RowOrdinal(i, |groups|) + k` sends of the run. */
  lemma InRowBlockInRun(x: seq<Event>, groups: seq<Entity>, rows: seq<StrippedRow>, delay: int,
                        pathExists: string -> bool, outcome: nat -> Outcome, i: nat, k: nat)
    requires groups != [] && i < |NonBlank(rows)|
    requires var row := NonBlank(rows)[i];
             OccursAfter(x, GroupsTrace(groups, row.message, row.image, pathExists, outcome,
                                        RowOrdinal(i, |groups|)) + Ticks(delay), k)
    ensures OccursAfter(x, Run(groups, rows, delay, pathExists, outcome), RowOrdinal(i, |groups|) + k)
  {
    var row := NonBlank(rows)[i];
    RowBlockInRun(groups, rows, delay, pathExists, outcome, i);
    OccursAfterTransitive(x, GroupsTrace(groups, row.message, row.image, pathExists, outcome,
                                         RowOrdinal(i, |groups|)) + Ticks(delay),
                          Run(groups, rows, delay, pathExists, outcome), k, RowOrdinal(i, |groups|));
  }

  /** The events of the first j + 2 groups end with the attempts for groups
      j and j + 1. */
  lemma GroupsTracePair(groups: seq<Entity>, j: nat, message: string, image: string,
                        pathExists: string -> bool, outcome: nat -> Outcome, base: nat)
    requires j + 1 < |groups|
    ensures GroupsTrace(groups[..j + 2], message, image, pathExists, outcome, base) ==
            GroupsTrace(groups[..j], message, image, pathExists, outcome, base) +
            (Attempt(groups[j], message, image, pathExists, outcome(base + j)) +
             Attempt(groups[j + 1], message, image, pathExists, outcome(base + j + 1)))
  {
    GroupsTraceStep(groups, j, message, image, pathExists, outcome, base);
    GroupsTraceStep(groups, j + 1, message, image, pathExists, outcome, base);
  }

  /** Within one row's block, the attempt for group j + 1 directly follows
      the attempt for group j, which follows the row's first j sends. */
  lemma PairInRowBlock(groups: seq<Entity>, message: string, image: string, delay: int,
                       pathExists: string -> bool, outcome: nat -> Outcome, base: nat, j: nat)
    requires j + 1 < |groups|
    ensures OccursAfter(Attempt(groups[j], message, image, pathExists, outcome(base + j)) +
                        Attempt(groups[j + 1], message, image, pathExists, outcome(base + j + 1)),
                        GroupsTrace(groups, message, image, pathExists, outcome, base) + Ticks(delay), j)
  {
    var pair := Attempt(groups[j], message, image, pathExists, outcome(base + j)) +
                Attempt(groups[j + 1], message, image, pathExists, outcome(base + j + 1));
    var head := GroupsTrace(groups[..j], message, image, pathExists, outcome, base);
    var upTo := GroupsTrace(groups[..j + 2], message, image, pathExists, outcome, base);
    var all := GroupsTrace(groups, message, image, pathExists, outcome, base);
    GroupsTracePair(groups, j, message, image, pathExists, outcome, base);
    assert |Sends(head)| == j by {
      GroupsTraceHead(groups, j, message, image, pathExists, outcome, base);
    }
    assert |upTo| <= |all| && all == upTo + all[|upTo|..] by {
      GroupsTraceHead(groups, j + 2, message, image, pathExists, outcome, base);
    }
    var rest := all[|upTo|..] + Ticks(delay);
    assert all + Ticks(delay) == head + pair + rest;
    OccursAfterSplit(pair, all + Ticks(delay), head, rest, j);
  }

  /** Within one row's block, the attempt for the last group follows the
      other groups' sends and is directly followed by the countdown. */
  lemma LastInRowBlock(groups: seq<Entity>, message: string, image: string, delay: int,
                       pathExists: string -> bool, outcome: nat -> Outcome, base: nat)
    requires groups != []
    ensures var last := |groups| - 1;
            OccursAfter(Attempt(groups[last], message, image, pathExists, outcome(base + last)) +
                        Ticks(delay),
                        GroupsTrace(groups, message, image, pathExists, outcome, base) + Ticks(delay),
                        last)
  {
    var last := |groups| - 1;
    var final := Attempt(groups[last], message, image, pathExists, outcome(base + last));
    var head := GroupsTrace(groups[..last], message, image, pathExists, outcome, base);
    var all := GroupsTrace(groups, message, image, pathExists, outcome, base);
    assert all == head + final by {
      GroupsTraceStep(groups, last, message, image, pathExists, outcome, base);
      assert groups[..last + 1] == groups;
    }
    assert |Sends(head)| == last by {
      SendsOfGroupsTrace(groups[..last], message, image, pathExists, outcome, base);
    }
    assert all + Ticks(delay) == head + (final + Ticks(delay)) + [];
    OccursAfterSplit(final + Ticks(delay), all + Ticks(delay), head, [], last);
  }

  /** Within one row's block, the attempt for group j appears whole right
      after the row's first j sends. */
  lemma AttemptInRowBlock(groups: seq<Entity>, message: string, image: string, delay: int,
                          pathExists: string -> bool, outcome: nat -> Outcome, base: nat, j: nat)
    requires j < |groups|
    ensures OccursAfter(Attempt(groups[j], message, image, pathExists, outcome(base + j)),
                        GroupsTrace(groups, message, image, pathExists, outcome, base) + Ticks(delay), j)
  {
    var attempt := Attempt(groups[j], message, image, pathExists, outcome(base + j));
    var block := GroupsTrace(groups, message, image, pathExists, outcome, base) + Ticks(delay);
    if j + 1 < |groups| {
      var around := attempt + Attempt(groups[j + 1], message, image, pathExists, outcome(base + j + 1));
      PairInRowBlock(groups, message, image, delay, pathExists, outcome, base, j);
      OccursAtStart(attempt, around);
      OccursAfterTransitive(attempt, around, block, 0, j);
    } else {
      var around := attempt + Ticks(delay);
      LastInRowBlock(groups, message, image, delay, pathExists, outcome, base);
      OccursAtStart(attempt, around);
      OccursAfterTransitive(attempt, around, block, 0, j);
    }
  }

  /** Within one row's block, a flood wait on group j is followed by its wait
      line, its sleep and the send to group j + 1. */
  lemma FloodWaitInRowBlock(groups: seq<Entity>, message: string, image: string, delay: int,
                            pathExists: string -> bool, outcome: nat -> Outcome, base: nat,
                            j: nat, n: int)
    requires j + 1 < |groups| && outcome(base + j) == FloodWait(n)
    ensures OccursAfter([Request(groups[j], message, image, pathExists), Log(FloodWaiting(n)), Sleep(n),
                         Request(groups[j + 1], message, image, pathExists)],
                        GroupsTrace(groups, message, image, pathExists, outcome, base) + Ticks(delay), j)
  {
    var pair := Attempt(groups[j], message, image, pathExists, outcome(base + j)) +
                Attempt(groups[j + 1], message, image, pathExists, outcome(base + j + 1));
    var shown := [Request(groups[j], message, image, pathExists), Log(FloodWaiting(n)), Sleep(n),
                  Request(groups[j + 1], message, image, pathExists)];
    assert shown == pair[..4];
    OccursAtStart(shown, pair);
    PairInRowBlock(groups, message, image, delay, pathExists, outcome, base, j);
    OccursAfterTransitive(shown, pair,
                          GroupsTrace(groups, message, image, pathExists, outcome, base) + Ticks(delay), 0, j);
  }

  /** Within one row's block, a failure on group j is followed by its failure
      line and the send to group j + 1. */
  lemma FailureInRowBlock(groups: seq<Entity>, message: string, image: string, delay: int,
                          pathExists: string -> bool, outcome: nat -> Outcome, base: nat,
                          j: nat, error: string)
    requires j + 1 < |groups| && outcome(base + j) == Fail(error)
    ensures OccursAfter([Request(groups[j], message, image, pathExists), Log(SendFailed(groups[j].title, error)),
                         Request(groups[j + 1], message, image, pathExists)],
                        GroupsTrace(groups, message, image, pathExists, outcome, base) + Ticks(delay), j)
  {
    var pair := Attempt(groups[j], message, image, pathExists, outcome(base + j)) +
                Attempt(groups[j + 1], message, image, pathExists, outcome(base + j + 1));
    var shown := [Request(groups[j], message, image, pathExists), Log(SendFailed(groups[j].title, error)),
                  Request(groups[j + 1], message, image, pathExists)];
    assert shown == pair[..3];
    OccursAtStart(shown, pair);
    PairInRowBlock(groups, message, image, delay, pathExists, outcome, base, j);
    OccursAfterTransitive(shown, pair,
                          GroupsTrace(groups, message, image, pathExists, outcome, base) + Ticks(delay), 0, j);
  }

  /** Flood wait: send number `i * |groups| + j` of the run, one wait line
      carrying `n`, one sleep of `n` seconds, and then the send to the next
      group of the same row; the group that was told to wait is not sent to
      again (client_win.py:62-64). */
  lemma FloodWaitMovesOn(groups: seq<Entity>, rows: seq<StrippedRow>, delay: int,
                         pathExists: string -> bool, outcome: nat -> Outcome, i: nat, j: nat, n: int)
    requires i < |NonBlank(rows)| && j + 1 < |groups|
    requires outcome(RowOrdinal(i, |groups|) + j) == FloodWait(n)
    ensures var row := NonBlank(rows)[i];
            var m, img := row.message, row.image;
            OccursAfter([Request(groups[j], m, img, pathExists), Log(FloodWaiting(n)), Sleep(n),
                         Request(groups[j + 1], m, img, pathExists)],
                        Run(groups, rows, delay, pathExists, outcome), RowOrdinal(i, |groups|) + j)
  {
    var row := NonBlank(rows)[i];
    var m, img, base := row.message, row.image, RowOrdinal(i, |groups|);
    FloodWaitInRowBlock(groups, m, img, delay, pathExists, outcome, base, j, n);
    InRowBlockInRun([Request(groups[j], m, img, pathExists), Log(FloodWaiting(n)), Sleep(n),
                     Request(groups[j + 1], m, img, pathExists)],
                    groups, rows, delay, pathExists, outcome, i, j);
  }

  /** Error isolation: a failed send, number `i * |groups| + j` of the run,
      is reported once, naming the group and the error, and the next group
      of the row is still sent to (client_win.py:65-66). */
  lemma FailureMovesOn(groups: seq<Entity>, rows: seq<StrippedRow>, delay: int,
                       pathExists: string -> bool, outcome: nat -> Outcome, i: nat, j: nat, error: string)
    requires i < |NonBlank(rows)| && j + 1 < |groups|
    requires outcome(RowOrdinal(i, |groups|) + j) == Fail(error)
    ensures var row := NonBlank(rows)[i];
            var m, img := row.message, row.image;
            OccursAfter([Request(groups[j], m, img, pathExists), Log(SendFailed(groups[j].title, error)),
                         Request(groups[j + 1], m, img, pathExists)],
                        Run(groups, rows, delay, pathExists, outcome), RowOrdinal(i, |groups|) + j)
  {
    var row := NonBlank(rows)[i];
    var m, img, base := row.message, row.image, RowOrdinal(i, |groups|);
    FailureInRowBlock(groups, m, img, delay, pathExists, outcome, base, j, error);
    InRowBlockInRun([Request(groups[j], m, img, pathExists), Log(SendFailed(groups[j].title, error)),
                     Request(groups[j + 1], m, img, pathExists)],
                    groups, rows, delay, pathExists, outcome, i, j);
  }

  /** Every attempt of the run, whatever its outcome, stands in the trace as
      send number `i * |groups| + j` with the handling of the oracle's answer
      for that ordinal right after it. */
  lemma AttemptInRun(groups: seq<Entity>, rows: seq<StrippedRow>, delay: int,
                     pathExists: string -> bool, outcome: nat -> Outcome, i: nat, j: nat)
    requires i < |NonBlank(rows)| && j < |groups|
    ensures var row := NonBlank(rows)[i];
            OccursAfter(Attempt(groups[j], row.message, row.image, pathExists,
                                outcome(RowOrdinal(i, |groups|) + j)),
                        Run(groups, rows, delay, pathExists, outcome), RowOrdinal(i, |groups|) + j)
  {
    var row := NonBlank(rows)[i];
    var base := RowOrdinal(i, |groups|);
    AttemptInRowBlock(groups, row.message, row.image, delay, pathExists, outcome, base, j);
    InRowBlockInRun(Attempt(groups[j], row.message, row.image, pathExists, outcome(base + j)),
                    groups, rows, delay, pathExists, outcome, i, j);
  }
}
