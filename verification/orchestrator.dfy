/** `performOperation`: confirm, dispatch, then poll the instance status
    until it reaches the operation's target or sixty polls have been made.
    The confirmation prompt, the remote calls and the status source are
    inputs; the status lines printed to the console are an output. */
module Orchestrator {
  import opened Wrappers
  import opened Text
  import opened AwsUtils

  datatype Operation = Refresh | Start | Stop | Reboot

  /** The operation's name, as chosen from the menu. */
  function OpName(op: Operation): string {
    match op
    case Refresh => "refresh"
    case Start => "start"
    case Stop => "stop"
    case Reboot => "reboot"
  }

  /** `capitalize`: the first character upper-cased; anything that is not a
      string (`None`) gives "". */
  function Capitalize(s: Option<string>): (r: string)
    ensures s.None? ==> r == ""
    ensures s.Some? ==> |r| == |s.value|
    ensures s.Some? && s.value != "" ==> r[0] == UpperChar(s.value[0]) && r[1..] == s.value[1..]
  {
    match s
    case None => ""
    case Some(text) => if text == "" then "" else [UpperChar(text[0])] + text[1..]
  }

  /** The spinner text: "Stopp" stands in for the capitalized name of
      `stop`, so that every label reads as a present participle. */
  function SpinnerLabel(op: Operation, name: string): (text: string)
    ensures op == Refresh ==> text == "Refreshing " + name
    ensures op == Start ==> text == "Starting " + name
    ensures op == Stop ==> text == "Stopping " + name
    ensures op == Reboot ==> text == "Rebooting " + name
  {
    var stem := if op == Stop then "Stopp" else Capitalize(Some(OpName(op)));
    assert stem == match op
      case Refresh => "Refresh"
      case Start => "Start"
      case Stop => "Stopp"
      case Reboot => "Reboot";
    stem + "ing " + name
  }

  // ---------------------------------------------------------------------
  // The guard
  // ---------------------------------------------------------------------

  /** Stopping or rebooting an instance that is not already stopped needs
      the user's confirmation; nothing else does. */
  predicate NeedsConfirmation(state: string, op: Operation) {
    state != "stopped" && (op == Stop || op == Reboot)
  }

  // ---------------------------------------------------------------------
  // The poll loop
  // ---------------------------------------------------------------------

  const MaxPolls := 60

  /** The pattern `waitFor`: `/^running: ok/`, `/^stopped/`, or `/./`. */
  datatype Target = Prefix(prefix: string) | Visible

  function TargetOf(op: Operation): (t: Target)
    ensures op == Refresh <==> t == Visible
    ensures op == Stop <==> t == Prefix("stopped")
    ensures op == Start || op == Reboot <==> t == Prefix("running: ok")
  {
    match op
    case Refresh => Visible
    case Stop => Prefix("stopped")
    case _ => Prefix("running: ok")
  }

  /** The characters `.` does not match in a JavaScript regular expression. */
  predicate LineTerminator(ch: char) {
    ch == '\n' || ch == '\r' || ch == '\U{2028}' || ch == '\U{2029}'
  }

  /** `/./.test(status)`: some character of `status` is not a line
      terminator. */
  predicate HasVisible(status: string) {
    status != [] && (!LineTerminator(status[0]) || HasVisible(status[1..]))
  }

  lemma {:induction false} HasVisibleMeans(status: string)
    ensures HasVisible(status) <==> exists i :: 0 <= i < |status| && !LineTerminator(status[i])
  {
    if status != [] {
      HasVisibleMeans(status[1..]);
      if !LineTerminator(status[0]) {
        assert !LineTerminator(status[0]);
      } else if exists i :: 0 <= i < |status| && !LineTerminator(status[i]) {
        var i :| 0 <= i < |status| && !LineTerminator(status[i]);
        assert status[1..][i - 1] == status[i];
      }
    }
  }

  /** `waitFor.test(status)`. */
  predicate Reached(t: Target, status: string) {
    match t
    case Prefix(p) => |p| <= |status| && status[..|p|] == p
    case Visible => HasVisible(status)
  }

  /** One call of `aws.state`: a status string; a value that is not a
      string (the whole response, or the empty status list), shown as the
      text `' ' + value` prints; or a thrown error. */
  datatype Observation = Status(text: string) | Raw(shown: string) | Fault(message: string)

  /** How a reply of `state` reaches the loop. */
  function Observe(reply: StateReply): (obs: Observation)
    ensures reply.Composite? <==> obs.Status?
    ensures reply.Composite? ==> obs.text == reply.text
  {
    match reply
    case Composite(text) => Status(text)
    case WholeResponse(_) => Raw("[object Object]")
    case EmptyStatuses => Raw("")
  }

  /** The error a non-string status raises at `state.split(':')`. */
  const SplitNotAFunction := "state.split is not a function"

  /** Where polling stopped: the number of fetches made, the lines printed,
      the instance's state, and the error that ended it, if any. */
  datatype PollEnd = PollEnd(fetches: nat, lines: seq<string>, state: string, error: Option<string>)

  /** The loop from fetch number `k` (0-based) on, with `current` the last
      printed status and `state` the instance's state. At most sixty
      fetches are made in all; a run that makes none is the loop already
      finished, and a run that ends in an error fetched at least once. */
  function Poll(t: Target, remote: nat -> Observation, k: nat, current: string,
                state: string, lines: seq<string>): (end: PollEnd)
    requires k <= MaxPolls
    ensures k <= end.fetches <= MaxPolls
    ensures end.fetches == k ==> end == PollEnd(k, lines, state, None)
    ensures end.error.Some? ==> end.fetches > k
    decreases MaxPolls - k
  {
    if k == MaxPolls then PollEnd(k, lines, state, None)
    else match remote(k)
      case Fault(message) => PollEnd(k + 1, lines, state, Some(message))
      case Raw(shown) => PollEnd(k + 1, lines + [" " + shown], state, Some(SplitNotAFunction))
      case Status(s) =>
        var lines' := if current != s then lines + [" " + s] else lines;
        var state' := FirstPart(s, ':');
        if Reached(t, s) then PollEnd(k + 1, lines', state', None)
        else Poll(t, remote, k + 1, s, state', lines')
  }

  /** One poll that reads a status short of the target and moves on. */
  lemma PollStep(t: Target, remote: nat -> Observation, k: nat,
                 current: string, state: string, lines: seq<string>)
    requires k < MaxPolls && remote(k).Status? && !Reached(t, remote(k).text)
    ensures var s := remote(k).text;
      Poll(t, remote, k, current, state, lines) ==
      Poll(t, remote, k + 1, s, FirstPart(s, ':'), if current != s then lines + [" " + s] else lines)
  {
  }

  /** The polls from `k` up to `m` (exclusive) all saw a status short of
      the target. */
  ghost predicate Pending(t: Target, remote: nat -> Observation, k: nat, m: nat) {
    forall j :: k <= j < m ==> remote(j).Status? && !Reached(t, remote(j).text)
  }

  /** Every fetch before the last saw a status short of the target, and
      the last one failed, reached the target, or was the sixtieth. */
  lemma {:induction false} PollStopsAtFirstEvent(t: Target, remote: nat -> Observation, k: nat,
                                                 current: string, state: string, lines: seq<string>)
    requires k < MaxPolls
    ensures var end := Poll(t, remote, k, current, state, lines);
      && k < end.fetches
      && Pending(t, remote, k, end.fetches - 1)
      && var last := remote(end.fetches - 1);
        || (end.error.None? && last.Status? && Reached(t, last.text))
        || (end.error.None? && end.fetches == MaxPolls && last.Status?)
        || (end.error.Some? && !last.Status?)
    decreases MaxPolls - k
  {
    if remote(k).Status? && !Reached(t, remote(k).text) && k + 1 < MaxPolls {
      var s := remote(k).text;
      var lines' := if current != s then lines + [" " + s] else lines;
      PollStopsAtFirstEvent(t, remote, k + 1, s, FirstPart(s, ':'), lines');
    }
  }

  /** When the first `m - k` polls are short of the target and poll `m`
      reaches it, the loop makes exactly `m + 1` fetches and leaves the
      state named by that status. */
  lemma {:induction false} PollFirstReached(t: Target, remote: nat -> Observation, k: nat, m: nat,
                                            current: string, state: string, lines: seq<string>)
    requires k <= m < MaxPolls
    requires Pending(t, remote, k, m)
    requires remote(m).Status? && Reached(t, remote(m).text)
    ensures var end := Poll(t, remote, k, current, state, lines);
      && end.fetches == m + 1 && end.error.None?
      && end.state == FirstPart(remote(m).text, ':')
    decreases m - k
  {
    if k < m {
      var s := remote(k).text;
      var lines' := if current != s then lines + [" " + s] else lines;
      PollFirstReached(t, remote, k + 1, m, s, FirstPart(s, ':'), lines');
    }
  }

  /** When no poll reaches the target, the loop gives up after sixty
      fetches without an error, in the state named by the last status. */
  lemma {:induction false} PollTimesOut(t: Target, remote: nat -> Observation, k: nat,
                                        current: string, state: string, lines: seq<string>)
    requires k < MaxPolls
    requires Pending(t, remote, k, MaxPolls)
    ensures var end := Poll(t, remote, k, current, state, lines);
      && end.fetches == MaxPolls && end.error.None?
      && end.state == FirstPart(remote(MaxPolls - 1).text, ':')
    decreases MaxPolls - k
  {
    var s := remote(k).text;
    var lines' := if current != s then lines + [" " + s] else lines;
    if k + 1 < MaxPolls {
      PollTimesOut(t, remote, k + 1, s, FirstPart(s, ':'), lines');
    }
  }

  /** The state after polling is named by the last status that was read:
      the final fetch when it succeeded, the one before it when it failed,
      and the state polling started from when the very first fetch failed. */
  lemma {:induction false} PollStateIsLastStatus(t: Target, remote: nat -> Observation, k: nat,
                                                 current: string, state: string, lines: seq<string>)
    requires k <= MaxPolls
    ensures var end := Poll(t, remote, k, current, state, lines);
      && (end.error.None? && end.fetches > k ==>
            remote(end.fetches - 1).Status? &&
            end.state == FirstPart(remote(end.fetches - 1).text, ':'))
      && (end.error.Some? && end.fetches > k + 1 ==>
            remote(end.fetches - 2).Status? &&
            end.state == FirstPart(remote(end.fetches - 2).text, ':'))
      && (end.error.Some? && end.fetches == k + 1 ==> end.state == state)
      && (end.fetches == k ==> end.state == state)
    decreases MaxPolls - k
  {
    if k < MaxPolls && remote(k).Status? && !Reached(t, remote(k).text) {
      var s := remote(k).text;
      var lines' := if current != s then lines + [" " + s] else lines;
      PollStateIsLastStatus(t, remote, k + 1, s, FirstPart(s, ':'), lines');
    }
  }

  /** `lines` ends with the line printed for `current`, or nothing has
      been printed and `current` is still "". */
  predicate ShowsCurrent(lines: seq<string>, current: string) {
    if lines == [] then current == "" else lines[|lines| - 1] == " " + current
  }

  /** No line repeats the one printed just before it, and the first line
      is not the bare " " of an empty status. */
  predicate Distinct(lines: seq<string>) {
    && (forall i :: 0 < i < |lines| ==> lines[i - 1] != lines[i])
    && (lines == [] || lines[0] != " ")
  }

  /** Printing a status that differs from the last one printed keeps the
      lines distinct. */
  lemma PrintChange(lines: seq<string>, current: string, s: string)
    requires ShowsCurrent(lines, current) && Distinct(lines)
    ensures var lines' := if current != s then lines + [" " + s] else lines;
      ShowsCurrent(lines', s) && Distinct(lines')
  {
    if current != s {
      assert (" " + s)[1..] == s && (" " + current)[1..] == current;
      var lines' := lines + [" " + s];
      assert lines != [] ==> lines'[|lines| - 1] == " " + current;
    }
  }

  /** Polling only appends to the lines already printed. */
  lemma {:induction false} PollAppends(t: Target, remote: nat -> Observation, k: nat,
                                       current: string, state: string, lines: seq<string>)
    requires k <= MaxPolls
    ensures var end := Poll(t, remote, k, current, state, lines);
      |lines| <= |end.lines| && end.lines[..|lines|] == lines
    decreases MaxPolls - k
  {
    if k < MaxPolls && remote(k).Status? && !Reached(t, remote(k).text) {
      var s := remote(k).text;
      var lines' := if current != s then lines + [" " + s] else lines;
      PollAppends(t, remote, k + 1, s, FirstPart(s, ':'), lines');
      var end := Poll(t, remote, k + 1, s, FirstPart(s, ':'), lines');
      assert end.lines[..|lines|] == end.lines[..|lines'|][..|lines|];
    }
  }

  /** What the lines promise once polling has stopped: the lines are
      distinct, except for the one line a non-string status prints just
      before the loop fails. */
  ghost predicate PrintedChanges(remote: nat -> Observation, end: PollEnd) {
    if end.error.Some? && end.fetches > 0 && remote(end.fetches - 1).Raw?
    then |end.lines| > 0 && Distinct(end.lines[..|end.lines| - 1])
    else Distinct(end.lines)
  }

  /** A run that did not fail on a non-string status keeps its lines as
      they were printed. */
  lemma PrintedPlain(remote: nat -> Observation, end: PollEnd)
    requires Distinct(end.lines)
    requires end.error.None? || end.fetches == 0 || !remote(end.fetches - 1).Raw?
    ensures PrintedChanges(remote, end)
  {
  }

  /** A run that failed on a non-string status printed one line more. */
  lemma PrintedRaw(remote: nat -> Observation, end: PollEnd, lines: seq<string>, shown: string)
    requires end.error.Some? && end.fetches > 0 && remote(end.fetches - 1) == Raw(shown)
    requires Distinct(lines) && end.lines == lines + [" " + shown]
    ensures PrintedChanges(remote, end)
  {
    assert end.lines[..|end.lines| - 1] == lines;
  }

  /** The fetch at `k` ends the loop (or there is none): the lines are
      distinct but for a last line a non-string status printed. */
  lemma PollPrintsLast(t: Target, remote: nat -> Observation, k: nat,
                       current: string, state: string, lines: seq<string>)
    requires k <= MaxPolls
    requires ShowsCurrent(lines, current) && Distinct(lines)
    requires k == MaxPolls || !remote(k).Status? || Reached(t, remote(k).text)
    ensures PrintedChanges(remote, Poll(t, remote, k, current, state, lines))
  {
    var end := Poll(t, remote, k, current, state, lines);
    if k == MaxPolls {
      PrintedPlain(remote, end);
    } else {
      match remote(k)
      case Fault(message) =>
        assert end == PollEnd(k + 1, lines, state, Some(message));
        PrintedPlain(remote, end);
      case Raw(shown) =>
        assert end == PollEnd(k + 1, lines + [" " + shown], state, Some(SplitNotAFunction));
        PrintedRaw(remote, end, lines, shown);
      case Status(s) =>
        var lines' := if current != s then lines + [" " + s] else lines;
        PrintChange(lines, current, s);
        assert end == PollEnd(k + 1, lines', FirstPart(s, ':'), None);
        PrintedPlain(remote, end);
    }
  }

  /** A status is printed only when it differs from the last one printed,
      starting from "": the status lines never repeat one another and an
      initial empty status prints nothing.  The one line a non-string
      status prints before the loop fails is set aside. */
  lemma {:induction false} PollPrintsChanges(t: Target, remote: nat -> Observation, k: nat,
                                             current: string, state: string, lines: seq<string>)
    requires k <= MaxPolls
    requires ShowsCurrent(lines, current) && Distinct(lines)
    ensures PrintedChanges(remote, Poll(t, remote, k, current, state, lines))
    decreases MaxPolls - k
  {
    if k < MaxPolls && remote(k).Status? && !Reached(t, remote(k).text) {
      var s := remote(k).text;
      var lines' := if current != s then lines + [" " + s] else lines;
      PrintChange(lines, current, s);
      assert Poll(t, remote, k, current, state, lines) ==
        Poll(t, remote, k + 1, s, FirstPart(s, ':'), lines');
      PollPrintsChanges(t, remote, k + 1, s, FirstPart(s, ':'), lines');
    } else {
      PollPrintsLast(t, remote, k, current, state, lines);
    }
  }

  /** Every fetch from `k` up to `m` (exclusive) read a status string. */
  ghost predicate AllStatus(remote: nat -> Observation, k: nat, m: nat) {
    forall j :: k <= j < m ==> remote(j).Status?
  }

  /** The lines that print-if-changed produces for the statuses read by
      fetches `k` up to `m`, starting after `current`: one line for each
      run of equal consecutive statuses. */
  ghost function Printed(remote: nat -> Observation, k: nat, m: nat, current: string): seq<string>
    requires AllStatus(remote, k, m)
    decreases m - k
  {
    if m <= k then []
    else
      var s := remote(k).text;
      (if current != s then [" " + s] else []) + Printed(remote, k + 1, m, s)
  }

  /** Reading the same status twice in a row prints it at most once. */
  lemma PrintedRepeat(remote: nat -> Observation, k: nat, current: string)
    requires remote(k).Status? && remote(k + 1) == remote(k)
    ensures AllStatus(remote, k, k + 2)
    ensures Printed(remote, k, k + 2, current) == Printed(remote, k, k + 1, current)
  {
    var s := remote(k).text;
    assert Printed(remote, k + 1, k + 2, s) == [];
    assert Printed(remote, k, k + 1, current) == (if current != s then [" " + s] else []) + [];
  }

  /** The line a non-string status printed just before the loop failed on
      it, if the loop did. */
  ghost function FailLine(remote: nat -> Observation, end: PollEnd): seq<string> {
    if end.error.Some? && end.fetches > 0 && remote(end.fetches - 1).Raw?
    then [" " + remote(end.fetches - 1).shown] else []
  }

  /** One status read at `k`, printed if it changed, followed by the lines
      of the statuses after it. */
  lemma PrintedCons(remote: nat -> Observation, k: nat, n: nat, current: string,
                    lines: seq<string>, lines': seq<string>, tail: seq<string>)
    requires k < n && remote(k).Status? && AllStatus(remote, k + 1, n)
    requires var s := remote(k).text;
      lines' == if current != s then lines + [" " + s] else lines
    ensures AllStatus(remote, k, n)
    ensures lines' + Printed(remote, k + 1, n, remote(k).text) + tail ==
      lines + Printed(remote, k, n, current) + tail
  {
    var s := remote(k).text;
    var step := if current != s then [" " + s] else [];
    assert lines' == lines + step;
    assert Printed(remote, k, n, current) == step + Printed(remote, k + 1, n, s);
  }

  /** The lines of a run that stopped at `end`, having started at fetch `k`
      after `current` with `lines` printed: exactly those printed-if-changed
      for every status read successfully, followed by the line of a
      non-string status the loop failed on. */
  ghost predicate PrintsStatuses(remote: nat -> Observation, k: nat, current: string,
                                 lines: seq<string>, end: PollEnd)
  {
    var n := if end.error.Some? then end.fetches - 1 else end.fetches;
    && k <= n
    && AllStatus(remote, k, n)
    && end.lines == lines + Printed(remote, k, n, current) + FailLine(remote, end)
  }

  /** The fetch at `k` ends the loop (or there is none): at most its one
      status line is printed. */
  lemma PollPrintsLastStatus(t: Target, remote: nat -> Observation, k: nat,
                             current: string, state: string, lines: seq<string>)
    requires k <= MaxPolls
    requires k == MaxPolls || !remote(k).Status? || Reached(t, remote(k).text)
    ensures PrintsStatuses(remote, k, current, lines, Poll(t, remote, k, current, state, lines))
  {
    var end := Poll(t, remote, k, current, state, lines);
    if k == MaxPolls {
      assert end.lines == lines + [] + [];
    } else {
      match remote(k)
      case Fault(message) =>
        assert end == PollEnd(k + 1, lines, state, Some(message));
        assert end.lines == lines + [] + [];
      case Raw(shown) =>
        assert end == PollEnd(k + 1, lines + [" " + shown], state, Some(SplitNotAFunction));
        assert end.lines == lines + [] + [" " + shown];
      case Status(s) =>
        var lines' := if current != s then lines + [" " + s] else lines;
        assert end == PollEnd(k + 1, lines', FirstPart(s, ':'), None);
        assert end.lines == lines' + Printed(remote, k + 1, k + 1, s) + [];
        PrintedCons(remote, k, k + 1, current, lines, lines', []);
    }
  }

  /** A status that differs from the last one printed is printed, and one
      equal to it is not: the lines are those of `PrintsStatuses`. */
  lemma {:induction false} PollPrintsStatuses(t: Target, remote: nat -> Observation, k: nat,
                                              current: string, state: string, lines: seq<string>)
    requires k <= MaxPolls
    ensures PrintsStatuses(remote, k, current, lines, Poll(t, remote, k, current, state, lines))
    decreases MaxPolls - k
  {
    if k < MaxPolls && remote(k).Status? && !Reached(t, remote(k).text) {
      var s := remote(k).text;
      var lines' := if current != s then lines + [" " + s] else lines;
      var end := Poll(t, remote, k + 1, s, FirstPart(s, ':'), lines');
      assert Poll(t, remote, k, current, state, lines) == end;
      PollPrintsStatuses(t, remote, k + 1, s, FirstPart(s, ':'), lines');
      var n := if end.error.Some? then end.fetches - 1 else end.fetches;
      PrintedCons(remote, k, n, current, lines, lines', FailLine(remote, end));
    } else {
      PollPrintsLastStatus(t, remote, k, current, state, lines);
    }
  }

  // ---------------------------------------------------------------------
  // The whole operation
  // ---------------------------------------------------------------------

  datatype Outcome = Declined | Completed | Failed(message: string)

  /** What one `performOperation` call did: whether it asked for
      confirmation, whether it called `aws[operation]`, how many statuses
      it fetched, the status lines it printed, the instance's state
      afterwards, and how it ended. */
  datatype Run = Run(asked: bool, dispatched: bool, fetches: nat, lines: seq<string>,
                     state: string, outcome: Outcome)

  /** `performOperation` on an instance in state `state`, with `confirmed`
      the answer to the prompt (if it is shown), `dispatchError` the error
      `aws[operation]` throws (if any) and `remote` the status source. */
  function Perform(state: string, op: Operation, confirmed: bool, dispatchError: Option<string>,
                   remote: nat -> Observation): (run: Run)
    ensures run.asked <==> NeedsConfirmation(state, op)
    ensures run.outcome == Declined <==> run.asked && !confirmed
    ensures run.outcome == Declined ==>
      !run.dispatched && run.fetches == 0 && run.lines == [] && run.state == state
    ensures run.dispatched <==> op != Refresh && run.outcome != Declined
    ensures run.dispatched && dispatchError.Some? ==>
      run.outcome == Failed(dispatchError.value) && run.fetches == 0 && run.lines == [] &&
      run.state == state
    ensures run.outcome != Declined && !(run.dispatched && dispatchError.Some?) ==>
      var end := Poll(TargetOf(op), remote, 0, "", state, []);
      && run.fetches == end.fetches && run.lines == end.lines && run.state == end.state
      && run.outcome == if end.error.Some? then Failed(end.error.value) else Completed
    ensures run.fetches <= MaxPolls
  {
    var asked := NeedsConfirmation(state, op);
    if asked && !confirmed then Run(true, false, 0, [], state, Declined)
    else if op != Refresh && dispatchError.Some? then
      Run(asked, true, 0, [], state, Failed(dispatchError.value))
    else
      var end := Poll(TargetOf(op), remote, 0, "", state, []);
      Run(asked, op != Refresh, end.fetches, end.lines, end.state,
          if end.error.Some? then Failed(end.error.value) else Completed)
  }

  /** The instance record `performOperation` receives; its `state` field is
      overwritten as statuses come in. */
  class Instance {
    const id: string
    const name: string
    const region: string
    var state: string

    constructor (record: InstanceRecord)
      ensures id == record.id && name == record.name && region == record.region
      ensures state == record.state
    {
      id := record.id;
      name := record.name;
      region := record.region;
      state := record.state;
    }
  }

  /** `performOperation`, with the loop of up to sixty polls. */
  method PerformOperation(instance: Instance, op: Operation, confirmed: bool,
                          dispatchError: Option<string>, remote: nat -> Observation)
    returns (run: Run)
    modifies instance
    ensures run == Perform(old(instance.state), op, confirmed, dispatchError, remote)
    ensures instance.state == run.state
  {
    var asked := NeedsConfirmation(instance.state, op);
    if asked && !confirmed {
      return Run(true, false, 0, [], instance.state, Declined);
    }
    var waitFor := TargetOf(op);
    if op != Refresh && dispatchError.Some? {
      return Run(asked, true, 0, [], instance.state, Failed(dispatchError.value));
    }
    ghost var start := instance.state;
    var current := "";
    var lines: seq<string> := [];
    var fetches := 0;
    var error: Option<string> := None;
    var i := 1;
    while i <= MaxPolls
      invariant 1 <= i <= MaxPolls + 1
      invariant fetches == i - 1 && error.None?
      invariant Poll(waitFor, remote, 0, "", start, []) ==
        Poll(waitFor, remote, i - 1, current, instance.state, lines)
      decreases MaxPolls + 1 - i
    {
      var observed := remote(i - 1);
      fetches := i;
      if observed.Fault? {
        error := Some(observed.message);
        break;
      }
      var shown := if observed.Status? then observed.text else observed.shown;
      if observed.Raw? || current != shown {
        current := shown;
        lines := lines + [" " + current];
      }
      if observed.Raw? {
        error := Some(SplitNotAFunction);
        break;
      }
      instance.state := FirstPart(observed.text, ':');
      if Reached(waitFor, observed.text) {
        break;
      }
      i := i + 1;
    }
    assert Poll(waitFor, remote, 0, "", start, []) == PollEnd(fetches, lines, instance.state, error);
    var outcome := if error.Some? then Failed(error.value) else Completed;
    run := Run(asked, op != Refresh, fetches, lines, instance.state, outcome);
  }

  /** `refresh` calls nothing on the instance and stops at the first status
      with a character other than a line terminator. */
  lemma RefreshStopsAtFirstVisible(state: string, confirmed: bool, dispatchError: Option<string>,
                                   remote: nat -> Observation, m: nat)
    requires m < MaxPolls && Pending(Visible, remote, 0, m)
    requires remote(m).Status?
    requires exists i :: 0 <= i < |remote(m).text| && !LineTerminator(remote(m).text[i])
    ensures var run := Perform(state, Refresh, confirmed, dispatchError, remote);
      && !run.asked && !run.dispatched && run.outcome == Completed
      && run.fetches == m + 1 && run.state == FirstPart(remote(m).text, ':')
  {
    HasVisibleMeans(remote(m).text);
    PollFirstReached(Visible, remote, 0, m, "", state, []);
  }

  /** The first two polls while waiting for `running: ok`: `pending` and
      `running: initializing` are short of it, and each is printed. */
  lemma StartPollsPending(state: string, remote: nat -> Observation,
                          pending: string, initializing: string)
    requires pending == "pending" && initializing == "running: initializing"
    requires remote(0) == Status(pending) && remote(1) == Status(initializing)
    ensures Poll(TargetOf(Start), remote, 0, "", state, []) ==
      Poll(TargetOf(Start), remote, 2, initializing, FirstPart(initializing, ':'),
           [" " + pending, " " + initializing])
  {
    var t := TargetOf(Start);
    assert !Reached(t, pending);
    assert initializing[9] != t.prefix[9];
    var lines := [" " + pending, " " + initializing];
    PollStep(t, remote, 0, "", state, []);
    assert [] + [" " + pending] == lines[..1];
    PollStep(t, remote, 1, pending, FirstPart(pending, ':'), lines[..1]);
    assert pending != initializing && lines[..1] + [" " + initializing] == lines;
  }

  /** The third poll reads `running: ok`, prints it and stops, leaving the
      instance `running`. */
  lemma StartPollsReady(state: string, remote: nat -> Observation, lines: seq<string>,
                        initializing: string, ok: string, running: string)
    requires ok == "running: ok" && running == "running"
    requires remote(2) == Status(ok) && initializing != ok
    ensures Poll(TargetOf(Start), remote, 2, initializing, state, lines) ==
      PollEnd(3, lines + [" " + ok], running, None)
  {
    assert Reached(TargetOf(Start), ok);
    assert ok == running + ": ok";
    FirstPartOfPrefixed(running, ": ok", ':');
  }

  /** The three polls together: `pending`, `running: initializing` and
      `running: ok` are printed, and the instance ends `running`. */
  lemma StartPolls(state: string, remote: nat -> Observation,
                   pending: string, initializing: string, ok: string, running: string)
    requires pending == "pending" && initializing == "running: initializing"
    requires ok == "running: ok" && running == "running"
    requires remote(0) == Status(pending) && remote(1) == Status(initializing)
    requires remote(2) == Status(ok)
    ensures Poll(TargetOf(Start), remote, 0, "", state, []) ==
      PollEnd(3, [" " + pending, " " + initializing, " " + ok], running, None)
  {
    var lines := [" " + pending, " " + initializing];
    StartPollsPending(state, remote, pending, initializing);
    assert |initializing| != |ok|;
    StartPollsReady(FirstPart(initializing, ':'), remote, lines, initializing, ok, running);
    assert lines + [" " + ok] == [" " + pending, " " + initializing, " " + ok];
  }

  /** `start` on that instance: no prompt, one call to `aws.start`, and the
      polls above. */
  lemma StartScenario(state: string, confirmed: bool, remote: nat -> Observation,
                      pending: string, initializing: string, ok: string, running: string)
    requires pending == "pending" && initializing == "running: initializing"
    requires ok == "running: ok" && running == "running"
    requires remote(0) == Status(pending) && remote(1) == Status(initializing)
    requires remote(2) == Status(ok)
    ensures var run := Perform(state, Start, confirmed, None, remote);
      && !run.asked && run.dispatched && run.outcome == Completed
      && run.fetches == 3 && run.state == running
      && run.lines == [" " + pending, " " + initializing, " " + ok]
  {
    StartPolls(state, remote, pending, initializing, ok, running);
  }
}
