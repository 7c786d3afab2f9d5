/** The decision `launchProjectSelectionMenu` in
    `src/menu/ProjectCommitManager.ts` takes once the project picker closes:
    whether to ask for a date range first, which project ids to report on
    and which of the two dashboards to open. */
module ProjectMenu {
  import opened Js
  import ProjectRows
  import DateRange

  /** The dashboard opened, if any. */
  datatype Report =
    | NoReport
    | ByRangeType(rangeType: string, projectIds: seq<int>)
    | ByStartEnd(start: int, end: int, projectIds: seq<int>)

  /** What the date menu and its input boxes return when they are shown. */
  datatype DateAnswers = DateAnswers(
    pick: Option<string>,
    clock: DateRange.Clock,
    startDay: Option<int>,
    endDay: Option<int>)

  datatype Outcome = Outcome(report: Report, state: DateRange.DateRange)

  /** The number of ids the picks carry together. */
  function IdCount(picks: seq<ProjectRows.Checkbox>): nat
  {
    if |picks| == 0 then 0 else |picks[0].value| + IdCount(picks[1..])
  }

  /** The picks' id lists joined in pick order. */
  function Flatten(picks: seq<ProjectRows.Checkbox>): (ids: seq<int>)
    ensures |ids| == IdCount(picks)
  {
    if |picks| == 0 then [] else picks[0].value + Flatten(picks[1..])
  }

  /** Flattening distributes over concatenation of the picks. */
  lemma {:induction false} FlattenAppend(a: seq<ProjectRows.Checkbox>, b: seq<ProjectRows.Checkbox>)
    ensures Flatten(a + b) == Flatten(a) + Flatten(b)
  {
    if |a| > 0 {
      assert (a + b)[1..] == a[1..] + b;
      FlattenAppend(a[1..], b);
    } else {
      assert a + b == b;
    }
  }

  /** An id is reported exactly when some pick carries it. */
  lemma {:induction false} FlattenMembership(picks: seq<ProjectRows.Checkbox>, id: int)
    ensures id in Flatten(picks) <==> exists i :: 0 <= i < |picks| && id in picks[i].value
  {
    if |picks| > 0 {
      FlattenMembership(picks[1..], id);
      if id in Flatten(picks[1..]) {
        var i :| 0 <= i < |picks[1..]| && id in picks[1..][i].value;
        assert id in picks[i + 1].value;
      }
      if exists i :: 0 <= i < |picks| && id in picks[i].value {
        var i :| 0 <= i < |picks| && id in picks[i].value;
        if i > 0 {
          assert id in picks[1..][i - 1].value;
        }
      }
    }
  }

  /** `launchProjectSelectionMenu` after the picker returns `picks`
      (`None` when it was dismissed). */
  function LaunchProjectSelectionMenu(st: DateRange.DateRange, picks: Option<seq<ProjectRows.Checkbox>>,
                                      answers: DateAnswers): (r: Outcome)
    // nothing picked: nothing shown, nothing asked
    ensures picks.None? || |picks.value| == 0 ==> r == Outcome(NoReport, st)
    // the date menu is shown only when no date is selected yet
    ensures DateRange.HasDateSelected(st) ==> r.state == st
    // otherwise the date menu is shown once and its answer is stored
    ensures picks.Some? && |picks.value| > 0 && !DateRange.HasDateSelected(st) ==>
      r.state == DateRange.SelectDateRange(st, answers.pick, answers.clock, answers.startDay, answers.endDay)
    // a report is opened only with a date selected, for exactly the picked ids
    ensures r.report != NoReport ==>
      && picks.Some? && |picks.value| > 0
      && DateRange.HasDateSelected(r.state)
      && r.report.projectIds == Flatten(picks.value)
    // the range type takes precedence over start and end
    ensures r.report.ByRangeType? <==>
      picks.Some? && |picks.value| > 0 && r.state.selectedRangeType != ""
    ensures r.report.ByRangeType? ==> r.report.rangeType == r.state.selectedRangeType
    ensures r.report.ByStartEnd? <==>
      && picks.Some? && |picks.value| > 0 && r.state.selectedRangeType == ""
      && r.state.localStart != 0 && r.state.localEnd != 0
    ensures r.report.ByStartEnd? ==>
      r.report.start == r.state.localStart && r.report.end == r.state.localEnd
  {
    if picks.None? || |picks.value| == 0 then Outcome(NoReport, st)
    else
      var s :=
        if DateRange.HasDateSelected(st) then st
        else DateRange.SelectDateRange(st, answers.pick, answers.clock, answers.startDay, answers.endDay);
      if !DateRange.HasDateSelected(s) then Outcome(NoReport, s)
      else
        var ids := Flatten(picks.value);
        if s.selectedRangeType != "" then Outcome(ByRangeType(s.selectedRangeType, ids), s)
        else if s.localStart != 0 && s.localEnd != 0 then Outcome(ByStartEnd(s.localStart, s.localEnd, ids), s)
        else Outcome(NoReport, s)
  }

  /** Cancelling the date menu after a reset opens nothing. */
  lemma CancelledDateMenuReportsNothing(picks: Option<seq<ProjectRows.Checkbox>>, answers: DateAnswers)
    requires answers.pick.None?
    ensures LaunchProjectSelectionMenu(DateRange.ResetDateRange(), picks, answers).report == NoReport
  {
  }
}
