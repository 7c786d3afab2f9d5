/** The date-range state of `ProjectCommitManager` in
    `src/menu/ProjectCommitManager.ts`: its five fields, the reset, the
    "a date is selected" test, how a picked range label or a custom start and
    end day are stored, and the validator of the date input box.

    Times are whole unix seconds. A day is a local calendar day number (days
    since 1970-01-01) and the UTC offset is a fixed number of seconds east of
    UTC, so local midnight of day `d` is the unix second `d * 86400 - offset`. */
module DateRange {
  import opened Js
  import DateText

  datatype DateRange = DateRange(
    selectedStartTime: int,
    selectedEndTime: int,
    selectedRangeType: string,
    localStart: int,
    localEnd: int)

  const SecondsPerDay: int := 86400

  /** The day and UTC offset `moment()` reads. */
  datatype Clock = Clock(today: int, offset: int)

  /** `moment(day).startOf("day").unix()` */
  function StartOfDay(day: int, offset: int): (t: int)
    ensures t + offset == day * SecondsPerDay
  {
    day * SecondsPerDay - offset
  }

  /** `moment(day).endOf("day").unix()`: the last whole second of the day. */
  function EndOfDay(day: int, offset: int): (t: int)
    ensures t == StartOfDay(day + 1, offset) - 1
  {
    day * SecondsPerDay + (SecondsPerDay - 1) - offset
  }

  /** `resetDateRange`: every field back to 0 or "". */
  function ResetDateRange(): (r: DateRange)
    ensures !HasDateSelected(r)
    ensures r.selectedStartTime == 0 && r.selectedEndTime == 0 && r.localEnd == 0
  {
    DateRange(0, 0, "", 0, 0)
  }

  /** `selectedRangeType || local_start` is truthy. */
  predicate HasDateSelected(st: DateRange)
    ensures HasDateSelected(st) <==> Truthy(Str(st.selectedRangeType)) || Truthy(Num(st.localStart as real))
  {
    st.selectedRangeType != "" || st.localStart != 0
  }

  /** The range-type labels of the date menu, by their values. */
  const Custom: string := "custom"
  const LastNinetyDays: string := "lastNinetyDays"

  /** `getSelectedDateRange` after the menu closes. `pick` is the value of
      the item picked, `startDay` and `endDay` the days the two input boxes
      returned; `None` stands for a cancelled menu or box. */
  function SelectDateRange(st: DateRange, pick: Option<string>, clock: Clock,
                           startDay: Option<int>, endDay: Option<int>): (r: DateRange)
    // a cancelled menu, or a custom range whose start is cancelled, changes nothing
    ensures pick.None? || (pick == Some(Custom) && startDay.None?) ==> r == st
    // a custom range stores its start, and both local bounds once the end is given
    ensures pick == Some(Custom) && startDay.Some? ==>
      && r.selectedStartTime + clock.offset == startDay.value * SecondsPerDay
      && r.selectedRangeType == st.selectedRangeType
      && (endDay.None? ==> r == st.(selectedStartTime := r.selectedStartTime))
      && (endDay.Some? ==>
            && r.selectedEndTime == StartOfDay(endDay.value + 1, clock.offset) - 1
            && r.localStart == startDay.value * SecondsPerDay
            && r.localEnd == (endDay.value + 1) * SecondsPerDay - 1)
    // the last ninety days end at the start of today and start ninety days earlier
    ensures pick == Some(LastNinetyDays) ==>
      && r.localEnd == clock.today * SecondsPerDay
      && r.localEnd - r.localStart == 90 * SecondsPerDay
      && r == st.(localStart := r.localStart, localEnd := r.localEnd)
    // any other label is stored as the range type and nothing else
    ensures pick.Some? && pick.value != Custom && pick.value != LastNinetyDays ==>
      r == st.(selectedRangeType := pick.value)
  {
    if pick.None? then st
    else if pick.value == Custom then
      if startDay.None? then st
      else
        var start := StartOfDay(startDay.value, clock.offset);
        if endDay.None? then st.(selectedStartTime := start)
        else
          var end := EndOfDay(endDay.value, clock.offset);
          st.(selectedStartTime := start, selectedEndTime := end,
              localStart := start + clock.offset, localEnd := end + clock.offset)
    else if pick.value == LastNinetyDays then
      st.(localStart := StartOfDay(clock.today - 90, clock.offset) + clock.offset,
          localEnd := StartOfDay(clock.today, clock.offset) + clock.offset)
    else st.(selectedRangeType := pick.value)
  }

  /** After a reset, a date counts as selected exactly when a range label
      was picked, or a custom or ninety-day range was stored whose local start
      is not the epoch. */
  lemma SelectedAfterReset(pick: Option<string>, clock: Clock, startDay: Option<int>, endDay: Option<int>)
    ensures var r := SelectDateRange(ResetDateRange(), pick, clock, startDay, endDay);
      HasDateSelected(r) <==>
        || (pick.Some? && pick.value != Custom && pick.value != LastNinetyDays && pick.value != "")
        || (pick == Some(Custom) && startDay.Some? && endDay.Some? && startDay.value != 0)
        || (pick == Some(LastNinetyDays) && clock.today != 90)
  {
  }

  // ---------------------------------------------------------------------
  // Input validation
  // ---------------------------------------------------------------------

  const FormatMessage: string := "Please enter a valid date to continue (YYYY-MM-DD)"
  const OrderMessage: string := "Please make sure the end date is after the start date"

  /** `validateInput` of the date input box: the message shown, or `None`
      when the text is accepted. `selectedStartTime` is the start stored at
      the time the box is shown. */
  function ValidateInput(text: string, selectedStartTime: int, offset: int): (r: Option<string>)
    ensures r == Some(FormatMessage) <==> DateText.ParseDate(text).None?
    ensures r == Some(OrderMessage) <==>
      && DateText.ParseDate(text).Some?
      && var t := StartOfDay(DateText.DayNumber(DateText.ParseDate(text).value), offset);
         selectedStartTime != 0 && t != 0 && selectedStartTime > t
    ensures r.None? || r == Some(FormatMessage) || r == Some(OrderMessage)
  {
    match DateText.ParseDate(text)
    case None => Some(FormatMessage)
    case Some(d) =>
      var endTime := StartOfDay(DateText.DayNumber(d), offset);
      if selectedStartTime != 0 && endTime != 0 && selectedStartTime > endTime then Some(OrderMessage)
      else None
  }

  /** An accepted end date starts no earlier than the stored start, unless
      one of the two is the epoch second (which the test reads as "unset"). */
  lemma AcceptedEndIsOrdered(text: string, selectedStartTime: int, offset: int)
    requires ValidateInput(text, selectedStartTime, offset).None?
    ensures DateText.ParseDate(text).Some?
    ensures var t := StartOfDay(DateText.DayNumber(DateText.ParseDate(text).value), offset);
      selectedStartTime == 0 || t == 0 || selectedStartTime <= t
  {
  }

  /** The day the start was stored for is itself accepted as the end. */
  lemma SameDayAccepted(d: DateText.Date, offset: int)
    requires DateText.ValidDate(d)
    ensures ValidateInput(DateText.FormatDate(d), StartOfDay(DateText.DayNumber(d), offset), offset).None?
  {
    DateText.ParseFormat(d);
  }

  /** A custom range whose end was accepted against its start spans at
      least the whole start day: the stored end comes after the stored start. */
  lemma CustomRangeOrdered(st: DateRange, clock: Clock, startDay: int, endText: string)
    requires StartOfDay(startDay, clock.offset) != 0
    requires ValidateInput(endText, StartOfDay(startDay, clock.offset), clock.offset).None?
    requires StartOfDay(DateText.DayNumber(DateText.ParseDate(endText).value), clock.offset) != 0
    ensures var endDay := DateText.DayNumber(DateText.ParseDate(endText).value);
      var r := SelectDateRange(st, Some(Custom), clock, Some(startDay), Some(endDay));
      r.selectedStartTime < r.selectedEndTime && r.localStart < r.localEnd
  {
    AcceptedEndIsOrdered(endText, StartOfDay(startDay, clock.offset), clock.offset);
  }
}
