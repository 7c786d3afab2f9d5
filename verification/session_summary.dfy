/** The session summary aggregator of `src/storage/SessionSummaryData.ts`: the
    gap rule that decides whether the time since the last payload counts as
    session time, the normaliser that turns every missing or falsy field of the
    summary into 0, the additive daily counters, their reset, the single-field
    liveshare overwrite and the status-bar icon. The summary file is a value
    passed in and returned. */
module SessionSummary {
  import opened Js
  import Store

  /** The default gap threshold in seconds (15 minutes). */
  const DefaultSessionThresholdSeconds: real := 900.0

  /** The seconds credited when there is no previous payload. */
  const DefaultElapsedSeconds: real := 60.0

  /** Store keys the aggregator reads. */
  const ThresholdKey: string := "sessionThresholdInSec"
  const LastPayloadEndKey: string := "latestPayloadTimestampEndUtc"

  /** The number of fields of `SessionSummary`. */
  const FieldCount: nat := 8

  /** A field of `SessionSummary`, by its position in declaration order. */
  newtype Field = i: int | 0 <= i < FieldCount

  const CurrentDayMinutes: Field := 0
  const CurrentDayKeystrokes: Field := 1
  const CurrentDayLinesAdded: Field := 2
  const CurrentDayLinesRemoved: Field := 3
  const AverageDailyMinutes: Field := 4
  const AverageDailyKeystrokes: Field := 5
  const AverageDailyKpm: Field := 6
  const LiveshareMinutes: Field := 7

  /** The JSON name of each field. */
  function FieldName(f: Field): (name: string)
    ensures name in FieldNames
  {
    if f == CurrentDayMinutes then "currentDayMinutes"
    else if f == CurrentDayKeystrokes then "currentDayKeystrokes"
    else if f == CurrentDayLinesAdded then "currentDayLinesAdded"
    else if f == CurrentDayLinesRemoved then "currentDayLinesRemoved"
    else if f == AverageDailyMinutes then "averageDailyMinutes"
    else if f == AverageDailyKeystrokes then "averageDailyKeystrokes"
    else if f == AverageDailyKpm then "averageDailyKpm"
    else "liveshareMinutes"
  }

  const FieldNames: set<string> := {
    "currentDayMinutes", "currentDayKeystrokes", "currentDayLinesAdded", "currentDayLinesRemoved",
    "averageDailyMinutes", "averageDailyKeystrokes", "averageDailyKpm", "liveshareMinutes"}

  /** Different fields have different names. */
  lemma FieldNameInjective(f: Field, g: Field)
    requires FieldName(f) == FieldName(g)
    ensures f == g
  {
  }

  /** A key of the summary document: a template field, or any other key the
      file happens to hold. A document read from JSON names its extra keys
      differently from every field (`JsonKeyed`). */
  datatype Key = Known(field: Field) | Extra(name: string)

  /** The JSON name of a key. */
  function KeyName(k: Key): string
  {
    match k
    case Known(f) => FieldName(f)
    case Extra(name) => name
  }

  /** The summary document. */
  type Summary = map<Key, JsValue>

  /** No extra key is spelled like a field, as in a JSON object. */
  predicate JsonKeyed(d: Summary)
  {
    forall k :: k in d && k.Extra? ==> k.name !in FieldNames
  }

  /** In a JSON-keyed document every key has its own name. */
  lemma KeyNamesDistinct(d: Summary, k1: Key, k2: Key)
    requires JsonKeyed(d) && k1 in d && k2 in d
    requires KeyName(k1) == KeyName(k2)
    ensures k1 == k2
  {
    if k1.Known? && k2.Known? {
      FieldNameInjective(k1.field, k2.field);
    }
  }

  /** The four counters an increment adds to. */
  const Counters: set<Key> := {
    Known(CurrentDayMinutes), Known(CurrentDayKeystrokes),
    Known(CurrentDayLinesAdded), Known(CurrentDayLinesRemoved)}

  /** `new SessionSummary()`: every field, each 0. */
  const Template: Summary := map k | k in TemplateKeySet :: Num(0.0)

  /** The keys of the template: one per field. */
  const TemplateKeySet: set<Key> := set i | 0 <= i < FieldCount :: Known(i as Field)

  /** The template holds every field, nothing else, and 0 in each. */
  lemma TemplateIsZeroFields()
    ensures forall k :: k in Template <==> k.Known?
    ensures forall k :: k in Template ==> Template[k] == Num(0.0)
  {
    forall k: Key | k.Known?
      ensures k in TemplateKeySet
    {
      assert k == Known(k.field as int as Field);
    }
  }

  /** The summary file: `None` when it is missing or does not parse. */
  type SummaryFile = Option<Summary>

  /** `getSessionSummaryFile`: `sessionSummary.json` in the software directory. */
  function SessionSummaryFile(home: string, platform: string): (p: string)
    ensures p == Store.InSoftwareDir(home, platform, "sessionSummary.json")
    ensures p != Store.SoftwareSessionFile(home, platform)
  {
    Store.SoftwareDir(home, platform) + Store.Separator(platform) + "sessionSummary.json"
  }

  // ---------------------------------------------------------------------
  // Gap rule
  // ---------------------------------------------------------------------

  /** `getItem("sessionThresholdInSec") || DEFAULT_SESSION_THRESHOLD_SECONDS` */
  function SessionThresholdSeconds(store: Store.SessionFile): (r: JsValue)
    ensures Truthy(r)
    ensures var stored := Store.ReadSession(store);
      ThresholdKey in stored && Truthy(stored[ThresholdKey]) ==> r == stored[ThresholdKey]
    ensures var stored := Store.ReadSession(store);
      !(ThresholdKey in stored && Truthy(stored[ThresholdKey])) ==> r == Num(DefaultSessionThresholdSeconds)
  {
    Or(Store.GetItem(store, ThresholdKey), Num(DefaultSessionThresholdSeconds))
  }

  /** A stored threshold of 0 is falsy and falls back to the default. */
  lemma ZeroThresholdFallsBack(store: Store.SessionFile)
    ensures SessionThresholdSeconds(Store.SetItem(store, ThresholdKey, Num(0.0))) == Num(DefaultSessionThresholdSeconds)
  {
  }

  /** `elapsed <= threshold`, comparing as JavaScript does (false against NaN). */
  predicate WithinThreshold(elapsed: real, threshold: JsValue)
  {
    match ToNumber(threshold)
    case Some(t) => elapsed <= t
    case None => false
  }

  /** The last payload end when it is truthy and positive. */
  function LastPayloadEnd(store: Store.SessionFile): (r: Option<real>)
    ensures var s := Store.ReadSession(store);
      r.Some? <==> && LastPayloadEndKey in s && Truthy(s[LastPayloadEndKey])
                   && ToNumber(s[LastPayloadEndKey]).Some? && ToNumber(s[LastPayloadEndKey]).value > 0.0
    ensures r.Some? ==> r == ToNumber(Store.ReadSession(store)[LastPayloadEndKey]) && r.value > 0.0
  {
    var v := Store.GetItem(store, LastPayloadEndKey);
    if Truthy(v) && ToNumber(v).Some? && ToNumber(v).value > 0.0 then ToNumber(v) else None
  }

  datatype Gap = Gap(sessionSeconds: real, elapsedSeconds: real)

  /** `getTimeBetweenLastPayload`: the elapsed time since the last payload
      end, and the part of it billed as session time. */
  function TimeBetweenLastPayload(store: Store.SessionFile, now: int): (r: Gap)
    ensures LastPayloadEnd(store).None? ==> r == Gap(0.0, DefaultElapsedSeconds)
    ensures LastPayloadEnd(store).Some? ==> r.elapsedSeconds == now as real - LastPayloadEnd(store).value
  {
    match LastPayloadEnd(store)
    case None => Gap(0.0, DefaultElapsedSeconds)
    case Some(last) =>
      var elapsed := now as real - last;
      var session := if elapsed > 0.0 && WithinThreshold(elapsed, SessionThresholdSeconds(store)) then elapsed else 0.0;
      Gap(session, elapsed)
  }

  /** An absent, falsy, non-numeric, zero or negative stored end gives no
      session time and the default one minute elapsed. */
  lemma NoLastEndDefaultGap(store: Store.SessionFile, now: int)
    requires var s := Store.ReadSession(store);
      || LastPayloadEndKey !in s
      || ToNumber(s[LastPayloadEndKey]).None?
      || ToNumber(s[LastPayloadEndKey]).value <= 0.0
    ensures TimeBetweenLastPayload(store, now) == Gap(0.0, DefaultElapsedSeconds)
  {
  }

  /** The gap is billed exactly when there is a previous payload end and the
      elapsed time is positive and within the threshold; then all of it is
      billed, otherwise none. */
  lemma GapBilledIff(store: Store.SessionFile, now: int)
    ensures var g := TimeBetweenLastPayload(store, now);
      && (g.sessionSeconds != 0.0 <==>
            LastPayloadEnd(store).Some? && g.elapsedSeconds > 0.0
            && WithinThreshold(g.elapsedSeconds, SessionThresholdSeconds(store)))
      && (g.sessionSeconds == 0.0 || g.sessionSeconds == g.elapsedSeconds)
  {
  }

  /** Session time is never negative and never exceeds the threshold. */
  lemma SessionSecondsBounded(store: Store.SessionFile, now: int)
    ensures var g := TimeBetweenLastPayload(store, now);
      && 0.0 <= g.sessionSeconds
      && (g.sessionSeconds > 0.0 ==> WithinThreshold(g.sessionSeconds, SessionThresholdSeconds(store)))
  {
  }

  // ---------------------------------------------------------------------
  // Normalising the summary
  // ---------------------------------------------------------------------

  /** The value a key holds after coalescing: kept when truthy, else 0. */
  function Coalesced(d: Summary, k: Key): JsValue
  {
    if k in d && Truthy(d[k]) then d[k] else Num(0.0)
  }

  /** The template key at position `i` or later. */
  predicate PendingField(k: Key, i: nat)
  {
    k.Known? && k.field as int >= i
  }

  /** `if (!data[key]) data[key] = 0` */
  function CoalesceKey(d: Summary, k: Key): Summary
  {
    if k in d && Truthy(d[k]) then d else d[k := Num(0.0)]
  }

  /** `Object.keys(template).forEach(...)` from the `i`-th field on. */
  function CoalesceFrom(d: Summary, i: nat): (r: Summary)
    requires i <= FieldCount
    ensures forall k :: k in r <==> k in d || PendingField(k, i)
    ensures forall k :: PendingField(k, i) ==> r[k] == Coalesced(d, k)
    ensures forall k :: k in d && !PendingField(k, i) ==> r[k] == d[k]
    decreases FieldCount - i
  {
    if i == FieldCount then d
    else
      var here := Known(i as Field);
      assert forall k :: PendingField(k, i) <==> k == here || PendingField(k, i + 1);
      CoalesceFrom(CoalesceKey(d, here), i + 1)
  }

  /** `coalesceMissingAttributes`: every template field that is missing or
      falsy becomes 0; truthy fields and every other key are kept. */
  function CoalesceMissingAttributes(d: Summary): (r: Summary)
    ensures forall k :: k in r <==> k in d || k.Known?
    ensures forall k: Key :: k.Known? ==> r[k] == Coalesced(d, k)
    ensures forall k: Key :: k.Known? ==> r[k] == Num(0.0) || Truthy(r[k])
    ensures forall k :: k in d && k.Extra? ==> r[k] == d[k]
  {
    CoalesceFrom(d, 0)
  }

  /** Coalescing adds only field keys, so a JSON-keyed document stays one. */
  lemma CoalesceKeepsJsonKeyed(d: Summary)
    requires JsonKeyed(d)
    ensures JsonKeyed(CoalesceMissingAttributes(d))
  {
  }

  /** Coalescing twice is coalescing once. */
  lemma CoalesceIdempotent(d: Summary)
    ensures CoalesceMissingAttributes(CoalesceMissingAttributes(d)) == CoalesceMissingAttributes(d)
  {
    CoalesceNormalises(d);
    CoalesceKeepsNormalised(CoalesceMissingAttributes(d));
  }

  /** The template is already normalised. */
  lemma CoalesceTemplate()
    ensures CoalesceMissingAttributes(Template) == Template
  {
    TemplateIsZeroFields();
    var t := CoalesceMissingAttributes(Template);
    assert t.Keys == Template.Keys;
    forall k | k in Template
      ensures t[k] == Template[k]
    {
      assert t[k] == Coalesced(Template, k);
    }
  }

  // ---------------------------------------------------------------------
  // Reading, incrementing, clearing, liveshare
  // ---------------------------------------------------------------------

  /** The data read, and the file afterwards: a missing file is replaced by
      the template on the way. */
  datatype Read = Read(data: Summary, file: SummaryFile)

  /** `getSessionSummaryData`: every template field of the data is numeric 0
      or truthy; a missing file reads as the template and is created. */
  function GetSessionSummaryData(file: SummaryFile): (r: Read)
    ensures r.file.Some?
    ensures file.Some? ==> r.file == file
    ensures file.None? ==> r.file == Some(Template) && r.data == Template
    ensures r.data == CoalesceMissingAttributes(r.file.value)
  {
    match file
    case None =>
      CoalesceTemplate();
      Read(Template, Some(Template))
    case Some(d) => Read(CoalesceMissingAttributes(d), file)
  }

  /** A keystroke aggregate: the counts of one flush interval. */
  datatype Aggregate = Aggregate(keystrokes: real, linesAdded: real, linesRemoved: real)

  function AddAggregates(a: Aggregate, b: Aggregate): Aggregate
  {
    Aggregate(a.keystrokes + b.keystrokes, a.linesAdded + b.linesAdded, a.linesRemoved + b.linesRemoved)
  }

  /** The counters of the stored summary do not hold text (`+=` would then
      concatenate strings). */
  predicate CountersNumeric(file: SummaryFile)
  {
    forall k :: k in Counters && file.Some? && k in file.value ==>
      Numeric(file.value[k]) || file.value[k] == Str("")
  }

  /** `sessionSeconds ? sessionSeconds / 60 : 0` */
  function SessionMinutes(sessionSeconds: real): (minutes: real)
    ensures minutes * 60.0 == sessionSeconds
  {
    if sessionSeconds != 0.0 then sessionSeconds / 60.0 else 0.0
  }

  lemma SessionMinutesAdd(s1: real, s2: real)
    ensures SessionMinutes(s1) + SessionMinutes(s2) == SessionMinutes(s1 + s2)
  {
  }

  /** Every counter is present and adds as a number. */
  predicate CountersAddable(d: Summary)
  {
    forall k :: k in Counters ==> k in d && Numeric(d[k])
  }

  /** Coalescing turns falsy counters into 0, so the counters read from a
      file without counter text add as numbers. */
  lemma ReadCountersAddable(file: SummaryFile)
    requires CountersNumeric(file)
    ensures CountersAddable(GetSessionSummaryData(file).data)
  {
    forall k | k in Counters
      ensures k in GetSessionSummaryData(file).data && Numeric(GetSessionSummaryData(file).data[k])
    {
      ReadCounterNumeric(file, k);
    }
  }

  lemma ReadCounterNumeric(file: SummaryFile, k: Key)
    requires CountersNumeric(file)
    requires k in Counters
    ensures k in GetSessionSummaryData(file).data && Numeric(GetSessionSummaryData(file).data[k])
  {
    if file.None? {
      TemplateIsZeroFields();
    } else {
      assert GetSessionSummaryData(file).data[k] == Coalesced(file.value, k);
    }
  }

  /** What an increment adds to counter `k`. */
  function Delta(k: Key, agg: Aggregate, sessionMinutes: real): real
  {
    if k == Known(CurrentDayMinutes) then sessionMinutes
    else if k == Known(CurrentDayKeystrokes) then agg.keystrokes
    else if k == Known(CurrentDayLinesAdded) then agg.linesAdded
    else agg.linesRemoved
  }

  /** The four `+=` updates on the data read. */
  function AddToCounters(d: Summary, agg: Aggregate, sessionMinutes: real): (r: Summary)
    requires CountersAddable(d)
    ensures CountersAddable(r) && r.Keys == d.Keys
    ensures r[Known(CurrentDayMinutes)] == Plus(d[Known(CurrentDayMinutes)], sessionMinutes)
    ensures r[Known(CurrentDayKeystrokes)] == Plus(d[Known(CurrentDayKeystrokes)], agg.keystrokes)
    ensures r[Known(CurrentDayLinesAdded)] == Plus(d[Known(CurrentDayLinesAdded)], agg.linesAdded)
    ensures r[Known(CurrentDayLinesRemoved)] == Plus(d[Known(CurrentDayLinesRemoved)], agg.linesRemoved)
    ensures forall k :: k in d && k !in Counters ==> r[k] == d[k]
  {
    map k | k in d :: if k in Counters then Plus(d[k], Delta(k, agg, sessionMinutes)) else d[k]
  }

  /** `incrementSessionSummaryData`: the summary file written afterwards.
      The four counters grow by the session minutes and the aggregate's
      counts; every other key keeps the value read. */
  function IncrementSessionSummaryData(file: SummaryFile, agg: Aggregate, sessionSeconds: real): (r: SummaryFile)
    requires CountersNumeric(file)
    ensures CountersAddable(GetSessionSummaryData(file).data)
    ensures r.Some? && CountersAddable(r.value)
    ensures var d := GetSessionSummaryData(file).data;
      && r.value.Keys == d.Keys
      && r.value[Known(CurrentDayMinutes)] == Plus(d[Known(CurrentDayMinutes)], sessionSeconds / 60.0)
      && r.value[Known(CurrentDayKeystrokes)] == Plus(d[Known(CurrentDayKeystrokes)], agg.keystrokes)
      && r.value[Known(CurrentDayLinesAdded)] == Plus(d[Known(CurrentDayLinesAdded)], agg.linesAdded)
      && r.value[Known(CurrentDayLinesRemoved)] == Plus(d[Known(CurrentDayLinesRemoved)], agg.linesRemoved)
      && forall k :: k in d && k !in Counters ==> r.value[k] == d[k]
  {
    var d := GetSessionSummaryData(file).data;
    ReadCountersAddable(file);
    assert SessionMinutes(sessionSeconds) == sessionSeconds / 60.0;
    Some(AddToCounters(d, agg, SessionMinutes(sessionSeconds)))
  }

  /** Field `k` is present and is 0 or truthy, as coalescing leaves it. */
  predicate NormalAt(d: Summary, k: Key)
  {
    k in d && (d[k] == Num(0.0) || Truthy(d[k]))
  }

  /** Every template field is normal. */
  ghost predicate Normalised(d: Summary)
  {
    forall k: Key :: k.Known? ==> NormalAt(d, k)
  }

  /** Coalescing leaves a normalised summary. */
  lemma CoalesceNormalises(d: Summary)
    ensures Normalised(CoalesceMissingAttributes(d))
  {
    var c := CoalesceMissingAttributes(d);
    forall k: Key | k.Known?
      ensures NormalAt(c, k)
    {
    }
  }

  /** Coalescing a normalised summary changes nothing. */
  lemma CoalesceKeepsNormalised(d: Summary)
    requires Normalised(d)
    ensures CoalesceMissingAttributes(d) == d
  {
    var c := CoalesceMissingAttributes(d);
    forall k | k in c
      ensures k in d && c[k] == d[k]
    {
      CoalesceKeepsKey(d, k);
    }
    SubmapOfSameKeys(c, d);
  }

  /** A summary agreeing with another on its keys and holding all of the
      other's keys is that summary. */
  lemma SubmapOfSameKeys(c: Summary, d: Summary)
    requires forall k :: k in c ==> k in d && c[k] == d[k]
    requires forall k :: k in d ==> k in c
    ensures c == d
  {
    assert c.Keys == d.Keys;
  }

  /** Coalescing keeps every key of a normalised summary as it is. */
  lemma CoalesceKeepsKey(d: Summary, k: Key)
    requires Normalised(d)
    requires k in CoalesceMissingAttributes(d)
    ensures k in d && CoalesceMissingAttributes(d)[k] == d[k]
  {
    if k.Known? {
      assert NormalAt(d, k);
      assert CoalesceMissingAttributes(d)[k] == Coalesced(d, k);
    }
  }

  /** The counter updates keep a summary normalised. */
  lemma AddToCountersKeepsNormalised(d: Summary, agg: Aggregate, minutes: real)
    requires CountersAddable(d) && Normalised(d)
    ensures Normalised(AddToCounters(d, agg, minutes))
  {
    var r := AddToCounters(d, agg, minutes);
    forall k: Key | k.Known?
      ensures NormalAt(r, k)
    {
      assert NormalAt(d, k);
      if k in Counters {
        assert r[k].Num?;
      } else {
        assert r[k] == d[k];
      }
    }
  }

  /** Updating the counters twice is updating them once by the sums (`m`
      is the summed minutes, named so callers can supply it in any form). */
  lemma AddToCountersTwice(d: Summary, a1: Aggregate, m1: real, a2: Aggregate, m2: real, m: real)
    requires CountersAddable(d)
    requires m == m1 + m2
    ensures AddToCounters(AddToCounters(d, a1, m1), a2, m2) == AddToCounters(d, AddAggregates(a1, a2), m)
  {
    var once := AddToCounters(d, a1, m1);
    var lhs := AddToCounters(once, a2, m2);
    var rhs := AddToCounters(d, AddAggregates(a1, a2), m);
    forall k | k in lhs
      ensures lhs[k] == rhs[k]
    {
      if k in Counters {
        assert Delta(k, AddAggregates(a1, a2), m) == Delta(k, a1, m1) + Delta(k, a2, m2);
      }
    }
    assert lhs.Keys == rhs.Keys;
  }

  /** An increment applies the counter updates to the data read. */
  lemma IncrementIsAddToCounters(file: SummaryFile, agg: Aggregate, s: real)
    requires CountersNumeric(file)
    ensures CountersAddable(GetSessionSummaryData(file).data)
    ensures IncrementSessionSummaryData(file, agg, s)
      == Some(AddToCounters(GetSessionSummaryData(file).data, agg, SessionMinutes(s)))
  {
    ReadCountersAddable(file);
  }

  /** What an increment writes is normalised. */
  lemma IncrementNormalised(file: SummaryFile, agg: Aggregate, s: real)
    requires CountersNumeric(file)
    ensures Normalised(IncrementSessionSummaryData(file, agg, s).value)
  {
    IncrementIsAddToCounters(file, agg, s);
    if file.None? {
      CoalesceNormalises(Template);
    } else {
      CoalesceNormalises(file.value);
    }
    AddToCountersKeepsNormalised(GetSessionSummaryData(file).data, agg, SessionMinutes(s));
  }

  /** Incrementing a normalised file updates its counters in place. */
  lemma IncrementOfNormalised(file: SummaryFile, agg: Aggregate, s: real)
    requires file.Some? && CountersAddable(file.value) && Normalised(file.value)
    ensures IncrementSessionSummaryData(file, agg, s) == Some(AddToCounters(file.value, agg, SessionMinutes(s)))
  {
    CoalesceKeepsNormalised(file.value);
    IncrementIsAddToCounters(file, agg, s);
  }

  /** The second of two increments updates the counters of the first in place. */
  lemma IncrementAfterIncrement(file: SummaryFile, a1: Aggregate, s1: real, a2: Aggregate, s2: real)
    requires CountersNumeric(file)
    ensures CountersAddable(GetSessionSummaryData(file).data)
    ensures IncrementSessionSummaryData(IncrementSessionSummaryData(file, a1, s1), a2, s2)
      == Some(AddToCounters(AddToCounters(GetSessionSummaryData(file).data, a1, SessionMinutes(s1)), a2, SessionMinutes(s2)))
  {
    IncrementIsAddToCounters(file, a1, s1);
    IncrementNormalised(file, a1, s1);
    IncrementOfNormalised(IncrementSessionSummaryData(file, a1, s1), a2, s2);
  }

  /** Two successive increments are one increment by the sums: the counters
      add both aggregates and both session times, nothing else changes. */
  lemma {:induction false} IncrementTwiceAdds(file: SummaryFile, a1: Aggregate, s1: real, a2: Aggregate, s2: real)
    requires CountersNumeric(file)
    ensures var once := IncrementSessionSummaryData(file, a1, s1);
      IncrementSessionSummaryData(once, a2, s2)
        == IncrementSessionSummaryData(file, AddAggregates(a1, a2), s1 + s2)
  {
    IncrementAfterIncrement(file, a1, s1, a2, s2);
    IncrementIsAddToCounters(file, AddAggregates(a1, a2), s1 + s2);
    SessionMinutesAdd(s1, s2);
    AddToCountersTwice(GetSessionSummaryData(file).data, a1, SessionMinutes(s1), a2, SessionMinutes(s2), SessionMinutes(s1 + s2));
  }

  /** `clearSessionSummaryData`: the file written. */
  function ClearSessionSummaryData(): (r: SummaryFile)
    ensures r.Some? && forall k :: k in r.value <==> k.Known?
    ensures forall k :: k in r.value ==> r.value[k] == Num(0.0)
  {
    TemplateIsZeroFields();
    Some(Template)
  }

  /** After a clear every read yields the fresh template, all fields 0. */
  lemma ReadAfterClear()
    ensures var d := GetSessionSummaryData(ClearSessionSummaryData()).data;
      d == Template && forall k: Key :: k.Known? ==> k in d && d[k] == Num(0.0)
  {
    CoalesceTemplate();
    TemplateIsZeroFields();
  }

  /** `setSessionSummaryLiveshareMinutes`: the file written. */
  function SetSessionSummaryLiveshareMinutes(file: SummaryFile, minutes: JsValue): (r: SummaryFile)
    ensures r.Some? && Known(LiveshareMinutes) in r.value
    ensures var d := GetSessionSummaryData(file).data;
      && r.value.Keys == d.Keys
      && r.value[Known(LiveshareMinutes)] == minutes
      && forall k :: k in d && k != Known(LiveshareMinutes) ==> r.value[k] == d[k]
  {
    var d := GetSessionSummaryData(file).data;
    Some(d[Known(LiveshareMinutes) := minutes])
  }

  // ---------------------------------------------------------------------
  // Status bar
  // ---------------------------------------------------------------------

  const RocketIcon: string := "$(rocket)"
  const ClockIcon: string := "$(clock)"

  /** The icon: above-average days get the rocket. */
  function InFlowIcon(activeCodeTimeMinutes: real, averageDailyMinutes: JsValue): (icon: string)
    ensures icon == RocketIcon || icon == ClockIcon
    ensures icon == RocketIcon <==>
      ToNumber(averageDailyMinutes).Some? && activeCodeTimeMinutes > ToNumber(averageDailyMinutes).value
    // a missing average compares as 0
    ensures averageDailyMinutes == Null ==> (icon == RocketIcon <==> activeCodeTimeMinutes > 0.0)
  {
    match ToNumber(averageDailyMinutes)
    case Some(avg) => if activeCodeTimeMinutes > avg then RocketIcon else ClockIcon
    case None => ClockIcon
  }

  datatype StatusUpdate = StatusUpdate(bar: Store.StatusBar, file: SummaryFile)

  /** `updateStatusBarWithSummaryData`: the status bar shown, given today's
      active code time and its humanized form (both computed outside this
      model), and the summary file after the read. */
  function UpdateStatusBarWithSummaryData(file: SummaryFile, activeCodeTimeMinutes: real, humanized: string): (r: StatusUpdate)
    ensures r.file == GetSessionSummaryData(file).file
    ensures r.bar.tooltip == Store.DefaultTooltip
  {
    var data := GetSessionSummaryData(file).data;
    var icon := InFlowIcon(activeCodeTimeMinutes, data[Known(AverageDailyMinutes)]);
    StatusUpdate(Store.ShowStatus(icon + " " + humanized, ""), GetSessionSummaryData(file).file)
  }

  /** The text is the rocket exactly when today's active minutes are strictly
      above the stored (numeric) daily average, the clock otherwise; the
      humanized minutes follow after a space. */
  lemma StatusIconIff(file: SummaryFile, active: real, humanized: string)
    ensures var text := UpdateStatusBarWithSummaryData(file, active, humanized).bar.text;
      var avg := GetSessionSummaryData(file).data[Known(AverageDailyMinutes)];
      && text == (if ToNumber(avg).Some? && active > ToNumber(avg).value then RocketIcon else ClockIcon) + " " + humanized
      && (file.None? ==> (text == RocketIcon + " " + humanized <==> active > 0.0))
  {
  }
}
