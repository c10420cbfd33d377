/**
 * TaskProcessing.js: quarter-hour rounding, duration parsing, billing-month
 * allocation, database routing and the two-tier match against existing records.
 * Every member is a pure function of its arguments.
 */
module TaskProcessing {
  import opened Js
  import opened Calendar

  // ---------------------------------------------------------------------------
  // Quarter-hour arithmetic
  // ---------------------------------------------------------------------------

  /** `x` is a whole number of quarter hours. */
  predicate IsQuarter(x: real)
  {
    (4.0 * x).Floor as real == 4.0 * x
  }

  /**
   * `Math.round(minutes / 15) * 15 / 60`, where `Math.round(x)` is `floor(x + 1/2)`.
   * The result is the unique quarter hour in the half-open window of width 1/4
   * hour that ends at `minutes / 60 + 1/8`: the nearest quarter, halves upward.
   */
  function RoundToQuarterHour(minutes: real): (hours: real)
    ensures IsQuarter(hours)
    ensures minutes / 60.0 - 0.125 < hours <= minutes / 60.0 + 0.125
  {
    ((minutes / 15.0 + 0.5).Floor as real) * 15.0 / 60.0
  }

  /** `roundToQuarterHour` applied to a JavaScript number: NaN stays NaN. */
  function RoundNumber(n: JsNumber): (r: JsNumber)
    ensures r.NaN? <==> n.NaN?
    ensures n.Finite? ==> r.value == RoundToQuarterHour(n.value)
  {
    match n
    case Finite(v) => Finite(RoundToQuarterHour(v))
    case NaN => NaN
  }

  /** The two bounds of `RoundToQuarterHour` determine its result. */
  lemma QuarterUnique(minutes: real, q: real)
    requires IsQuarter(q)
    requires minutes / 60.0 - 0.125 < q <= minutes / 60.0 + 0.125
    ensures RoundToQuarterHour(minutes) == q
  {
    var r := RoundToQuarterHour(minutes);
    var a, b := (4.0 * q).Floor, (4.0 * r).Floor;
    assert a as real == 4.0 * q && b as real == 4.0 * r;
    assert -1 < a - b < 1;
  }

  lemma RoundMonotone(m1: real, m2: real)
    requires m1 <= m2
    ensures RoundToQuarterHour(m1) <= RoundToQuarterHour(m2)
  {
    var a, b := (m1 / 15.0 + 0.5).Floor, (m2 / 15.0 + 0.5).Floor;
    assert a as real <= m1 / 15.0 + 0.5 <= m2 / 15.0 + 0.5 < b as real + 1.0;
    assert a <= b;
  }

  /** A quarter-hour value expressed in minutes rounds back to itself. */
  lemma ReRound(q: real)
    requires IsQuarter(q)
    ensures RoundToQuarterHour(60.0 * q) == q
  {
    QuarterUnique(60.0 * q, q);
  }

  /**
   * Rounding a value that is already in hours reads it as minutes: every value
   * from -7.5 up to (but excluding) 7.5 rounds to 0.
   */
  lemma HoursReadAsMinutes(hours: real)
    requires -7.5 <= hours < 7.5
    ensures RoundToQuarterHour(hours) == 0.0
  {
    assert IsQuarter(0.0);
    QuarterUnique(hours, 0.0);
  }

  /** Hence rounding twice is not rounding once: one hour becomes zero. */
  lemma RoundTwiceLosesTheHour()
    ensures RoundToQuarterHour(60.0) == 1.0
    ensures RoundToQuarterHour(RoundToQuarterHour(60.0)) == 0.0
  {
    assert IsQuarter(1.0);
    QuarterUnique(60.0, 1.0);
    HoursReadAsMinutes(1.0);
  }

  // ---------------------------------------------------------------------------
  // Duration parsing
  // ---------------------------------------------------------------------------

  /** `h * 60 + m + s / 60` on JavaScript numbers: NaN when any operand is NaN. */
  function TotalMinutes(h: JsNumber, m: JsNumber, s: JsNumber): (r: JsNumber)
    ensures r.Finite? <==> h.Finite? && m.Finite? && s.Finite?
    ensures r.Finite? ==> r.value == h.value * 60.0 + m.value + s.value / 60.0
  {
    if h.Finite? && m.Finite? && s.Finite? then Finite(h.value * 60.0 + m.value + s.value / 60.0) else NaN
  }

  /**
   * `parseDuration("h:m:s")`: split on `:`, convert the first three fields with
   * `Number`, and round `h * 60 + m + s / 60` minutes to quarter hours. A missing
   * field (undefined) or a field that is not a number makes the result NaN.
   */
  function ParseDuration(durationStr: string): (r: JsNumber)
    ensures r.Finite? ==> IsQuarter(r.value) && r.value >= 0.0
    ensures |Split(durationStr, ':')| < 3 ==> r.NaN?
  {
    var parts := Split(durationStr, ':');
    if |parts| < 3 then NaN
    else
      var r := RoundNumber(TotalMinutes(ToNumber(parts[0]), ToNumber(parts[1]), ToNumber(parts[2])));
      assert r.Finite? ==> (4.0 * r.value).Floor >= 0;
      r
  }

  lemma ParseDurationOfFields(str: string, h: string, m: string, s: string)
    requires Split(str, ':') == [h, m, s]
    ensures ParseDuration(str) == RoundNumber(TotalMinutes(ToNumber(h), ToNumber(m), ToNumber(s)))
  {
    var parts := Split(str, ':');
    assert parts[0] == h && parts[1] == m && parts[2] == s;
    assert |parts| == 3;
  }

  lemma DigitsHaveNoColon(x: string)
    requires AllDigits(x)
    ensures ':' !in x
  {
    forall k | 0 <= k < |x| ensures x[k] != ':' {
      assert IsDigit(x[k]);
    }
  }

  lemma SplitThreeDigitFields(h: string, m: string, s: string)
    requires AllDigits(h) && AllDigits(m) && AllDigits(s)
    ensures Split(h + [':'] + m + [':'] + s, ':') == [h, m, s]
  {
    DigitsHaveNoColon(h);
    DigitsHaveNoColon(m);
    DigitsHaveNoColon(s);
    var rest := m + [':'] + s;
    assert h + [':'] + m + [':'] + s == h + [':'] + rest;
    SplitCons(h, ':', rest);
    SplitCons(m, ':', s);
    assert Split(s, ':') == [s];
  }

  lemma RoundFiniteFields(h: string, m: string, s: string, a: real, b: real, c: real)
    requires ToNumber(h) == Finite(a) && ToNumber(m) == Finite(b) && ToNumber(s) == Finite(c)
    ensures RoundNumber(TotalMinutes(ToNumber(h), ToNumber(m), ToNumber(s)))
      == Finite(RoundToQuarterHour(a * 60.0 + b + c / 60.0))
  {
    assert TotalMinutes(ToNumber(h), ToNumber(m), ToNumber(s)) == TotalMinutes(Finite(a), Finite(b), Finite(c));
  }

  /** A duration whose three fields are numbers is the rounded total of minutes. */
  lemma ParseDurationValue(str: string, h: string, m: string, s: string, a: real, b: real, c: real)
    requires Split(str, ':') == [h, m, s]
    requires ToNumber(h) == Finite(a) && ToNumber(m) == Finite(b) && ToNumber(s) == Finite(c)
    ensures ParseDuration(str) == Finite(RoundToQuarterHour(a * 60.0 + b + c / 60.0))
  {
    ParseDurationOfFields(str, h, m, s);
    RoundFiniteFields(h, m, s, a, b, c);
  }

  /** `"h:m:s"` built from three digit strings parses to the rounded total of their values. */
  lemma ParseDurationOfDigits(h: string, m: string, s: string, a: real, b: real, c: real)
    requires AllDigits(h) && AllDigits(m) && AllDigits(s)
    requires a == DigitsValue(h) as real && b == DigitsValue(m) as real && c == DigitsValue(s) as real
    ensures ParseDuration(h + [':'] + m + [':'] + s) == Finite(RoundToQuarterHour(a * 60.0 + b + c / 60.0))
  {
    SplitThreeDigitFields(h, m, s);
    ToNumberOfDigits(h);
    ToNumberOfDigits(m);
    ToNumberOfDigits(s);
    ParseDurationValue(h + [':'] + m + [':'] + s, h, m, s, a, b, c);
  }

  /**
   * Boundary cases of the rounding a duration goes through (in minutes):
   * 90 is 1.5 hours, 7 rounds down, 8 and 7.5 round up.
   */
  lemma RoundingExamples()
    ensures RoundToQuarterHour(90.0) == 1.5
    ensures RoundToQuarterHour(7.0) == 0.0
    ensures RoundToQuarterHour(8.0) == 0.25
    ensures RoundToQuarterHour(7.5) == 0.25
  {
    assert IsQuarter(1.5) && IsQuarter(0.0) && IsQuarter(0.25);
    QuarterUnique(90.0, 1.5);
    QuarterUnique(7.0, 0.0);
    QuarterUnique(8.0, 0.25);
    QuarterUnique(7.5, 0.25);
  }

  // ---------------------------------------------------------------------------
  // Billing-month allocation
  // ---------------------------------------------------------------------------

  /** `new Date(year, month, billingDay)` for the task's own month. */
  function BillingMonthStart(taskDate: CivilDate, billingDay: int): int
  {
    NewDate(taskDate.year, taskDate.month - 1, billingDay)
  }

  /** `new Date(year, month + 1, billingDay)`: the same day one month on. */
  function BillingMonthEnd(taskDate: CivilDate, billingDay: int): int
  {
    NewDate(taskDate.year, taskDate.month, billingDay)
  }

  /**
   * The billing window is as long as the task's month, whatever the billing
   * day: a day past the month's end moves both bounds by the same amount.
   */
  lemma BillingWindowLength(taskDate: CivilDate, billingDay: int)
    requires 1 <= taskDate.month <= 12
    ensures var y := if 0 <= taskDate.year <= 99 then 1900 + taskDate.year else taskDate.year;
      BillingMonthEnd(taskDate, billingDay) - BillingMonthStart(taskDate, billingDay) == DaysInMonth(y, taskDate.month)
  {
    var y := if 0 <= taskDate.year <= 99 then 1900 + taskDate.year else taskDate.year;
    var mi := taskDate.month - 1;
    assert BillingMonthStart(taskDate, billingDay) == MakeDay(y, mi, billingDay);
    assert BillingMonthEnd(taskDate, billingDay) == MakeDay(y, mi + 1, billingDay);
    NextMonthSameDay(y, mi, billingDay);
  }

  /**
   * `calculateDurationMonth(date, billingDate, duration)`. The task counts in
   * full when its day of month is on or after the billing day, and not at all
   * before it. The third branch (task on or after the end of the billing
   * month) cannot be reached by a whole-day date, and years 0..99, which
   * `new Date` reads as 1900..1999, always fall before the billing month.
   */
  function CalculateDurationMonth(taskDate: CivilDate, billingDate: CivilDate, totalDuration: JsNumber): (r: JsNumber)
    ensures taskDate.Valid() && billingDate.Valid() ==>
      r == if (taskDate.year < 0 || 99 < taskDate.year) && billingDate.day <= taskDate.day
           then totalDuration else Finite(0.0)
  {
    var billingDay := billingDate.day;
    var task := DayNumber(taskDate);
    var start := BillingMonthStart(taskDate, billingDay);
    var end := BillingMonthEnd(taskDate, billingDay);
    assert taskDate.Valid() && billingDate.Valid() ==>
      task < end && (0 <= taskDate.year <= 99 ==> task < start) by {
      if taskDate.Valid() && billingDate.Valid() {
        BillingWindowFacts(taskDate, billingDay);
      }
    }
    if start <= task && task < end then totalDuration
    else if task < start then Finite(0.0)
    else Finite(RoundToQuarterHour(((end - task) * 24) as real))
  }

  /**
   * A whole-day task date always lies before the end of its billing month, and
   * a year from 0 to 99 lies before its start.
   */
  lemma BillingWindowFacts(taskDate: CivilDate, billingDay: int)
    requires taskDate.Valid() && 1 <= billingDay <= 31
    ensures DayNumber(taskDate) < BillingMonthEnd(taskDate, billingDay)
    ensures 0 <= taskDate.year <= 99 ==> DayNumber(taskDate) < BillingMonthStart(taskDate, billingDay)
  {
    if 0 <= taskDate.year <= 99 {
      TwoDigitYearIsLater(taskDate, taskDate.month - 1, billingDay);
      BeforeNextMonth(taskDate, billingDay);
      MonthOverflow(1900 + taskDate.year, taskDate.month - 1, billingDay);
    } else {
      BeforeNextMonth(taskDate, billingDay);
    }
  }

  /** In the third branch the overlap `end - task` is not positive, and neither is the result. */
  lemma OverlapBranchNotPositive(end: int, task: int)
    requires task >= end
    ensures RoundToQuarterHour(((end - task) * 24) as real) <= 0.0
  {
    RoundMonotone(((end - task) * 24) as real, 0.0);
    HoursReadAsMinutes(0.0);
  }

  // ---------------------------------------------------------------------------
  // Database routing
  // ---------------------------------------------------------------------------

  /** The routing table read from the configuration database. */
  datatype DatabaseConfig = DatabaseConfig(default: string, work: string, personal: string, clients: map<string, string>)

  predicate IsConfigValue(config: DatabaseConfig, id: string)
  {
    id == config.default || id == config.work || id == config.personal || id in config.clients.Values
  }

  /**
   * `getDatabaseId(category, client, databaseConfig)`. An empty result means no
   * database was found (the source logs an error and returns it anyway).
   */
  function GetDatabaseId(category: Option<string>, client: Option<string>, config: DatabaseConfig): (id: string)
    ensures category == Some("Client Work") && Truthy(client) ==>
      id == if client.value in config.clients && config.clients[client.value] != ""
            then config.clients[client.value] else config.default
    ensures category == Some("Work") ==> id == config.work
    ensures category == Some("Personal") ==> id == config.personal
    ensures category == Some("Client Work") && !Truthy(client) ==> id == config.default
    ensures category != Some("Client Work") && category != Some("Work") && category != Some("Personal") ==>
      id == config.default
    ensures IsConfigValue(config, id)
  {
    if category == Some("Client Work") && Truthy(client) then
      var fromClient := if client.value in config.clients then config.clients[client.value] else "";
      if fromClient != "" then fromClient else config.default
    else if category == Some("Work") then config.work
    else if category == Some("Personal") then config.personal
    else config.default
  }

  /** Once the three required ids are present, routing always finds a database. */
  lemma RoutingNeverEmptyWhenVerified(category: Option<string>, client: Option<string>, config: DatabaseConfig)
    requires config.default != "" && config.work != "" && config.personal != ""
    ensures GetDatabaseId(category, client, config) != ""
  {
  }

  // ---------------------------------------------------------------------------
  // Matching against existing records
  // ---------------------------------------------------------------------------

  /**
   * A page of the target database as the match and the update read it: its
   * page id, the first TaskID rich-text content (None when the rich text is
   * empty), the first title text (None when the title is empty, which makes
   * reading it throw) and the stored Duration number (None for null).
   */
  datatype ExistingRecord = ExistingRecord(id: string, taskId: Option<string>, name: Option<string>, duration: Option<JsNumber>)

  /**
   * `toLowerCase` as far as the cleaning below can tell: the ASCII capitals,
   * and the two other capitals whose lower case is an ASCII letter. U+0130
   * (capital I with dot above) becomes "i" followed by U+0307, which the
   * cleaning removes, and U+212A (Kelvin sign) becomes "k". Every other
   * character maps to itself; where `toLowerCase` maps it to another
   * character, neither is kept.
   */
  function Lower(c: char): (l: char)
    ensures 'A' <= c <= 'Z' ==> 'a' <= l <= 'z' && l as int == c as int + 32
    ensures c == '\U{0130}' ==> l == 'i'
    ensures c == '\U{212A}' ==> l == 'k'
    ensures !('A' <= c <= 'Z') && c != '\U{0130}' && c != '\U{212A}' ==> l == c
  {
    if 'A' <= c <= 'Z' then (c as int + 32) as char
    else if c == '\U{0130}' then 'i'
    else if c == '\U{212A}' then 'k'
    else c
  }

  /** The characters `/[^a-z0-9\s]/g` keeps. */
  predicate Kept(c: char)
  {
    'a' <= c <= 'z' || '0' <= c <= '9' || IsSpace(c)
  }

  predicate IsClean(s: string)
  {
    forall k :: 0 <= k < |s| ==> Kept(s[k])
  }

  /** `s.toLowerCase().replace(/[^a-z0-9\s]/g, '')`. */
  function CleanName(s: string): (c: string)
    ensures IsClean(c)
    ensures |c| <= |s|
  {
    if s == [] then []
    else
      var l := Lower(s[0]);
      (if Kept(l) then [l] else []) + CleanName(s[1..])
  }

  /** A name starting with U+0130 or U+212A cleans as if it started with "i" or "k": "İstanbul" is "istanbul". */
  lemma NonAsciiCapitals(s: string)
    ensures CleanName(['\U{0130}'] + s) == ['i'] + CleanName(s)
    ensures CleanName(['\U{212A}'] + s) == ['k'] + CleanName(s)
  {
    assert (['\U{0130}'] + s)[1..] == s;
    assert (['\U{212A}'] + s)[1..] == s;
  }

  lemma {:induction false} CleanNameOfClean(s: string)
    requires IsClean(s)
    ensures CleanName(s) == s
  {
    if s != [] {
      assert Kept(s[0]);
      assert Lower(s[0]) == s[0];
      CleanNameOfClean(s[1..]);
    }
  }

  lemma {:induction false} CleanNameAppend(a: string, b: string)
    ensures CleanName(a + b) == CleanName(a) + CleanName(b)
  {
    if a != [] {
      assert (a + b)[1..] == a[1..] + b;
      CleanNameAppend(a[1..], b);
    } else {
      assert a + b == b;
    }
  }

  /** Cleaning is idempotent. */
  lemma CleanNameIdempotent(s: string)
    ensures CleanName(CleanName(s)) == CleanName(s)
  {
    CleanNameOfClean(CleanName(s));
  }

  /** Names that differ only in the case of their letters clean to the same string. */
  lemma {:induction false} CleanNameIgnoresCase(s: string, t: string)
    requires |s| == |t| && forall k :: 0 <= k < |s| ==> Lower(s[k]) == Lower(t[k])
    ensures CleanName(s) == CleanName(t)
  {
    if s != [] {
      CleanNameIgnoresCase(s[1..], t[1..]);
    }
  }

  /** Characters that cleaning removes (punctuation, symbols) vanish wherever they stand. */
  lemma {:induction false} CleanNameOfRemoved(p: string)
    requires forall k :: 0 <= k < |p| ==> !Kept(Lower(p[k]))
    ensures CleanName(p) == []
  {
    if p != [] {
      CleanNameOfRemoved(p[1..]);
    }
  }

  lemma CleanNameIgnoresPunctuation(a: string, p: string, b: string)
    requires forall k :: 0 <= k < |p| ==> !Kept(Lower(p[k]))
    ensures CleanName(a + p + b) == CleanName(a + b)
  {
    CleanNameAppend(a + p, b);
    CleanNameAppend(a, p);
    CleanNameAppend(a, b);
    CleanNameOfRemoved(p);
    assert CleanName(a + p) == CleanName(a) + [];
    assert CleanName(a) + [] == CleanName(a);
  }

  /** The first index from `from` on whose TaskID is `taskId`, or `|existing|`. */
  function FindById(existing: seq<ExistingRecord>, taskId: string, from: nat): (i: nat)
    requires from <= |existing|
    ensures from <= i <= |existing|
    ensures i < |existing| ==> existing[i].taskId == Some(taskId)
    ensures forall j :: from <= j < i ==> existing[j].taskId != Some(taskId)
    decreases |existing| - from
  {
    if from == |existing| || existing[from].taskId == Some(taskId) then from
    else FindById(existing, taskId, from + 1)
  }

  /** The record has a title and it does not clean to `cleaned`. */
  predicate NameDiffers(rec: ExistingRecord, cleaned: string)
  {
    rec.name.Some? && CleanName(rec.name.value) != cleaned
  }

  predicate NameMatches(rec: ExistingRecord, cleaned: string)
  {
    rec.name.Some? && CleanName(rec.name.value) == cleaned
  }

  /**
   * `existingTasks.find(...)` on cleaned titles, from index `from` on: the first
   * record whose title cleans to `cleaned`; reading the title of a record that
   * has none throws.
   */
  function FindByName(existing: seq<ExistingRecord>, cleaned: string, from: nat): (r: Result<Option<nat>, Error>)
    requires from <= |existing|
    ensures r.Ok? && r.value.Some? ==>
      from <= r.value.value < |existing| && NameMatches(existing[r.value.value], cleaned)
      && forall j :: from <= j < r.value.value ==> NameDiffers(existing[j], cleaned)
    ensures r.Ok? && r.value.None? ==> forall j :: from <= j < |existing| ==> NameDiffers(existing[j], cleaned)
    ensures r.Err? ==> (r.error == TypeError
      && exists j :: from <= j < |existing| && existing[j].name.None?
                     && forall k :: from <= k < j ==> NameDiffers(existing[k], cleaned))
    decreases |existing| - from
  {
    if from == |existing| then Ok(None)
    else match existing[from].name
      case None => Err(TypeError)
      case Some(n) =>
        if CleanName(n) == cleaned then Ok(Some(from))
        else FindByName(existing, cleaned, from + 1)
  }

  /**
   * `findMatchingTask(taskName, taskId, existingTasks)`, giving the index of the
   * matching record. With a truthy `taskId` only the TaskID is compared; otherwise
   * cleaned names are compared. The name of the candidate is read (and throws
   * when undefined) only in the second case.
   */
  function FindMatchingTask(taskName: Option<string>, taskId: Option<string>, existing: seq<ExistingRecord>)
    : (r: Result<Option<nat>, Error>)
    ensures Truthy(taskId) ==> r.Ok?
    ensures Truthy(taskId) ==>
      (r.value.Some? <==> exists i :: 0 <= i < |existing| && existing[i].taskId == taskId)
    ensures Truthy(taskId) && r.Ok? && r.value.Some? ==>
      r.value.value < |existing| && existing[r.value.value].taskId == taskId
      && forall j :: 0 <= j < r.value.value ==> existing[j].taskId != taskId
    ensures !Truthy(taskId) && taskName.None? ==> r == Err(TypeError)
    ensures !Truthy(taskId) && taskName.Some? ==> r == FindByName(existing, CleanName(taskName.value), 0)
  {
    if Truthy(taskId) then
      var i := FindById(existing, taskId.value, 0);
      Ok(if i < |existing| then Some(i) else None)
    else if taskName.None? then Err(TypeError)
    else FindByName(existing, CleanName(taskName.value), 0)
  }

  /** With a TaskID the name plays no part: there is no fallback to name matching. */
  lemma NoNameFallback(name1: Option<string>, name2: Option<string>, taskId: Option<string>, existing: seq<ExistingRecord>)
    requires Truthy(taskId)
    ensures FindMatchingTask(name1, taskId, existing) == FindMatchingTask(name2, taskId, existing)
  {
  }
}
