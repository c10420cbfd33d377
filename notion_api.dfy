/**
 * NotionAPI.js: the fold that turns configuration rows into a routing table,
 * the create-versus-update decision and the fields each request carries, the
 * accumulating `updateExistingTask`, `createNewTask`, and `retryOperation`.
 * Every HTTP exchange is an argument: the snapshot of existing records, the
 * billing date, the status code of the request, and the id `generateTaskId`
 * would produce.
 */
module NotionApi {
  import opened Js
  import opened Calendar
  import opened TaskProcessing

  // ---------------------------------------------------------------------------
  // Configuration fold
  // ---------------------------------------------------------------------------

  /**
   * One row of the configuration database. `None` stands for a property whose
   * reading throws: a Category without a select, or a DatabaseID or ClientName
   * whose rich text is empty.
   */
  datatype ConfigRow = ConfigRow(category: Option<string>, databaseId: Option<string>, clientName: Option<string>)

  /** Reading this row throws. ClientName is read only on a "Client" row. */
  predicate Broken(row: ConfigRow)
  {
    row.category.None? || row.databaseId.None? || (row.category == Some("Client") && row.clientName.None?)
  }

  predicate IsClientRow(row: ConfigRow)
  {
    row.category == Some("Client") && row.clientName.Some?
  }

  /** The DatabaseID of the last row of category `c`, or "" when there is none. */
  function LastId(rows: seq<ConfigRow>, c: string): string
  {
    if rows == [] then ""
    else
      var row := rows[|rows| - 1];
      if row.category == Some(c) && row.databaseId.Some? then row.databaseId.value
      else LastId(rows[..|rows| - 1], c)
  }

  /** The client names the "Client" rows mention. */
  function ClientNames(rows: seq<ConfigRow>): set<string>
  {
    if rows == [] then {}
    else
      var row := rows[|rows| - 1];
      ClientNames(rows[..|rows| - 1]) + (if IsClientRow(row) then {row.clientName.value} else {})
  }

  /** The DatabaseID of the last "Client" row for `name`, or "" when there is none. */
  function LastClientId(rows: seq<ConfigRow>, name: string): string
  {
    if rows == [] then ""
    else
      var row := rows[|rows| - 1];
      if IsClientRow(row) && row.clientName.value == name && row.databaseId.Some? then row.databaseId.value
      else LastClientId(rows[..|rows| - 1], name)
  }

  /** One step of the fold: the `if`/`else if` chain of the `forEach` body. */
  function FoldRow(config: DatabaseConfig, row: ConfigRow): DatabaseConfig
    requires !Broken(row)
  {
    var id := row.databaseId.value;
    if row.category == Some("Default") then config.(default := id)
    else if row.category == Some("Work") then config.(work := id)
    else if row.category == Some("Personal") then config.(personal := id)
    else if row.category == Some("Client") then config.(clients := config.clients[row.clientName.value := id])
    else config
  }

  lemma FoldRowKeeps(rows: seq<ConfigRow>, i: nat, config: DatabaseConfig)
    requires i < |rows| && !Broken(rows[i])
    requires config.default == LastId(rows[..i], "Default")
    requires config.work == LastId(rows[..i], "Work")
    requires config.personal == LastId(rows[..i], "Personal")
    requires config.clients.Keys == ClientNames(rows[..i])
    requires forall n :: n in config.clients ==> config.clients[n] == LastClientId(rows[..i], n)
    ensures FoldRow(config, rows[i]).default == LastId(rows[..i + 1], "Default")
    ensures FoldRow(config, rows[i]).work == LastId(rows[..i + 1], "Work")
    ensures FoldRow(config, rows[i]).personal == LastId(rows[..i + 1], "Personal")
    ensures FoldRow(config, rows[i]).clients.Keys == ClientNames(rows[..i + 1])
    ensures forall n :: n in FoldRow(config, rows[i]).clients ==>
      FoldRow(config, rows[i]).clients[n] == LastClientId(rows[..i + 1], n)
  {
    var p := rows[..i + 1];
    assert p[..|p| - 1] == rows[..i] && p[|p| - 1] == rows[i];
  }

  /**
   * The body of the operation `fetchDatabaseConfigFromNotion` retries: starting
   * from empty ids and no clients, each row of category Default, Work or
   * Personal sets that id, each Client row sets the entry of its client, and
   * other categories are ignored, so the last row of each kind wins. Reading a
   * broken row throws.
   */
  method FetchDatabaseConfig(rows: seq<ConfigRow>) returns (r: Result<DatabaseConfig, Error>)
    ensures r.Err? <==> exists i :: 0 <= i < |rows| && Broken(rows[i])
    ensures r.Err? ==> r.error == TypeError
    ensures r.Ok? ==> r.value.default == LastId(rows, "Default")
    ensures r.Ok? ==> r.value.work == LastId(rows, "Work")
    ensures r.Ok? ==> r.value.personal == LastId(rows, "Personal")
    ensures r.Ok? ==> r.value.clients.Keys == ClientNames(rows)
    ensures r.Ok? ==> forall n :: n in r.value.clients ==> r.value.clients[n] == LastClientId(rows, n)
  {
    var config := DatabaseConfig("", "", "", map[]);
    var i := 0;
    while i < |rows|
      invariant 0 <= i <= |rows|
      invariant forall k :: 0 <= k < i ==> !Broken(rows[k])
      invariant config.default == LastId(rows[..i], "Default")
      invariant config.work == LastId(rows[..i], "Work")
      invariant config.personal == LastId(rows[..i], "Personal")
      invariant config.clients.Keys == ClientNames(rows[..i])
      invariant forall n :: n in config.clients ==> config.clients[n] == LastClientId(rows[..i], n)
    {
      if Broken(rows[i]) {
        return Err(TypeError);
      }
      FoldRowKeeps(rows, i, config);
      config := FoldRow(config, rows[i]);
      i := i + 1;
    }
    assert rows[..i] == rows;
    return Ok(config);
  }

  /** A later row overwrites an earlier one of the same category. */
  lemma LaterRowWins(rows: seq<ConfigRow>, row: ConfigRow, c: string)
    requires row.category == Some(c) && row.databaseId.Some?
    ensures LastId(rows + [row], c) == row.databaseId.value
  {
    assert (rows + [row])[|rows|] == row;
  }

  /** A row of another category leaves the id of `c` as it was. */
  lemma OtherRowIgnored(rows: seq<ConfigRow>, row: ConfigRow, c: string)
    requires row.category != Some(c)
    ensures LastId(rows + [row], c) == LastId(rows, c)
  {
    assert (rows + [row])[..|rows|] == rows;
  }

  /** Every client name that appears on a Client row has an entry. */
  lemma {:induction false} ClientRowHasEntry(rows: seq<ConfigRow>, i: nat)
    requires i < |rows| && IsClientRow(rows[i])
    ensures rows[i].clientName.value in ClientNames(rows)
  {
    if i < |rows| - 1 {
      assert rows[..|rows| - 1][i] == rows[i];
      ClientRowHasEntry(rows[..|rows| - 1], i);
    }
  }

  // ---------------------------------------------------------------------------
  // Requests
  // ---------------------------------------------------------------------------

  /** The `Client` property: rich text on the create path of `updateNotionTask`, a select in `createNewTask`. */
  datatype ClientProperty = RichText(text: string) | Select(name: string)

  /** What a request writes into Notion; `None` stands for an undefined content. */
  datatype Request =
    | UpdatePage(pageId: string, duration: JsNumber, name: Option<string>, category: Option<string>,
                 taskId: string, durationMonth: JsNumber)
    | CreatePage(databaseId: string, name: Option<string>, duration: JsNumber, date: CivilDate,
                 category: Option<string>, taskId: string, client: Option<ClientProperty>)
    | AccumulatePage(pageId: string, duration: JsNumber, name: Option<string>)

  /**
   * The effect of one call: the request sent, if the call got that far, and
   * the error it throws, if any.
   */
  datatype Step = Step(sent: Option<Request>, error: Option<Error>)

  /** `a || b || generated` on TaskID candidates. */
  function FirstTruthy(a: Option<string>, b: Option<string>, generated: string): (id: string)
    ensures Truthy(a) ==> id == a.value
    ensures !Truthy(a) && Truthy(b) ==> id == b.value
    ensures !Truthy(a) && !Truthy(b) ==> id == generated
  {
    if Truthy(a) then a.value else if Truthy(b) then b.value else generated
  }

  /** The error a status code of 400 or more raises. */
  function Checked(response: Result<int, Error>, failure: int -> Error): (error: Option<Error>)
    ensures error.None? <==> response.Ok? && response.value < 400
    ensures response.Err? ==> error == Some(response.error)
    ensures response.Ok? && response.value >= 400 ==> error == Some(failure(response.value))
  {
    match response
    case Err(e) => Some(e)
    case Ok(code) => if code >= 400 then Some(failure(code)) else None
  }

  /** The request the update path sends for record `rec`. */
  function UpdateRequest(rec: ExistingRecord, taskName: Option<string>, duration: JsNumber, date: CivilDate,
                         billingDate: CivilDate, category: Option<string>, taskId: Option<string>, freshId: string)
    : (req: Request)
    ensures req.UpdatePage? && req.pageId == rec.id && req.name == taskName && req.category == category
    ensures req.duration == RoundNumber(duration)
    ensures req.durationMonth == CalculateDurationMonth(date, billingDate, duration)
    ensures req.taskId == FirstTruthy(rec.taskId, taskId, freshId)
  {
    UpdatePage(rec.id, RoundNumber(duration), taskName, category, FirstTruthy(rec.taskId, taskId, freshId),
               CalculateDurationMonth(date, billingDate, duration))
  }

  /** The request the create path of `updateNotionTask` sends. */
  function CreateRequest(taskName: Option<string>, duration: JsNumber, date: CivilDate, category: Option<string>,
                         client: Option<string>, databaseId: string, taskId: Option<string>, freshId: string)
    : (req: Request)
    ensures req.CreatePage? && req.databaseId == databaseId && req.name == taskName && req.date == date
    ensures req.duration == duration && req.category == category
    ensures req.taskId == FirstTruthy(taskId, None, freshId)
    ensures req.client.Some? <==> Truthy(client)
    ensures req.client.Some? ==> req.client.value == RichText(client.value)
  {
    CreatePage(databaseId, taskName, duration, date, category, FirstTruthy(taskId, None, freshId),
               if Truthy(client) then Some(RichText(client.value)) else None)
  }

  /**
   * `updateNotionTask` given the snapshot `existing`: find the matching record;
   * with a match, fetch the billing date and patch the record, otherwise create
   * a page. A status code of 400 or more throws after the request is sent; a
   * failing match or billing-date fetch throws before anything is sent.
   */
  function UpdateNotionTask(taskName: Option<string>, duration: JsNumber, date: CivilDate, category: Option<string>,
                            client: Option<string>, databaseId: string, taskId: Option<string>,
                            existing: seq<ExistingRecord>, billingDate: Result<CivilDate, Error>, freshId: string,
                            response: Result<int, Error>)
    : (step: Step)
    ensures FindMatchingTask(taskName, taskId, existing).Err? ==>
      step == Step(None, Some(FindMatchingTask(taskName, taskId, existing).error))
    ensures FindMatchingTask(taskName, taskId, existing) == Ok(None) ==>
      step.sent == Some(CreateRequest(taskName, duration, date, category, client, databaseId, taskId, freshId))
      && step.error == Checked(response, code => CreateFailed(code))
    ensures FindMatchingTask(taskName, taskId, existing).Ok? && FindMatchingTask(taskName, taskId, existing).value.Some? ==>
      var i := FindMatchingTask(taskName, taskId, existing).value.value;
      i < |existing| &&
      (billingDate.Err? ==> step == Step(None, Some(billingDate.error))) &&
      (billingDate.Ok? ==>
        step.sent == Some(UpdateRequest(existing[i], taskName, duration, date, billingDate.value, category, taskId, freshId))
        && step.error == Checked(response, code => UpdateFailed(code)))
  {
    match FindMatchingTask(taskName, taskId, existing)
    case Err(e) => Step(None, Some(e))
    case Ok(None) =>
      Step(Some(CreateRequest(taskName, duration, date, category, client, databaseId, taskId, freshId)),
           Checked(response, code => CreateFailed(code)))
    case Ok(Some(i)) =>
      match billingDate
      case Err(e) => Step(None, Some(e))
      case Ok(billing) =>
        Step(Some(UpdateRequest(existing[i], taskName, duration, date, billing, category, taskId, freshId)),
             Checked(response, code => UpdateFailed(code)))
  }

  /** A status code of 400 or more makes the call throw, on either path; below 400 it succeeds. */
  lemma StatusDecidesFailure(taskName: Option<string>, duration: JsNumber, date: CivilDate, category: Option<string>,
                             client: Option<string>, databaseId: string, taskId: Option<string>,
                             existing: seq<ExistingRecord>, billingDate: Result<CivilDate, Error>, freshId: string,
                             code: int)
    requires UpdateNotionTask(taskName, duration, date, category, client, databaseId, taskId, existing,
                              billingDate, freshId, Ok(code)).sent.Some?
    ensures var step := UpdateNotionTask(taskName, duration, date, category, client, databaseId, taskId, existing,
                                         billingDate, freshId, Ok(code));
      (step.error.Some? <==> code >= 400)
      && (step.error.Some? && step.sent.value.UpdatePage? ==> step.error.value == UpdateFailed(code))
      && (step.error.Some? && step.sent.value.CreatePage? ==> step.error.value == CreateFailed(code))
  {
  }

  /**
   * The update path replaces the stored Duration: what the record held plays
   * no part in the request.
   */
  lemma UpdateReplacesDuration(rec: ExistingRecord, stored: Option<JsNumber>, taskName: Option<string>, duration: JsNumber,
                               date: CivilDate, billingDate: CivilDate, category: Option<string>,
                               taskId: Option<string>, freshId: string)
    ensures UpdateRequest(rec, taskName, duration, date, billingDate, category, taskId, freshId)
         == UpdateRequest(rec.(duration := stored), taskName, duration, date, billingDate, category, taskId, freshId)
  {
  }

  // ---------------------------------------------------------------------------
  // updateExistingTask and createNewTask
  // ---------------------------------------------------------------------------

  /** `matchingTask.properties.Duration.number || 0`: null, 0 and NaN read as 0. */
  function StoredDuration(rec: ExistingRecord): (v: real)
    ensures rec.duration.Some? && rec.duration.value.Finite? ==> v == rec.duration.value.value
    ensures !(rec.duration.Some? && rec.duration.value.Finite?) ==> v == 0.0
  {
    if rec.duration.Some? && rec.duration.value.Finite? then rec.duration.value.value else 0.0
  }

  /** `existing + duration` on JavaScript numbers. */
  function AddNumber(a: real, n: JsNumber): (r: JsNumber)
    ensures r.Finite? <==> n.Finite?
    ensures r.Finite? ==> r.value == a + n.value
  {
    if n.Finite? then Finite(a + n.value) else NaN
  }

  /** The request of `updateExistingTask`: the stored Duration plus `duration`, rounded. */
  function UpdateExistingTask(rec: ExistingRecord, taskName: Option<string>, duration: JsNumber): (req: Request)
    ensures req.AccumulatePage? && req.pageId == rec.id && req.name == taskName
    ensures req.duration.NaN? <==> duration.NaN?
    ensures duration.Finite? ==> req.duration == Finite(RoundToQuarterHour(StoredDuration(rec) + duration.value))
  {
    AccumulatePage(rec.id, RoundNumber(AddNumber(StoredDuration(rec), duration)), taskName)
  }

  /**
   * `updateExistingTask` adds to what is stored and `updateNotionTask` replaces
   * it: unless both round alike, the two disagree.
   */
  lemma ReplaceVersusAccumulate(rec: ExistingRecord, taskName: Option<string>, date: CivilDate,
                                billingDate: CivilDate, category: Option<string>, taskId: Option<string>, freshId: string)
    requires rec.duration == Some(Finite(60.0))
    ensures UpdateExistingTask(rec, taskName, Finite(0.0)).duration == Finite(1.0)
    ensures UpdateRequest(rec, taskName, Finite(0.0), date, billingDate, category, taskId, freshId).duration == Finite(0.0)
  {
    assert IsQuarter(1.0) && IsQuarter(0.0);
    QuarterUnique(60.0, 1.0);
    QuarterUnique(0.0, 0.0);
  }

  /** The request of `createNewTask`: the duration as given and Client as a select. */
  function CreateNewTask(taskName: Option<string>, duration: JsNumber, date: CivilDate, category: Option<string>,
                         client: Option<string>, databaseId: string, taskId: Option<string>, freshId: string)
    : (req: Request)
    ensures req.CreatePage? && req.databaseId == databaseId && req.name == taskName && req.date == date
    ensures req.duration == duration && req.category == category
    ensures req.taskId == FirstTruthy(taskId, None, freshId)
    ensures req.client.Some? <==> Truthy(client)
    ensures req.client.Some? ==> req.client.value == Select(client.value)
  {
    CreatePage(databaseId, taskName, duration, date, category, FirstTruthy(taskId, None, freshId),
               if Truthy(client) then Some(Select(client.value)) else None)
  }

  /** `createNewTask` and the create path of `updateNotionTask` differ only in the kind of the Client property. */
  lemma CreatePathsAgree(taskName: Option<string>, duration: JsNumber, date: CivilDate, category: Option<string>,
                         client: Option<string>, databaseId: string, taskId: Option<string>, freshId: string)
    ensures var a := CreateNewTask(taskName, duration, date, category, client, databaseId, taskId, freshId);
      var b := CreateRequest(taskName, duration, date, category, client, databaseId, taskId, freshId);
      a.(client := None) == b.(client := None)
      && (a.client.Some? <==> b.client.Some?)
      && (a.client.Some? ==> a.client.value.name == b.client.value.text)
  {
  }

  // ---------------------------------------------------------------------------
  // retryOperation
  // ---------------------------------------------------------------------------

  /** The defaults of `retryOperation`, which every call in the script relies on. */
  const DefaultMaxRetries: int := 3
  const DefaultDelay: int := 1000

  function Pow2(n: nat): (p: nat)
    ensures p >= 1
  {
    if n == 0 then 1 else 2 * Pow2(n - 1)
  }

  /** The wait before attempt `n + 2`: `delay` doubled `n` times. */
  function Backoff(delay: int, n: nat): int
  {
    if n == 0 then delay else 2 * Backoff(delay, n - 1)
  }

  /** The waits grow geometrically: the `n`-th is `delay * 2^n`. */
  lemma {:induction false} BackoffIsExponential(delay: int, n: nat)
    ensures Backoff(delay, n) == delay * Pow2(n)
  {
    if n > 0 {
      BackoffIsExponential(delay, n - 1);
      assert delay * Pow2(n) == 2 * (delay * Pow2(n - 1));
    }
  }

  /** How `retryOperation` ends: a value, a rethrown error, or falling off the loop (undefined). */
  datatype RetryOutcome<T> = Returned(value: T) | Threw(error: Error) | FellThrough

  /**
   * `retryOperation(operation, maxRetries, delay)`. `operation(a)` is the outcome
   * of attempt `a`; instead of sleeping, the delays are recorded in `sleeps`.
   */
  method RetryOperation<T>(operation: nat -> Result<T, Error>, maxRetries: int, delay: int)
    returns (outcome: RetryOutcome<T>, attempts: nat, sleeps: seq<int>)
    ensures maxRetries < 1 ==> outcome == FellThrough && attempts == 0 && sleeps == []
    ensures maxRetries >= 1 ==> 1 <= attempts <= maxRetries && !outcome.FellThrough?
    ensures forall a :: 1 <= a < attempts ==> operation(a).Err?
    ensures outcome.Returned? ==> operation(attempts) == Ok(outcome.value)
    ensures outcome.Threw? ==> attempts == maxRetries && operation(attempts) == Err(outcome.error)
    ensures attempts >= 1 ==> |sleeps| == attempts - 1
    ensures forall i :: 0 <= i < |sleeps| ==> sleeps[i] == Backoff(delay, i)
  {
    outcome, attempts, sleeps := FellThrough, 0, [];
    var d := delay;
    var attempt := 1;
    while attempt <= maxRetries
      invariant 1 <= attempt && (attempt == 1 || attempt <= maxRetries)
      invariant outcome == FellThrough
      invariant attempts == attempt - 1 && |sleeps| == attempt - 1
      invariant d == Backoff(delay, attempt - 1)
      invariant forall i :: 0 <= i < |sleeps| ==> sleeps[i] == Backoff(delay, i)
      invariant forall a :: 1 <= a < attempt ==> operation(a).Err?
      decreases maxRetries - attempt
    {
      attempts := attempt;
      var result := operation(attempt);
      if result.Ok? {
        return Returned(result.value), attempts, sleeps;
      }
      if attempt == maxRetries {
        return Threw(result.error), attempts, sleeps;
      }
      sleeps := sleeps + [d];
      d := d * 2;
      attempt := attempt + 1;
    }
  }

  /**
   * `retryOperation(operation)` with its defaults: at most three attempts,
   * waiting 1000 and then 2000 milliseconds between them.
   */
  method RetryWithDefaults<T>(operation: nat -> Result<T, Error>)
    returns (outcome: RetryOutcome<T>, attempts: nat, sleeps: seq<int>)
    ensures 1 <= attempts <= 3 && !outcome.FellThrough?
    ensures sleeps == [1000, 2000][..attempts - 1]
    ensures forall a :: 1 <= a < attempts ==> operation(a).Err?
    ensures outcome.Returned? ==> operation(attempts) == Ok(outcome.value)
    ensures outcome.Threw? ==> attempts == 3 && operation(3) == Err(outcome.error)
  {
    outcome, attempts, sleeps := RetryOperation(operation, DefaultMaxRetries, DefaultDelay);
    assert Backoff(DefaultDelay, 0) == 1000 && Backoff(DefaultDelay, 1) == 2000;
    assert sleeps == [1000, 2000][..attempts - 1];
  }
}
