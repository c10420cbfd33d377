/**
 * Main.js: reading the timesheet rows into tasks (and stamping fresh TaskIDs
 * into the rows in memory), grouping the classifier's entries into one bucket
 * per target database, the nested loop that sends every task of every bucket
 * to `updateNotionTask`, and the check of the three required database ids.
 */
module MainScript {
  import opened Js
  import opened Calendar
  import opened TaskProcessing
  import opened NotionApi
  import opened OpenAiApi

  // ---------------------------------------------------------------------------
  // readTasksFromCSV
  // ---------------------------------------------------------------------------

  /** A task read from the timesheet. */
  datatype Task = Task(name: string, duration: JsNumber, taskId: string)

  /** The rows before this index are the export's header block. */
  const HeaderRows: nat := 6

  /** `row[0] && !row[0].startsWith("#")`. */
  predicate Listed(row: seq<string>)
  {
    |row| >= 1 && row[0] != "" && !StartsWith(row[0], "#")
  }

  /** A listed row without a duration cell: `parseDuration(undefined)` throws. */
  predicate Unreadable(row: seq<string>)
  {
    Listed(row) && |row| < 2
  }

  /** The TaskID cell `row[3]` is present and not empty. */
  predicate HasTaskId(row: seq<string>)
  {
    |row| > 3 && row[3] != ""
  }

  /** The task a listed, readable row at index `k` yields; `newId(k)` is the id `generateTaskId` returns there. */
  function TaskOf(row: seq<string>, k: nat, newId: nat -> string): (t: Task)
    requires |row| >= 2
    ensures t.name == row[0] && t.duration == ParseDuration(row[1])
    ensures HasTaskId(row) ==> t.taskId == row[3]
    ensures !HasTaskId(row) ==> t.taskId == newId(k)
  {
    Task(row[0], ParseDuration(row[1]), if HasTaskId(row) then row[3] else newId(k))
  }

  /** `row[3] = id`: an array assignment past the end pads the row (the padding is modelled as ""). */
  function SetCell(row: seq<string>, i: nat, v: string): (r: seq<string>)
    ensures |r| == if |row| > i then |row| else i + 1
    ensures r[i] == v && forall j :: 0 <= j < |row| && j != i ==> r[j] == row[j]
  {
    if |row| > i then row[i := v] else row + seq(i - |row|, _ => "") + [v]
  }

  /** The row after the loop body: a fresh id is written into a row that had none. */
  function Stamped(row: seq<string>, k: nat, newId: nat -> string): (r: seq<string>)
    requires |row| >= 2
    ensures |r| > 3 && r[3] == TaskOf(row, k, newId).taskId
    ensures HasTaskId(row) ==> r == row
    ensures |r| == if |row| > 3 then |row| else 4
    ensures forall j :: 0 <= j < |row| && j != 3 ==> r[j] == row[j]
  {
    if HasTaskId(row) then row else SetCell(row, 3, newId(k))
  }

  /** The tasks the listed rows from index `from` on yield, in row order. */
  function TasksFrom(rows: seq<seq<string>>, from: nat, newId: nat -> string): seq<Task>
    decreases |rows| - from
  {
    if from >= |rows| then []
    else (if Listed(rows[from]) && !Unreadable(rows[from]) then [TaskOf(rows[from], from, newId)] else [])
         + TasksFrom(rows, from + 1, newId)
  }

  /** At most one task per row, and every task is named by a first cell that is neither empty nor a comment. */
  lemma {:induction false} TasksAreListedNames(rows: seq<seq<string>>, from: nat, newId: nat -> string)
    requires from <= |rows|
    ensures |TasksFrom(rows, from, newId)| <= |rows| - from
    ensures forall t :: t in TasksFrom(rows, from, newId) ==> t.name != "" && !StartsWith(t.name, "#")
    decreases |rows| - from
  {
    if from < |rows| {
      TasksAreListedNames(rows, from + 1, newId);
    }
  }

  /** The listed rows from index `from` on (the indices of the rows that yield tasks). */
  function ListedFrom(rows: seq<seq<string>>, from: nat): (ks: seq<nat>)
    ensures forall j :: 0 <= j < |ks| ==> from <= ks[j] < |rows| && Listed(rows[ks[j]])
    ensures forall j, l :: 0 <= j < l < |ks| ==> ks[j] < ks[l]
    ensures forall k :: from <= k < |rows| && Listed(rows[k]) ==> k in ks
    decreases |rows| - from
  {
    if from >= |rows| then []
    else (if Listed(rows[from]) then [from] else []) + ListedFrom(rows, from + 1)
  }

  /** The first unreadable listed row from `from` on, or `|rows|`. */
  function FirstUnreadableRow(rows: seq<seq<string>>, from: nat): (k: nat)
    requires from <= |rows|
    ensures from <= k <= |rows| && (k < |rows| ==> Unreadable(rows[k]))
    ensures forall j :: from <= j < k ==> !Unreadable(rows[j])
    decreases |rows| - from
  {
    if from == |rows| || Unreadable(rows[from]) then from else FirstUnreadableRow(rows, from + 1)
  }

  /**
   * Without unreadable rows, the tasks correspond one to one, in order, to the
   * listed rows, each task being what its row yields.
   */
  lemma {:induction false} TasksMatchListedRows(rows: seq<seq<string>>, from: nat, newId: nat -> string)
    requires forall k :: from <= k < |rows| ==> !Unreadable(rows[k])
    ensures var ks := ListedFrom(rows, from);
      |TasksFrom(rows, from, newId)| == |ks|
      && forall j :: 0 <= j < |ks| ==> (|rows[ks[j]]| >= 2
                                        && TasksFrom(rows, from, newId)[j] == TaskOf(rows[ks[j]], ks[j], newId))
    decreases |rows| - from
  {
    if from < |rows| {
      TasksMatchListedRows(rows, from + 1, newId);
    }
  }

  /**
   * The header block and the rows that are not listed play no part: a header
   * row may be replaced by any row, an unlisted row by another unlisted one.
   */
  lemma {:induction false} UnlistedRowsIgnored(rows: seq<seq<string>>, k: nat, row: seq<string>, newId: nat -> string)
    requires k < |rows| && (k < HeaderRows || (!Listed(row) && !Listed(rows[k])))
    ensures TasksFrom(rows[k := row], HeaderRows, newId) == TasksFrom(rows, HeaderRows, newId)
  {
    if k < HeaderRows {
      TasksFromSuffix(rows[k := row], rows, HeaderRows, newId);
    } else {
      UnlistedRowIgnoredFrom(rows, k, row, newId, HeaderRows);
    }
  }

  lemma {:induction false} UnlistedRowIgnoredFrom(rows: seq<seq<string>>, k: nat, row: seq<string>, newId: nat -> string, from: nat)
    requires k < |rows| && !Listed(row) && !Listed(rows[k])
    ensures TasksFrom(rows[k := row], from, newId) == TasksFrom(rows, from, newId)
    decreases |rows| - from
  {
    var changed := rows[k := row];
    if from < |rows| {
      UnlistedRowIgnoredFrom(rows, k, row, newId, from + 1);
      if from == k {
        assert !Listed(changed[from]);
      } else {
        assert changed[from] == rows[from];
      }
    }
  }

  /** The tasks from `from` on read only the rows from `from` on. */
  lemma {:induction false} TasksFromSuffix(a: seq<seq<string>>, b: seq<seq<string>>, from: nat, newId: nat -> string)
    requires |a| == |b| && forall i :: from <= i < |a| ==> a[i] == b[i]
    ensures TasksFrom(a, from, newId) == TasksFrom(b, from, newId)
    decreases |a| - from
  {
    if from < |a| {
      TasksFromSuffix(a, b, from + 1, newId);
      var r := a[from];
      assert b[from] == r;
      var head := if Listed(r) && !Unreadable(r) then [TaskOf(r, from, newId)] else [];
      assert TasksFrom(a, from, newId) == head + TasksFrom(a, from + 1, newId);
      assert TasksFrom(b, from, newId) == head + TasksFrom(b, from + 1, newId);
    }
  }

  /** Row `k` once the loop has passed index `stop`: a listed row before it is stamped. */
  function RowAfter(original: seq<seq<string>>, k: nat, stop: nat, newId: nat -> string): (row: seq<string>)
    requires k < |original|
    ensures !(HeaderRows <= k < stop && Listed(original[k])) ==> row == original[k]
  {
    if HeaderRows <= k < stop && Listed(original[k]) && |original[k]| >= 2 then Stamped(original[k], k, newId)
    else original[k]
  }

  /** Passing a readable row `i` stamps that row when it is listed and leaves every other row as it was. */
  lemma RowAfterStep(original: seq<seq<string>>, i: nat, newId: nat -> string)
    requires HeaderRows <= i < |original| && !Unreadable(original[i])
    ensures RowAfter(original, i, i, newId) == original[i]
    ensures RowAfter(original, i, i + 1, newId) == if Listed(original[i]) then Stamped(original[i], i, newId) else original[i]
    ensures forall k :: 0 <= k < |original| && k != i ==> RowAfter(original, k, i + 1, newId) == RowAfter(original, k, i, newId)
  {
  }

  /** Every row once the loop has passed index `stop`. */
  function RowsAfter(original: seq<seq<string>>, stop: nat, newId: nat -> string): (rows: seq<seq<string>>)
    ensures |rows| == |original| && forall k :: 0 <= k < |original| ==> rows[k] == RowAfter(original, k, stop, newId)
  {
    seq(|original|, k requires 0 <= k < |original| => RowAfter(original, k, stop, newId))
  }

  lemma RowsAfterStep(original: seq<seq<string>>, i: nat, newId: nat -> string)
    requires HeaderRows <= i < |original| && !Unreadable(original[i])
    ensures RowsAfter(original, i, newId)[i] == original[i]
    ensures RowsAfter(original, i + 1, newId)
         == RowsAfter(original, i, newId)[i := if Listed(original[i]) then Stamped(original[i], i, newId) else original[i]]
  {
    RowAfterStep(original, i, newId);
  }

  /** Passing a readable row `i` appends its task when it is listed. */
  lemma ReadStep(original: seq<seq<string>>, tasks: seq<Task>, i: nat, newId: nat -> string)
    requires HeaderRows <= i < |original| && !Unreadable(original[i])
    requires TasksFrom(original, HeaderRows, newId) == tasks + TasksFrom(original, i, newId)
    ensures var row := original[i];
      var tasks' := if Listed(row) then tasks + [TaskOf(row, i, newId)] else tasks;
      TasksFrom(original, HeaderRows, newId) == tasks' + TasksFrom(original, i + 1, newId)
  {
    var row := original[i];
    var rest := TasksFrom(original, i + 1, newId);
    assert TasksFrom(original, i, newId) == (if Listed(row) then [TaskOf(row, i, newId)] else []) + rest;
    if Listed(row) {
      assert tasks + ([TaskOf(row, i, newId)] + rest) == (tasks + [TaskOf(row, i, newId)]) + rest;
    } else {
      assert [] + rest == rest;
    }
  }

  /** Where the loop stops: the first unreadable listed row, or the end. */
  function ReadStop(rows: seq<seq<string>>): (stop: nat)
    ensures stop <= |rows|
    ensures stop < |rows| ==> HeaderRows <= stop && Unreadable(rows[stop])
    ensures forall j :: HeaderRows <= j < stop ==> !Unreadable(rows[j])
  {
    if |rows| <= HeaderRows then |rows| else FirstUnreadableRow(rows, HeaderRows)
  }

  /**
   * `readTasksFromCSV` on the parsed rows: every listed row from index 6 on
   * yields one task and gets its TaskID cell filled in place when it had none.
   * A listed row without a duration cell throws, after the rows before it were
   * processed.
   */
  method ReadTasksFromCsv(rows: array<seq<string>>, newId: nat -> string) returns (r: Result<seq<Task>, Error>)
    modifies rows
    ensures r.Err? <==> ReadStop(old(rows[..])) < rows.Length
    ensures r.Err? ==> r.error == TypeError
    ensures r.Ok? ==> r.value == TasksFrom(old(rows[..]), HeaderRows, newId)
    ensures rows[..] == RowsAfter(old(rows[..]), ReadStop(old(rows[..])), newId)
  {
    ghost var original := rows[..];
    if rows.Length <= HeaderRows {
      assert TasksFrom(original, HeaderRows, newId) == [];
      assert RowsAfter(original, rows.Length, newId) == original;
      return Ok([]);
    }
    var tasks: seq<Task> := [];
    var i := HeaderRows;
    while i < rows.Length
      invariant HeaderRows <= i <= rows.Length
      invariant TasksFrom(original, HeaderRows, newId) == tasks + TasksFrom(original, i, newId)
      invariant forall j :: HeaderRows <= j < i ==> !Unreadable(original[j])
      invariant rows[..] == RowsAfter(original, i, newId)
    {
      var row := rows[i];
      assert row == original[i];
      if Unreadable(row) {
        FirstUnreadableAt(original, HeaderRows, i);
        return Err(TypeError);
      }
      ReadStep(original, tasks, i, newId);
      RowsAfterStep(original, i, newId);
      ghost var before := rows[..];
      if Listed(row) {
        tasks := tasks + [TaskOf(row, i, newId)];
        rows[i] := Stamped(row, i, newId);
        assert rows[..] == before[i := Stamped(row, i, newId)];
      } else {
        assert before[i := row] == before;
      }
      i := i + 1;
    }
    FirstUnreadableAt(original, HeaderRows, rows.Length);
    return Ok(tasks);
  }

  lemma {:induction false} FirstUnreadableAt(rows: seq<seq<string>>, from: nat, k: nat)
    requires from <= k <= |rows| && forall j :: from <= j < k ==> !Unreadable(rows[j])
    requires k == |rows| || Unreadable(rows[k])
    ensures FirstUnreadableRow(rows, from) == k
    decreases k - from
  {
    if from < k {
      FirstUnreadableAt(rows, from + 1, k);
    }
  }

  // ---------------------------------------------------------------------------
  // groupTasksByDatabase
  // ---------------------------------------------------------------------------

  /** An entry pushed into `tasksByDatabase[databaseId]`. */
  datatype GroupedTask = GroupedTask(name: Option<string>, duration: JsNumber, date: CivilDate,
                                     category: Option<string>, client: Option<string>, taskId: Option<string>,
                                     databaseId: string)

  /** One entry of `Object.entries(tasksByDatabase)`. */
  datatype Bucket = Bucket(databaseId: string, tasks: seq<GroupedTask>)

  /** `tasks.find(t => t.name === name)`, from index `from` on. */
  function FindTask(tasks: seq<Task>, name: string, from: nat): (i: Option<nat>)
    ensures i.Some? ==> (from <= i.value < |tasks| && tasks[i.value].name == name
                         && forall j :: from <= j < i.value ==> tasks[j].name != name)
    ensures i.None? ==> forall j :: from <= j < |tasks| ==> tasks[j].name != name
    decreases |tasks| - from
  {
    if from >= |tasks| then None
    else if tasks[from].name == name then Some(from)
    else FindTask(tasks, name, from + 1)
  }

  /**
   * What the `forEach` body does with one classifier entry: nothing for a
   * non-object, for a `task` no input task is named (`===` never holds for a
   * missing one), and for an entry routed to no database; otherwise one entry
   * for the routed database.
   */
  function RouteOne(tasks: seq<Task>, e: CatEntry, config: DatabaseConfig, today: CivilDate): (g: Option<GroupedTask>)
    ensures g.Some? <==> e.Entry? && e.task.Some? && FindTask(tasks, e.task.value, 0).Some?
                         && GetDatabaseId(e.category, e.client, config) != ""
    ensures g.Some? ==> g.value == GroupedTask(e.cleanedTask, tasks[FindTask(tasks, e.task.value, 0).value].duration,
                                               today, e.category, e.client, e.taskId,
                                               GetDatabaseId(e.category, e.client, config))
  {
    if e.NotObject? || e.task.None? then None
    else match FindTask(tasks, e.task.value, 0)
      case None => None
      case Some(i) =>
        var id := GetDatabaseId(e.category, e.client, config);
        if id == "" then None
        else Some(GroupedTask(e.cleanedTask, tasks[i].duration, today, e.category, e.client, e.taskId, id))
  }

  function OptionSeq<T>(o: Option<T>): (s: seq<T>)
    ensures |s| <= 1 && (o.Some? <==> |s| == 1) && (o.Some? ==> s[0] == o.value)
  {
    if o.Some? then [o.value] else []
  }

  /** Every entry that survives the `forEach`, in the order of the classifier's list. */
  function Routed(tasks: seq<Task>, cat: seq<CatEntry>, config: DatabaseConfig, today: CivilDate): (rs: seq<GroupedTask>)
    ensures |rs| <= |cat|
    ensures forall g :: g in rs ==> (g.databaseId != "" && g.date == today
                                     && g.databaseId == GetDatabaseId(g.category, g.client, config))
  {
    if cat == [] then []
    else Routed(tasks, cat[..|cat| - 1], config, today) + OptionSeq(RouteOne(tasks, cat[|cat| - 1], config, today))
  }

  /** Routing a longer list routes its two parts one after the other. */
  lemma {:induction false} RoutedAppend(tasks: seq<Task>, a: seq<CatEntry>, b: seq<CatEntry>, config: DatabaseConfig,
                                        today: CivilDate)
    ensures Routed(tasks, a + b, config, today) == Routed(tasks, a, config, today) + Routed(tasks, b, config, today)
    decreases |b|
  {
    if b == [] {
      assert a + b == a;
    } else {
      assert (a + b)[..|a + b| - 1] == a + b[..|b| - 1];
      assert (a + b)[|a + b| - 1] == b[|b| - 1];
      RoutedAppend(tasks, a, b[..|b| - 1], config, today);
    }
  }

  /** The database ids of `rs`, each once, in the order they first appear. */
  function KeysOf(rs: seq<GroupedTask>): (ks: seq<string>)
    ensures forall i, j :: 0 <= i < j < |ks| ==> ks[i] != ks[j]
    ensures forall k :: k in ks <==> exists g :: g in rs && g.databaseId == k
  {
    if rs == [] then []
    else
      var ks := KeysOf(rs[..|rs| - 1]);
      var last := rs[|rs| - 1];
      assert forall g :: g in rs <==> g in rs[..|rs| - 1] || g == last by {
        assert rs == rs[..|rs| - 1] + [last];
      }
      if last.databaseId in ks then ks else ks + [last.databaseId]
  }

  /** The entries of `rs` for database `k`, in order. */
  function Select(rs: seq<GroupedTask>, k: string): (s: seq<GroupedTask>)
    ensures |s| <= |rs|
    ensures forall g :: g in s <==> g in rs && g.databaseId == k
  {
    if rs == [] then []
    else
      var last := rs[|rs| - 1];
      assert forall g :: g in rs <==> g in rs[..|rs| - 1] || g == last by {
        assert rs == rs[..|rs| - 1] + [last];
      }
      Select(rs[..|rs| - 1], k) + (if last.databaseId == k then [last] else [])
  }

  /** The bucket list `Object.entries` gives for the dictionary built from `rs`. */
  function Grouped(rs: seq<GroupedTask>): (bs: seq<Bucket>)
    ensures |bs| == |KeysOf(rs)|
    ensures forall j :: 0 <= j < |bs| ==> bs[j] == Bucket(KeysOf(rs)[j], Select(rs, KeysOf(rs)[j]))
  {
    var ks := KeysOf(rs);
    seq(|ks|, j requires 0 <= j < |ks| => Bucket(ks[j], Select(rs, ks[j])))
  }

  /** Selecting from two parts keeps the entries of the first part first. */
  lemma {:induction false} SelectAppend(a: seq<GroupedTask>, b: seq<GroupedTask>, k: string)
    ensures Select(a + b, k) == Select(a, k) + Select(b, k)
    decreases |b|
  {
    if b == [] {
      assert a + b == a;
    } else {
      assert (a + b)[..|a + b| - 1] == a + b[..|b| - 1];
      assert (a + b)[|a + b| - 1] == b[|b| - 1];
      SelectAppend(a, b[..|b| - 1], k);
    }
  }

  /** The total size of the buckets of `keys`. */
  function SizeOver(rs: seq<GroupedTask>, keys: seq<string>): nat
  {
    if keys == [] then 0 else |Select(rs, keys[0])| + SizeOver(rs, keys[1..])
  }

  function TotalSize(bs: seq<Bucket>): nat
  {
    if bs == [] then 0 else |bs[0].tasks| + TotalSize(bs[1..])
  }

  lemma {:induction false} SizeOverEmpty(keys: seq<string>)
    ensures SizeOver([], keys) == 0
  {
    if keys != [] {
      SizeOverEmpty(keys[1..]);
    }
  }

  lemma {:induction false} SizeOverSnoc(rs: seq<GroupedTask>, g: GroupedTask, keys: seq<string>)
    requires forall i, j :: 0 <= i < j < |keys| ==> keys[i] != keys[j]
    ensures SizeOver(rs + [g], keys) == SizeOver(rs, keys) + (if g.databaseId in keys then 1 else 0)
  {
    if keys != [] {
      assert (rs + [g])[..|rs + [g]| - 1] == rs;
      SizeOverSnoc(rs, g, keys[1..]);
      if g.databaseId == keys[0] {
        assert g.databaseId !in keys[1..] by {
          forall i | 0 <= i < |keys[1..]| ensures keys[1..][i] != keys[0] {
            assert keys[1..][i] == keys[i + 1];
          }
        }
      }
    }
  }

  lemma {:induction false} SizeOverCovers(rs: seq<GroupedTask>, keys: seq<string>)
    requires forall i, j :: 0 <= i < j < |keys| ==> keys[i] != keys[j]
    requires forall g :: g in rs ==> g.databaseId in keys
    ensures SizeOver(rs, keys) == |rs|
  {
    if rs == [] {
      SizeOverEmpty(keys);
    } else {
      var p := rs[..|rs| - 1];
      assert rs == p + [rs[|rs| - 1]];
      assert forall g :: g in p ==> g in rs;
      SizeOverCovers(p, keys);
      SizeOverSnoc(p, rs[|rs| - 1], keys);
    }
  }

  lemma {:induction false} TotalSizeIsSizeOver(rs: seq<GroupedTask>, keys: seq<string>)
    ensures TotalSize(seq(|keys|, j requires 0 <= j < |keys| => Bucket(keys[j], Select(rs, keys[j])))) == SizeOver(rs, keys)
  {
    var bs := seq(|keys|, j requires 0 <= j < |keys| => Bucket(keys[j], Select(rs, keys[j])));
    if keys != [] {
      TotalSizeIsSizeOver(rs, keys[1..]);
      assert bs[1..] == seq(|keys[1..]|, j requires 0 <= j < |keys[1..]| => Bucket(keys[1..][j], Select(rs, keys[1..][j])));
    }
  }

  /** Grouping loses no entry and duplicates none: the buckets hold `|rs|` entries in all. */
  lemma GroupedKeepsEveryEntry(rs: seq<GroupedTask>)
    ensures TotalSize(Grouped(rs)) == |rs|
  {
    var ks := KeysOf(rs);
    assert Grouped(rs) == seq(|ks|, j requires 0 <= j < |ks| => Bucket(ks[j], Select(rs, ks[j])));
    TotalSizeIsSizeOver(rs, ks);
    SizeOverCovers(rs, ks);
  }

  /**
   * The buckets `groupTasksByDatabase` produces hold at most one entry per
   * classifier entry, and every entry sits under the database it was routed to.
   */
  lemma GroupingFacts(tasks: seq<Task>, cat: seq<CatEntry>, config: DatabaseConfig, today: CivilDate)
    ensures var bs := Grouped(Routed(tasks, cat, config, today));
      TotalSize(bs) <= |cat|
      && forall j, g :: 0 <= j < |bs| && g in bs[j].tasks ==>
           g.databaseId == bs[j].databaseId && g.databaseId == GetDatabaseId(g.category, g.client, config)
  {
    GroupedKeepsEveryEntry(Routed(tasks, cat, config, today));
  }

  /** After the three required ids are verified, only entries naming no input task are dropped. */
  lemma VerifiedConfigRoutesEverything(tasks: seq<Task>, e: CatEntry, config: DatabaseConfig, today: CivilDate)
    requires Verified(config)
    ensures RouteOne(tasks, e, config, today).Some? <==> e.Entry? && e.task.Some? && FindTask(tasks, e.task.value, 0).Some?
  {
    if e.Entry? {
      RoutingNeverEmptyWhenVerified(e.category, e.client, config);
    }
  }

  lemma RoutedStep(tasks: seq<Task>, cat: seq<CatEntry>, i: nat, config: DatabaseConfig, today: CivilDate)
    requires i < |cat|
    ensures Routed(tasks, cat[..i + 1], config, today)
         == Routed(tasks, cat[..i], config, today) + OptionSeq(RouteOne(tasks, cat[i], config, today))
  {
    assert cat[..i + 1][..i] == cat[..i] && cat[..i + 1][i] == cat[i];
  }

  lemma SnocFacts(rs: seq<GroupedTask>, g: GroupedTask)
    ensures KeysOf(rs + [g]) == if g.databaseId in KeysOf(rs) then KeysOf(rs) else KeysOf(rs) + [g.databaseId]
    ensures forall k :: Select(rs + [g], k) == Select(rs, k) + (if g.databaseId == k then [g] else [])
  {
    var next := rs + [g];
    assert next[..|next| - 1] == rs && next[|next| - 1] == g;
  }

  /**
   * `groupTasksByDatabase(tasks, categorizedTasks, databaseConfig)` with the
   * formatted current date `today`. The dictionary is a map from database id to
   * its list plus the order in which its keys were created.
   */
  method GroupTasksByDatabase(tasks: seq<Task>, cat: seq<CatEntry>, config: DatabaseConfig, today: CivilDate)
    returns (entries: seq<Bucket>)
    ensures entries == Grouped(Routed(tasks, cat, config, today))
  {
    var order: seq<string> := [];
    var tasksByDatabase: map<string, seq<GroupedTask>> := map[];
    ghost var routed: seq<GroupedTask> := [];
    for i := 0 to |cat|
      invariant routed == Routed(tasks, cat[..i], config, today)
      invariant order == KeysOf(routed)
      invariant forall k :: k in tasksByDatabase <==> k in order
      invariant forall k :: k in tasksByDatabase ==> tasksByDatabase[k] == Select(routed, k)
    {
      RoutedStep(tasks, cat, i, config, today);
      var g := RouteOne(tasks, cat[i], config, today);
      if g.Some? {
        var id := g.value.databaseId;
        assert OptionSeq(g) == [g.value];
        GroupStep(routed, order, tasksByDatabase, g.value);
        var list := if id in tasksByDatabase then tasksByDatabase[id] else [];
        if id !in tasksByDatabase {
          order := order + [id];
        }
        tasksByDatabase := tasksByDatabase[id := list + [g.value]];
        routed := routed + [g.value];
      } else {
        assert OptionSeq(g) == [];
        assert routed + [] == routed;
      }
    }
    assert cat[..|cat|] == cat;
    entries := seq(|order|, j requires 0 <= j < |order| => Bucket(order[j], tasksByDatabase[order[j]]));
    assert forall j :: 0 <= j < |entries| ==> entries[j] == Grouped(routed)[j];
  }

  /** Pushing `g` into the dictionary keeps it in step with the routed entries. */
  lemma GroupStep(routed: seq<GroupedTask>, order: seq<string>, m: map<string, seq<GroupedTask>>, g: GroupedTask)
    requires order == KeysOf(routed)
    requires forall k :: k in m <==> k in order
    requires forall k :: k in m ==> m[k] == Select(routed, k)
    ensures var id := g.databaseId;
      var order' := if id in m then order else order + [id];
      var m' := m[id := (if id in m then m[id] else []) + [g]];
      order' == KeysOf(routed + [g])
      && (forall k :: k in m' <==> k in order')
      && forall k :: k in m' ==> m'[k] == Select(routed + [g], k)
  {
    SnocFacts(routed, g);
    var id := g.databaseId;
    if id !in m {
      SelectAbsent(routed, id);
    }
    var m' := m[id := (if id in m then m[id] else []) + [g]];
    forall k | k in m' ensures m'[k] == Select(routed + [g], k) {
      if k != id {
        assert m'[k] == m[k];
      }
    }
  }

  lemma {:induction false} SelectAbsent(rs: seq<GroupedTask>, k: string)
    requires k !in KeysOf(rs)
    ensures Select(rs, k) == []
  {
    if rs != [] {
      var p, last := rs[..|rs| - 1], rs[|rs| - 1];
      assert rs == p + [last];
      assert last in rs;
      SelectAbsent(p, k);
    }
  }

  // ---------------------------------------------------------------------------
  // updateNotionDatabases
  // ---------------------------------------------------------------------------

  /**
   * The answers of the Notion API: the existing-record snapshot of a database
   * for a date, and, for task `t` of bucket `b`, the billing date its own
   * `fetchBillingDate` call returns, the status code of its request and the
   * id `generateTaskId` would produce there.
   */
  datatype Remote = Remote(snapshot: (string, CivilDate) -> Result<seq<ExistingRecord>, Error>,
                           billing: (nat, nat) -> Result<CivilDate, Error>,
                           response: (nat, nat) -> Result<int, Error>,
                           freshId: (nat, nat) -> string)

  /** The arguments of one `updateNotionTask` call, with the answers the Notion API gives it. */
  datatype Call = Call(task: GroupedTask, existing: seq<ExistingRecord>, billingDate: Result<CivilDate, Error>,
                       freshId: string, response: Result<int, Error>)

  /** What a call sends and whether it throws. */
  function Outcome(c: Call): Step
  {
    UpdateNotionTask(c.task.name, c.task.duration, c.task.date, c.task.category, c.task.client, c.task.databaseId,
                     c.task.taskId, c.existing, c.billingDate, c.freshId, c.response)
  }

  /** The call for task `t` of bucket `b`, given the snapshot the bucket shares. */
  function TaskCall(task: GroupedTask, snapshot: seq<ExistingRecord>, remote: Remote, b: nat, t: nat): Call
  {
    Call(task, snapshot, remote.billing(b, t), remote.freshId(b, t), remote.response(b, t))
  }

  /** The calls for the tasks of bucket `b`: every task is attempted, whatever the earlier ones did. */
  function BucketCalls(bucket: Bucket, snapshot: seq<ExistingRecord>, remote: Remote, b: nat, n: nat): (calls: seq<Call>)
    requires n <= |bucket.tasks|
    ensures |calls| == n
    ensures forall t :: 0 <= t < n ==> calls[t] == TaskCall(bucket.tasks[t], snapshot, remote, b, t)
  {
    if n == 0 then [] else BucketCalls(bucket, snapshot, remote, b, n - 1) + [TaskCall(bucket.tasks[n - 1], snapshot, remote, b, n - 1)]
  }

  /**
   * The snapshot is fetched once per bucket and is not refreshed after a page
   * is created: two tasks of a bucket with the same TaskID, which the snapshot
   * does not hold, both take the create path.
   */
  lemma SharedSnapshotCreatesTwice(bucket: Bucket, snapshot: seq<ExistingRecord>, remote: Remote, b: nat, t1: nat, t2: nat)
    requires t1 < t2 < |bucket.tasks|
    requires Truthy(bucket.tasks[t1].taskId) && bucket.tasks[t2].taskId == bucket.tasks[t1].taskId
    requires forall i :: 0 <= i < |snapshot| ==> snapshot[i].taskId != bucket.tasks[t1].taskId
    ensures var calls := BucketCalls(bucket, snapshot, remote, b, |bucket.tasks|);
      Outcome(calls[t1]).sent.Some? && Outcome(calls[t1]).sent.value.CreatePage?
      && Outcome(calls[t2]).sent.Some? && Outcome(calls[t2]).sent.value.CreatePage?
  {
    var calls := BucketCalls(bucket, snapshot, remote, b, |bucket.tasks|);
    var id := bucket.tasks[t1].taskId;
    assert calls[t1].existing == snapshot && calls[t2].existing == snapshot;
    assert FindMatchingTask(bucket.tasks[t1].name, id, snapshot) == Ok(None);
    assert FindMatchingTask(bucket.tasks[t2].name, id, snapshot) == Ok(None);
  }

  /** The snapshot fetch of a bucket: reading `tasks[0].date` of an empty bucket throws. */
  function SnapshotOf(bucket: Bucket, remote: Remote): Result<seq<ExistingRecord>, Error>
  {
    if bucket.tasks == [] then Err(TypeError) else remote.snapshot(bucket.databaseId, bucket.tasks[0].date)
  }

  /** The first bucket whose snapshot cannot be fetched, or `|buckets|`. */
  function FirstFailedFetch(buckets: seq<Bucket>, remote: Remote): (k: nat)
    ensures k <= |buckets| && (k < |buckets| ==> SnapshotOf(buckets[k], remote).Err?)
    ensures forall j :: 0 <= j < k ==> SnapshotOf(buckets[j], remote).Ok?
  {
    if buckets == [] then 0
    else if SnapshotOf(buckets[0], remote).Err? then 0
    else FirstFailedFetch(buckets[1..], remote) + 1
  }

  /** The calls for buckets `0..n`, all of whose snapshots were fetched. */
  function CallsUpTo(buckets: seq<Bucket>, remote: Remote, n: nat): seq<Call>
    requires n <= |buckets|
    requires forall j :: 0 <= j < n ==> SnapshotOf(buckets[j], remote).Ok?
  {
    if n == 0 then []
    else CallsUpTo(buckets, remote, n - 1)
         + BucketCalls(buckets[n - 1], SnapshotOf(buckets[n - 1], remote).value, remote, n - 1, |buckets[n - 1].tasks|)
  }

  /**
   * The inner `forEach` of `updateNotionDatabases`: each task of the bucket is
   * sent with the shared snapshot, and an error it throws is caught, so the
   * next task is still sent.
   */
  method UpdateBucket(bucket: Bucket, snapshot: seq<ExistingRecord>, remote: Remote, b: nat) returns (calls: seq<Call>)
    ensures calls == BucketCalls(bucket, snapshot, remote, b, |bucket.tasks|)
  {
    calls := [];
    for t := 0 to |bucket.tasks|
      invariant calls == BucketCalls(bucket, snapshot, remote, b, t)
    {
      calls := calls + [TaskCall(bucket.tasks[t], snapshot, remote, b, t)];
    }
  }

  /**
   * `updateNotionDatabases(tasksByDatabase)`: for each bucket, fetch the
   * snapshot once and send every task with it, catching each task's error;
   * a snapshot that cannot be fetched ends the whole run with its error.
   * `fetched` lists the databases whose snapshot was requested.
   */
  method UpdateNotionDatabases(buckets: seq<Bucket>, remote: Remote)
    returns (calls: seq<Call>, fetched: seq<string>, error: Option<Error>)
    ensures var stop := FirstFailedFetch(buckets, remote);
      (error.None? <==> stop == |buckets|)
      && (error.Some? ==> error.value == SnapshotOf(buckets[stop], remote).error)
      && fetched == DatabaseIds(buckets, if stop < |buckets| then stop + 1 else stop)
      && calls == CallsUpTo(buckets, remote, stop)
  {
    calls, fetched, error := [], [], None;
    var b := 0;
    while b < |buckets|
      invariant 0 <= b <= |buckets|
      invariant forall j :: 0 <= j < b ==> SnapshotOf(buckets[j], remote).Ok?
      invariant calls == CallsUpTo(buckets, remote, b)
      invariant fetched == DatabaseIds(buckets, b)
    {
      var bucket := buckets[b];
      fetched := fetched + [bucket.databaseId];
      var snapshot := SnapshotOf(bucket, remote);
      if snapshot.Err? {
        error := Some(snapshot.error);
        StoppedAt(buckets, remote, b, calls, fetched, error);
        return;
      }
      var bucketCalls := UpdateBucket(bucket, snapshot.value, remote, b);
      CallsUpToStep(buckets, remote, b);
      calls := calls + bucketCalls;
      b := b + 1;
    }
    StoppedAt(buckets, remote, b, calls, fetched, error);
  }

  /** Where the run stops, the calls, the fetches and the error are those the postcondition names. */
  lemma StoppedAt(buckets: seq<Bucket>, remote: Remote, b: nat, calls: seq<Call>, fetched: seq<string>, error: Option<Error>)
    requires b <= |buckets|
    requires forall j :: 0 <= j < b ==> SnapshotOf(buckets[j], remote).Ok?
    requires calls == CallsUpTo(buckets, remote, b)
    requires b == |buckets| ==> error.None? && fetched == DatabaseIds(buckets, b)
    requires b < |buckets| ==>
      (SnapshotOf(buckets[b], remote).Err? && error == Some(SnapshotOf(buckets[b], remote).error)
       && fetched == DatabaseIds(buckets, b + 1))
    ensures var stop := FirstFailedFetch(buckets, remote);
      (error.None? <==> stop == |buckets|)
      && (error.Some? ==> error.value == SnapshotOf(buckets[stop], remote).error)
      && fetched == DatabaseIds(buckets, if stop < |buckets| then stop + 1 else stop)
      && calls == CallsUpTo(buckets, remote, stop)
  {
    FirstFailedAt(buckets, remote, b);
  }

  /** The database ids of the first `n` buckets, in order. */
  function DatabaseIds(buckets: seq<Bucket>, n: nat): (ids: seq<string>)
    requires n <= |buckets|
    ensures |ids| == n && forall j :: 0 <= j < n ==> ids[j] == buckets[j].databaseId
  {
    if n == 0 then [] else DatabaseIds(buckets, n - 1) + [buckets[n - 1].databaseId]
  }

  lemma CallsUpToStep(buckets: seq<Bucket>, remote: Remote, b: nat)
    requires b < |buckets|
    requires forall j :: 0 <= j <= b ==> SnapshotOf(buckets[j], remote).Ok?
    ensures CallsUpTo(buckets, remote, b + 1) == CallsUpTo(buckets, remote, b)
      + BucketCalls(buckets[b], SnapshotOf(buckets[b], remote).value, remote, b, |buckets[b].tasks|)
  {
  }

  lemma {:induction false} FirstFailedAt(buckets: seq<Bucket>, remote: Remote, k: nat)
    requires k <= |buckets| && forall j :: 0 <= j < k ==> SnapshotOf(buckets[j], remote).Ok?
    requires k == |buckets| || SnapshotOf(buckets[k], remote).Err?
    ensures FirstFailedFetch(buckets, remote) == k
  {
    if k > 0 {
      if k < |buckets| {
        assert buckets[1..][k - 1] == buckets[k];
      }
      FirstFailedAt(buckets[1..], remote, k - 1);
    }
  }

  /** When every snapshot is fetched, every task of every bucket gets exactly one call. */
  lemma {:induction false} EveryTaskAttempted(buckets: seq<Bucket>, remote: Remote, n: nat)
    requires n <= |buckets|
    requires forall j :: 0 <= j < n ==> SnapshotOf(buckets[j], remote).Ok?
    ensures |CallsUpTo(buckets, remote, n)| == TotalSize(buckets[..n])
  {
    if n > 0 {
      var last := buckets[n - 1];
      EveryTaskAttempted(buckets, remote, n - 1);
      var calls := BucketCalls(last, SnapshotOf(last, remote).value, remote, n - 1, |last.tasks|);
      assert CallsUpTo(buckets, remote, n) == CallsUpTo(buckets, remote, n - 1) + calls;
      assert |calls| == |last.tasks|;
      TotalSizeAppend(buckets[..n - 1], [last]);
      assert TotalSize([last]) == |last.tasks| by { assert [last][1..] == []; }
      assert buckets[..n] == buckets[..n - 1] + [last];
    }
  }

  lemma {:induction false} TotalSizeAppend(a: seq<Bucket>, c: seq<Bucket>)
    ensures TotalSize(a + c) == TotalSize(a) + TotalSize(c)
  {
    if a != [] {
      assert (a + c)[1..] == a[1..] + c;
      TotalSizeAppend(a[1..], c);
    } else {
      assert a + c == c;
    }
  }

  /** The buckets `groupTasksByDatabase` builds name distinct databases, so each snapshot is fetched once. */
  lemma OneFetchPerDatabase(rs: seq<GroupedTask>)
    ensures var bs := Grouped(rs);
      forall i, j :: 0 <= i < j < |bs| ==> bs[i].databaseId != bs[j].databaseId
  {
  }

  /** Every bucket `groupTasksByDatabase` builds is non-empty, so reading `tasks[0]` never throws on them. */
  lemma GroupedBucketsNonEmpty(rs: seq<GroupedTask>)
    ensures forall j :: 0 <= j < |Grouped(rs)| ==> Grouped(rs)[j].tasks != []
  {
    forall j | 0 <= j < |Grouped(rs)|
      ensures Grouped(rs)[j].tasks != []
    {
      var k := KeysOf(rs)[j];
      assert k in KeysOf(rs);
      var g :| g in rs && g.databaseId == k;
      assert g in Select(rs, k);
    }
  }

  // ---------------------------------------------------------------------------
  // verifyDatabaseIds
  // ---------------------------------------------------------------------------

  /** The three ids every run needs are present. */
  predicate Verified(config: DatabaseConfig)
  {
    config.default != "" && config.work != "" && config.personal != ""
  }

  /** The keys of `requiredDatabases`, in the order they are checked. */
  const Required: seq<string> := ["default", "work", "personal"]

  /** `databaseConfig[requiredDatabases[i]]`. */
  function Field(config: DatabaseConfig, i: nat): string
  {
    if i == 0 then config.default else if i == 1 then config.work else config.personal
  }

  /**
   * `verifyDatabaseIds(databaseConfig)`: throws for the first of default,
   * work and personal that is empty, and otherwise changes nothing.
   */
  method VerifyDatabaseIds(config: DatabaseConfig) returns (error: Option<Error>)
    ensures error.None? <==> Verified(config)
    ensures config.default == "" ==> error == Some(MissingDatabaseId("default"))
    ensures config.default != "" && config.work == "" ==> error == Some(MissingDatabaseId("work"))
    ensures config.default != "" && config.work != "" && config.personal == "" ==> error == Some(MissingDatabaseId("personal"))
  {
    var required := Required;
    assert required[0] == "default" && required[1] == "work" && required[2] == "personal";
    for i := 0 to |required|
      invariant forall j :: 0 <= j < i ==> Field(config, j) != ""
    {
      if Field(config, i) == "" {
        assert i > 0 ==> Field(config, 0) != "";
        assert i > 1 ==> Field(config, 1) != "";
        return Some(MissingDatabaseId(required[i]));
      }
    }
    assert Field(config, 0) != "" && Field(config, 1) != "" && Field(config, 2) != "";
    return None;
  }
}
