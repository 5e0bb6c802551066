/**
 * calculate_task_pass_at_k (benchmark_infer.py): read a log of scored trials
 * line by line, group the pass flags by task_id, compute pass@k for every
 * task from its own trial count, and average over the tasks.
 *
 * JSON decoding is not modelled: each line arrives already stripped and
 * classified. A missing key and a JSON null are the same to data.get, hence
 * the Option fields of Record.
 *
 * k may be any integer: math.comb rejects a negative one, which aborts the
 * computation as soon as a task with a pass needs the formula.
 */
module LogReplay {
  import opened Common
  import opened Estimator
  import opened Binomial

  type TaskId = string

  /**
   * A record's "task_id" as a key of task_results: a hashable JSON value
   * (string, number, boolean), named by the key the dict files it under, or
   * an array or object, which the dict rejects with TypeError.
   */
  datatype TaskKey = Hashable(id: TaskId) | Unhashable

  /** What float() makes of a record's "score" value. */
  datatype Score = Numeric(value: real) | NotNumeric

  datatype LogLine =
    | Blank                                                  // empty after strip()
    | Malformed                                              // json.loads raised JSONDecodeError
    | NotAnObject                                            // valid JSON, but data.get does not exist
    | Record(taskId: Option<TaskKey>, score: Option<Score>)

  /** The non-fatal diagnostics that warnings.warn reports; line numbers count from 1. */
  datatype Warning =
    | MalformedLine(line: nat)
    | MissingTaskId(line: nat)
    | MissingScore(line: nat)
    | TrialCountMismatch(task: TaskId, trials: nat)

  /** The exceptions that abort the whole computation. */
  datatype Failure =
    | NotAnObjectAt(line: nat)        // AttributeError from data.get
    | ScoreNotNumericAt(line: nat)    // ValueError or TypeError from float(score)
    | UnhashableTaskIdAt(line: nat)   // TypeError from task_results[task_id]
    | NegativeSampleCount             // ValueError from math.comb with k < 0

  /** The trial count every task is expected to have; any other count only warns. */
  const ExpectedTrials: nat := 20

  /** task_results (a defaultdict(list), in insertion order) and the warnings so far. */
  datatype Groups = Groups(order: seq<TaskId>, trials: map<TaskId, seq<bool>>, warnings: seq<Warning>)

  datatype Report = Report(passAtK: map<TaskId, real>, average: real, warnings: seq<Warning>)

  // ---------------------------------------------------------------------
  // Which lines count.

  /**
   * A line that raises: a non-object, or a complete record whose score
   * float() rejects or whose task_id cannot be a dict key.
   */
  predicate Fatal(line: LogLine) {
    || line.NotAnObject?
    || (line.Record? && line.taskId.Some? && line.score.Some?
        && (line.score.value.NotNumeric? || line.taskId.value.Unhashable?))
  }

  /** The exception a fatal line raises: float(score) is tried before the dict lookup. */
  function Raised(line: LogLine, lineNo: nat): Failure
    requires Fatal(line)
  {
    if line.NotAnObject? then NotAnObjectAt(lineNo)
    else if line.score.value.NotNumeric? then ScoreNotNumericAt(lineNo)
    else UnhashableTaskIdAt(lineNo)
  }

  /** A line that adds a trial to task t; it passes when its score equals 1.0 exactly. */
  predicate CountsFor(line: LogLine, t: TaskId) {
    line.Record? && line.taskId == Some(Hashable(t)) && line.score.Some? && line.score.value.Numeric?
  }

  /** A line that adds a passing trial to some task. */
  predicate Passing(line: LogLine) {
    line.Record? && line.taskId.Some? && line.taskId.value.Hashable? && line.score == Some(Numeric(1.0))
  }

  function PassFlag(line: LogLine): bool
    requires line.Record? && line.score.Some? && line.score.value.Numeric?
  {
    line.score.value.value == 1.0
  }

  /** The pass flags the first n lines contribute to task t, in order. */
  function Passes(lines: seq<LogLine>, n: nat, t: TaskId): seq<bool>
    requires n <= |lines|
  {
    if n == 0 then []
    else Passes(lines, n - 1, t) + (if CountsFor(lines[n - 1], t) then [PassFlag(lines[n - 1])] else [])
  }

  /** Number of passes: sum(results). */
  function CountPasses(flags: seq<bool>): (s: nat)
    ensures s <= |flags|
  {
    if flags == [] then 0 else CountPasses(flags[..|flags| - 1]) + (if flags[|flags| - 1] then 1 else 0)
  }

  // ---------------------------------------------------------------------
  // The grouping loop (lines 30-59) as a fold over the lines.

  /** task_results[t].append(pass). */
  function AddTrial(g: Groups, t: TaskId, pass: bool): Groups {
    if t in g.trials then g.(trials := g.trials[t := g.trials[t] + [pass]])
    else g.(order := g.order + [t], trials := g.trials[t := [pass]])
  }

  /** One iteration of the loop over the file, for the line numbered lineNo. */
  function Absorb(g: Groups, line: LogLine, lineNo: nat): Result<Groups, Failure> {
    match line
    case Blank => Ok(g)
    case Malformed => Ok(g.(warnings := g.warnings + [MalformedLine(lineNo)]))
    case NotAnObject => Err(NotAnObjectAt(lineNo))
    case Record(t, sc) =>
      if t.None? then Ok(g.(warnings := g.warnings + [MissingTaskId(lineNo)]))
      else if sc.None? then Ok(g.(warnings := g.warnings + [MissingScore(lineNo)]))
      else if sc.value.NotNumeric? then Err(ScoreNotNumericAt(lineNo))
      else if t.value.Unhashable? then Err(UnhashableTaskIdAt(lineNo))
      else Ok(AddTrial(g, t.value.id, sc.value.value == 1.0))
  }

  /** The state after the first n lines. */
  function GroupPrefix(lines: seq<LogLine>, n: nat): Result<Groups, Failure>
    requires n <= |lines|
  {
    if n == 0 then Ok(Groups([], map[], []))
    else
      match GroupPrefix(lines, n - 1)
      case Err(e) => Err(e)
      case Ok(g) => Absorb(g, lines[n - 1], n)
  }

  /** task_results is consistent: its keys in order once each, every list non-empty. */
  ghost predicate WellFormed(g: Groups) {
    && (forall t :: t in g.trials <==> t in g.order)
    && (forall i, j :: 0 <= i < j < |g.order| ==> g.order[i] != g.order[j])
    && (forall t :: t in g.trials ==> g.trials[t] != [])
  }

  /** Once a line has raised, nothing later changes the outcome. */
  lemma {:induction false} FailureSticks(lines: seq<LogLine>, i: nat, n: nat)
    requires i <= n <= |lines| && GroupPrefix(lines, i).Err?
    ensures GroupPrefix(lines, n) == GroupPrefix(lines, i)
    decreases n - i
  {
    if i < n {
      FailureSticks(lines, i, n - 1);
    }
  }

  /**
   * The grouping loop aborts exactly when a fatal line occurs, and then with
   * the number of the first one.
   */
  lemma {:induction false} GroupFailsAtFirstFatal(lines: seq<LogLine>, n: nat)
    requires n <= |lines|
    ensures GroupPrefix(lines, n).Err? <==> exists i :: 0 <= i < n && Fatal(lines[i])
    ensures GroupPrefix(lines, n).Err? ==>
      exists i :: 0 <= i < n && Fatal(lines[i]) && GroupPrefix(lines, n).error == Raised(lines[i], i + 1)
        && forall j :: 0 <= j < i ==> !Fatal(lines[j])
  {
    if n > 0 {
      GroupFailsAtFirstFatal(lines, n - 1);
      if GroupPrefix(lines, n - 1).Ok? {
        assert forall i :: 0 <= i < n - 1 ==> !Fatal(lines[i]);
        if GroupPrefix(lines, n).Err? {
          assert Fatal(lines[n - 1]) && GroupPrefix(lines, n).error == Raised(lines[n - 1], n);
        }
      } else {
        FailureSticks(lines, n - 1, n);
      }
    }
  }

  /** task_results agrees with the flags of the first n lines, task by task. */
  ghost predicate HoldsPasses(g: Groups, lines: seq<LogLine>, n: nat)
    requires n <= |lines|
  {
    forall t :: (t in g.trials <==> Passes(lines, n, t) != []) && (t in g.trials ==> g.trials[t] == Passes(lines, n, t))
  }

  /** One line that does not raise keeps task_results well formed and appends its flag, if any, to its own task. */
  lemma AbsorbStep(g: Groups, line: LogLine, lineNo: nat)
    requires WellFormed(g) && Absorb(g, line, lineNo).Ok?
    ensures var g2 := Absorb(g, line, lineNo).value;
      && WellFormed(g2)
      && forall t ::
        && (t in g2.trials <==> t in g.trials || CountsFor(line, t))
        && (t in g2.trials ==>
              g2.trials[t] == (if t in g.trials then g.trials[t] else []) + (if CountsFor(line, t) then [PassFlag(line)] else []))
  {
    var g2 := Absorb(g, line, lineNo).value;
    if line.Record? && line.taskId.Some? && line.score.Some? {
      var u := line.taskId.value.id;
      assert g2 == AddTrial(g, u, PassFlag(line));
      if u !in g.trials {
        forall i, j | 0 <= i < j < |g2.order| ensures g2.order[i] != g2.order[j] {
          if j == |g.order| {
            assert g2.order[i] == g.order[i] && g.order[i] in g.order;
          }
        }
      }
    } else {
      assert g2.trials == g.trials && g2.order == g.order;
    }
  }

  /**
   * What the grouping loop computes when it does not abort: task_results
   * holds, for every task, exactly the pass flags of the lines that count
   * for it, in order, and no other key. Blank, malformed and incomplete
   * lines add nothing.
   */
  lemma {:induction false} GroupHoldsPasses(lines: seq<LogLine>, n: nat)
    requires n <= |lines| && GroupPrefix(lines, n).Ok?
    ensures WellFormed(GroupPrefix(lines, n).value)
    ensures HoldsPasses(GroupPrefix(lines, n).value, lines, n)
  {
    if n > 0 {
      var prev := GroupPrefix(lines, n - 1);
      GroupHoldsPasses(lines, n - 1);
      var g, line := prev.value, lines[n - 1];
      AbsorbStep(g, line, n);
      var g2 := GroupPrefix(lines, n).value;
      forall t ensures (t in g2.trials <==> Passes(lines, n, t) != []) && (t in g2.trials ==> g2.trials[t] == Passes(lines, n, t)) {
        assert Passes(lines, n, t) == Passes(lines, n - 1, t) + (if CountsFor(line, t) then [PassFlag(line)] else []);
      }
    }
  }

  /** task_results's keys are the tasks some counted line names. */
  lemma {:induction false} PassesNonEmpty(lines: seq<LogLine>, n: nat, t: TaskId)
    requires n <= |lines|
    ensures Passes(lines, n, t) != [] <==> exists i :: 0 <= i < n && CountsFor(lines[i], t)
    ensures |Passes(lines, n, t)| <= n
  {
    if n > 0 {
      PassesNonEmpty(lines, n - 1, t);
    }
  }

  /** The loop of lines 33-59. */
  method GroupByTask(lines: seq<LogLine>) returns (r: Result<Groups, Failure>)
    ensures r == GroupPrefix(lines, |lines|)
  {
    var order: seq<TaskId> := [];
    var trials: map<TaskId, seq<bool>> := map[];
    var warnings: seq<Warning> := [];
    var i := 0;
    while i < |lines|
      invariant i <= |lines|
      invariant GroupPrefix(lines, i) == Ok(Groups(order, trials, warnings))
    {
      var lineNo := i + 1;
      match lines[i] {
        case Blank =>
        case Malformed =>
          warnings := warnings + [MalformedLine(lineNo)];
        case NotAnObject =>
          FailureSticks(lines, i + 1, |lines|);
          return Err(NotAnObjectAt(lineNo));
        case Record(taskId, score) =>
          if taskId.None? {
            warnings := warnings + [MissingTaskId(lineNo)];
          } else if score.None? {
            warnings := warnings + [MissingScore(lineNo)];
          } else if score.value.NotNumeric? {
            FailureSticks(lines, i + 1, |lines|);
            return Err(ScoreNotNumericAt(lineNo));
          } else if taskId.value.Unhashable? {
            FailureSticks(lines, i + 1, |lines|);
            return Err(UnhashableTaskIdAt(lineNo));
          } else {
            var t := taskId.value.id;
            var isPass := score.value.value == 1.0;
            if t in trials {
              trials := trials[t := trials[t] + [isPass]];
            } else {
              order := order + [t];
              trials := trials[t := [isPass]];
            }
          }
      }
      i := i + 1;
    }
    r := Ok(Groups(order, trials, warnings));
  }

  // ---------------------------------------------------------------------
  // Per-task pass@k (lines 62-90) and the average (lines 93-96).

  /**
   * The pass@k of one task, from its observed trial count m and pass count s.
   * For a negative k this is 0.0, which is what the source reports for the
   * only tasks it gets through with such a k: those without a pass (the
   * s == 0 branch comes before math.comb).
   */
  function TaskValue(flags: seq<bool>, k: int): real {
    if k < 0 then 0.0 else PassAtK(|flags|, CountPasses(flags), k)
  }

  /** task_pass_dict: one entry per task of task_results. */
  function TaskValues(g: Groups, k: int): map<TaskId, real> {
    map t | t in g.trials :: TaskValue(g.trials[t], k)
  }

  /** math.comb is reached with a negative k: some task has a pass (and then k < m). */
  predicate BudgetFails(g: Groups, k: int) {
    k < 0 && exists t :: t in g.trials && CountPasses(g.trials[t]) > 0
  }

  /** The warnings for tasks whose trial count is not ExpectedTrials, in task order. */
  function CountWarnings(order: seq<TaskId>, trials: map<TaskId, seq<bool>>): seq<Warning>
    requires forall t :: t in order ==> t in trials
  {
    if order == [] then []
    else
      var t := order[|order| - 1];
      CountWarnings(order[..|order| - 1], trials)
        + (if |trials[t]| != ExpectedTrials then [TrialCountMismatch(t, |trials[t]|)] else [])
  }

  /** sum(task_pass_dict.values()), in the dict's order. */
  function SumOver(order: seq<TaskId>, values: map<TaskId, real>): real
    requires forall t :: t in order ==> t in values
  {
    if order == [] then 0.0 else SumOver(order[..|order| - 1], values) + values[order[|order| - 1]]
  }

  /** average_pass: the unweighted mean of the values, 0.0 when there are no tasks. */
  function Average(order: seq<TaskId>, values: map<TaskId, real>): real
    requires forall t :: t in order ==> t in values
  {
    if |order| > 0 then SumOver(order, values) / (|order| as real) else 0.0
  }

  /** The result of calculate_task_pass_at_k(lines, k). */
  function Replay(lines: seq<LogLine>, k: int): Result<Report, Failure> {
    match GroupPrefix(lines, |lines|)
    case Err(e) => Err(e)
    case Ok(g) =>
      if BudgetFails(g, k) then Err(NegativeSampleCount)
      else
        GroupHoldsPasses(lines, |lines|);
        var values := TaskValues(g, k);
        Ok(Report(values, Average(g.order, values), g.warnings + CountWarnings(g.order, g.trials)))
  }

  /** task_pass_dict as the loop builds it, one task of the order at a time. */
  function ValuesInOrder(order: seq<TaskId>, trials: map<TaskId, seq<bool>>, k: int): map<TaskId, real>
    requires forall t :: t in order ==> t in trials
  {
    if order == [] then map[]
    else
      var t := order[|order| - 1];
      ValuesInOrder(order[..|order| - 1], trials, k)[t := TaskValue(trials[t], k)]
  }

  /** Building the dict in order gives one entry per listed task, each its own TaskValue. */
  lemma {:induction false} ValuesInOrderMeaning(order: seq<TaskId>, trials: map<TaskId, seq<bool>>, k: int)
    requires forall t :: t in order ==> t in trials
    ensures forall t :: t in ValuesInOrder(order, trials, k) <==> t in order
    ensures forall t :: t in ValuesInOrder(order, trials, k) ==> ValuesInOrder(order, trials, k)[t] == TaskValue(trials[t], k)
  {
    if order != [] {
      var front := order[..|order| - 1];
      ValuesInOrderMeaning(front, trials, k);
      assert order == front + [order[|order| - 1]];
    }
  }

  /** Over a well-formed task_results, the dict built in order is task_pass_dict. */
  lemma ValuesInOrderIsTaskValues(g: Groups, k: int)
    requires WellFormed(g)
    ensures ValuesInOrder(g.order, g.trials, k) == TaskValues(g, k)
  {
    ValuesInOrderMeaning(g.order, g.trials, k);
  }

  /**
   * Lines 75-88 for one task: 0.0 without a pass, 1.0 when k reaches the
   * trial count, otherwise the formula, whose math.comb raises ValueError
   * for a negative k.
   */
  method TaskPass(results: seq<bool>, k: int) returns (r: Result<real, Failure>)
    ensures r.Err? <==> k < 0 && CountPasses(results) > 0
    ensures r.Err? ==> r.error == NegativeSampleCount
    ensures r.Ok? ==> r.value == TaskValue(results, k)
  {
    var m := |results|;
    var s := CountPasses(results);
    if s == 0 {
      r := Ok(0.0);
    } else if k >= m {
      r := Ok(1.0);
    } else if k < 0 {
      r := Err(NegativeSampleCount);
    } else {
      r := Ok(1.0 - (Comb(m - s, k) as real) / (Comb(m, k) as real));
    }
  }

  /**
   * The loop of lines 65-90 after i tasks: task_pass_dict and the warnings
   * of those tasks, none of which had a pass if k is negative.
   */
  ghost predicate Evaluated(g: Groups, k: int, i: nat, values: map<TaskId, real>, warnings: seq<Warning>)
    requires WellFormed(g) && i <= |g.order|
  {
    && values == ValuesInOrder(g.order[..i], g.trials, k)
    && warnings == g.warnings + CountWarnings(g.order[..i], g.trials)
    && (k < 0 ==> forall j :: 0 <= j < i ==> CountPasses(g.trials[g.order[j]]) == 0)
  }

  /** One iteration of lines 65-90: the warning for task i, then its pass@k. */
  method EvaluateTask(g: Groups, k: int, i: nat, values: map<TaskId, real>, warnings: seq<Warning>)
    returns (r: Result<(map<TaskId, real>, seq<Warning>), Failure>)
    requires WellFormed(g) && i < |g.order| && Evaluated(g, k, i, values, warnings)
    ensures r.Err? ==> BudgetFails(g, k) && r.error == NegativeSampleCount
    ensures r.Ok? ==> Evaluated(g, k, i + 1, r.value.0, r.value.1)
  {
    var t := g.order[i];
    var results := g.trials[t];
    var m := |results|;
    assert g.order[..i + 1][..i] == g.order[..i];
    var warnings' := warnings;
    if m != ExpectedTrials {
      warnings' := warnings + [TrialCountMismatch(t, m)];
    }
    var passK := TaskPass(results, k);
    if passK.Err? {
      assert t in g.trials && CountPasses(g.trials[t]) > 0;
      return Err(passK.error);
    }
    r := Ok((values[t := passK.value], warnings'));
  }

  /**
   * The loop of lines 65-90: pass@k and the trial-count warning for every
   * task, or the ValueError math.comb raises for a negative k at the first
   * task with a pass.
   */
  method TaskPassValues(g: Groups, k: int) returns (r: Result<(map<TaskId, real>, seq<Warning>), Failure>)
    requires WellFormed(g)
    ensures r.Err? <==> BudgetFails(g, k)
    ensures r.Err? ==> r.error == NegativeSampleCount
    ensures r.Ok? ==> r.value == (TaskValues(g, k), g.warnings + CountWarnings(g.order, g.trials))
  {
    var values: map<TaskId, real> := map[];
    var warnings := g.warnings;
    var i := 0;
    while i < |g.order|
      invariant i <= |g.order|
      invariant Evaluated(g, k, i, values, warnings)
    {
      var step := EvaluateTask(g, k, i, values, warnings);
      if step.Err? {
        return Err(step.error);
      }
      values, warnings := step.value.0, step.value.1;
      i := i + 1;
    }
    assert g.order[..i] == g.order;
    if k < 0 {
      forall t | t in g.trials ensures CountPasses(g.trials[t]) == 0 {
        var j :| 0 <= j < |g.order| && g.order[j] == t;
      }
    }
    ValuesInOrderIsTaskValues(g, k);
    r := Ok((values, warnings));
  }

  /** calculate_task_pass_at_k: group, evaluate every task, average. */
  method CalculateTaskPassAtK(lines: seq<LogLine>, k: int) returns (r: Result<Report, Failure>)
    ensures r == Replay(lines, k)
  {
    var grouped := GroupByTask(lines);
    if grouped.Err? {
      return Err(grouped.error);
    }
    var g := grouped.value;
    GroupHoldsPasses(lines, |lines|);
    var perTask := TaskPassValues(g, k);
    if perTask.Err? {
      return Err(perTask.error);
    }
    var (values, warnings) := perTask.value;
    var average := Average(g.order, values);
    r := Ok(Report(values, average, warnings));
  }

  // ---------------------------------------------------------------------
  // What the report means.

  lemma {:induction false} SumOverBounds(order: seq<TaskId>, values: map<TaskId, real>)
    requires forall t :: t in order ==> t in values && 0.0 <= values[t] <= 1.0
    ensures 0.0 <= SumOver(order, values) <= |order| as real
  {
    if order != [] {
      SumOverBounds(order[..|order| - 1], values);
      assert order[|order| - 1] in order;
    }
  }

  /** The average of values in [0, 1] lies in [0, 1]. */
  lemma AverageInUnitInterval(order: seq<TaskId>, values: map<TaskId, real>)
    requires forall t :: t in order ==> t in values && 0.0 <= values[t] <= 1.0
    ensures 0.0 <= Average(order, values) <= 1.0
  {
    SumOverBounds(order, values);
    if |order| > 0 {
      var n := |order| as real;
      assert SumOver(order, values) / n <= n / n;
    }
  }

  lemma CountPassesSnoc(flags: seq<bool>, b: bool)
    ensures CountPasses(flags + [b]) == CountPasses(flags) + (if b then 1 else 0)
  {
    assert (flags + [b])[..|flags|] == flags;
  }

  /** A task has a pass among the first n lines exactly when one of them passes it. */
  lemma {:induction false} PassesCount(lines: seq<LogLine>, n: nat, t: TaskId)
    requires n <= |lines|
    ensures CountPasses(Passes(lines, n, t)) > 0 <==>
      exists i :: 0 <= i < n && CountsFor(lines[i], t) && PassFlag(lines[i])
  {
    if n > 0 {
      var last := n - 1;
      PassesCount(lines, last, t);
      if CountsFor(lines[last], t) {
        CountPassesSnoc(Passes(lines, last, t), PassFlag(lines[last]));
      } else {
        assert Passes(lines, n, t) == Passes(lines, last, t);
      }
      if CountPasses(Passes(lines, n, t)) > 0 && !(CountsFor(lines[last], t) && PassFlag(lines[last])) {
        var i :| 0 <= i < last && CountsFor(lines[i], t) && PassFlag(lines[i]);
        assert 0 <= i < n;
      }
      if exists i :: 0 <= i < n && CountsFor(lines[i], t) && PassFlag(lines[i]) {
        var i :| 0 <= i < n && CountsFor(lines[i], t) && PassFlag(lines[i]);
        if i < last {
          assert CountPasses(Passes(lines, last, t)) > 0;
        }
      }
    }
  }

  /** For a log that groups, math.comb is reached with a negative k exactly when some line passes. */
  lemma BudgetFailsIffPassingLine(lines: seq<LogLine>, k: int)
    requires GroupPrefix(lines, |lines|).Ok?
    ensures BudgetFails(GroupPrefix(lines, |lines|).value, k) <==>
      k < 0 && exists i :: 0 <= i < |lines| && Passing(lines[i])
  {
    GroupHoldsPasses(lines, |lines|);
    var g := GroupPrefix(lines, |lines|).value;
    if k < 0 {
      if BudgetFails(g, k) {
        var t :| t in g.trials && CountPasses(g.trials[t]) > 0;
        PassesCount(lines, |lines|, t);
        var i :| 0 <= i < |lines| && CountsFor(lines[i], t) && PassFlag(lines[i]);
        assert Passing(lines[i]);
      }
      if exists i :: 0 <= i < |lines| && Passing(lines[i]) {
        var i :| 0 <= i < |lines| && Passing(lines[i]);
        var t := lines[i].taskId.value.id;
        assert CountsFor(lines[i], t) && PassFlag(lines[i]);
        PassesCount(lines, |lines|, t);
        assert t in g.trials;
      }
    }
  }

  /**
   * The report of a log that does not abort: exactly one entry per task some
   * counted line names; each entry is pass@k of that task's own trials
   * (m >= 1 of them, s <= m passing), a number in [0, 1] (with a negative k,
   * every task is without a pass and gets 0.0); the average lies in [0, 1]
   * and is 0.0 when no line counted.
   */
  lemma ReplayMeaning(lines: seq<LogLine>, k: int)
    requires Replay(lines, k).Ok?
    ensures var rep := Replay(lines, k).value;
      && (forall t :: t in rep.passAtK <==> exists i :: 0 <= i < |lines| && CountsFor(lines[i], t))
      && (forall t :: t in rep.passAtK ==>
            var flags := Passes(lines, |lines|, t);
            && 1 <= |flags| && CountPasses(flags) <= |flags|
            && (k >= 0 ==> rep.passAtK[t] == PassAtK(|flags|, CountPasses(flags), k))
            && (k < 0 ==> CountPasses(flags) == 0 && rep.passAtK[t] == 0.0)
            && 0.0 <= rep.passAtK[t] <= 1.0)
      && 0.0 <= rep.average <= 1.0
      && (rep.passAtK == map[] ==> rep.average == 0.0)
  {
    GroupHoldsPasses(lines, |lines|);
    var g := GroupPrefix(lines, |lines|).value;
    var rep := Replay(lines, k).value;
    forall t ensures t in rep.passAtK <==> exists i :: 0 <= i < |lines| && CountsFor(lines[i], t) {
      PassesNonEmpty(lines, |lines|, t);
    }
    forall t | t in rep.passAtK ensures 0.0 <= rep.passAtK[t] <= 1.0 {
      if k >= 0 {
        PassAtKInUnitInterval(|g.trials[t]|, CountPasses(g.trials[t]), k);
      }
    }
    AverageInUnitInterval(g.order, rep.passAtK);
  }

  /**
   * The log aborts exactly when some line is fatal, or k is negative and some
   * line passes; with no fatal line, the abort is math.comb's.
   */
  lemma ReplayFailsIffFatalLine(lines: seq<LogLine>, k: int)
    ensures Replay(lines, k).Err? <==>
      || (exists i :: 0 <= i < |lines| && Fatal(lines[i]))
      || (k < 0 && exists i :: 0 <= i < |lines| && Passing(lines[i]))
    ensures Replay(lines, k).Err? && (forall i :: 0 <= i < |lines| ==> !Fatal(lines[i])) ==>
      Replay(lines, k).error == NegativeSampleCount
  {
    GroupFailsAtFirstFatal(lines, |lines|);
    if GroupPrefix(lines, |lines|).Ok? {
      BudgetFailsIffPassingLine(lines, k);
    }
  }

  /** A task's entry goes 0 with no pass and 1 with a pass and k at least its trial count. */
  lemma ReplayEdgeCases(lines: seq<LogLine>, k: int, t: TaskId)
    requires Replay(lines, k).Ok? && t in Replay(lines, k).value.passAtK
    ensures var flags := Passes(lines, |lines|, t);
      && (CountPasses(flags) == 0 ==> Replay(lines, k).value.passAtK[t] == 0.0)
      && (CountPasses(flags) > 0 && k >= |flags| ==> Replay(lines, k).value.passAtK[t] == 1.0)
  {
    ReplayMeaning(lines, k);
  }
}
