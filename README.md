# pass@k bookkeeping of a Verilog generation benchmark, in Dafny

This project models the parts of the benchmark that count, score and slice text.
Everything that talks to a language model, a simulator or the file system is left out.

- **The pass@k estimator.** It has two variants.
  - `calculate_task_pass_at_k` (`benchmark_infer.py`) replays a log of scored trials. It groups pass flags by `task_id` and computes `1 - C(m - s, k) / C(m, k)` for each task, with the `s == 0` and `k >= m` special cases in front. It then averages over the tasks (module `LogReplay`).
  - `cal_atk` (`RTLLM/auto_run.py`) applies the same formula, with scipy's `comb` and no special case, to the live per-design counters. It appends one 0 to each list before averaging (`AutoRun.ResultDic.PassAtKOf`).
  - Both are stated over exact binomials (`Binomial.Comb`) and exact `real` division (`Estimator`). Both are related to each other and to the numerically stable product form.
- **The RTLLM result tally.** `result_dic` becomes the class `AutoRun.ResultDic`, a map from design name to the pair `(syntax_success, func_success)`, updated in place.
  - `test_one_file` folds one repetition into the map. The driver calls it once for each directory `test_0, test_1, ...` up to the first missing one, then calls `cal_atk(result_dic, n, 1)` and computes the two totals (`AutoRun.Evaluate`).
  - One trial of one design is an `Outcome` given as input: is the makefile there, was `simv` built, did `make sim` finish within `exec_shell`'s timeout, and what did `output.txt` say.
- **Code extraction** (module `CodeExtract`).
  - `get_code` takes the last ```` ```verilog ```` block after the last `## Code Implementation` marker. With no block, it takes that whole tail.
  - `get_code_wo_notes` also removes `/* */` and `//` comments and blank lines.
  - `extract_verilog` splits the code into a module header and a body with a two-flag line scan.
  - The regular expressions become explicit left-to-right scans over Python's string operations (module `Text`).
- **The fan-out** (module `FanOut`). `get_response` repeats every prompt `response_batch` times and turns every answer into a code record. `run_RTLLM_v1` writes answer `cid` to task `cid / response_batch` and to directory `test_{cid % response_batch}`.

Files: `common.dfy` (Option, Result), `text.dfy`, `binomial.dfy`, `estimator.dfy`, `log_replay.dfy`, `code_extract.dfy`, `fan_out.dfy`, `auto_run.dfy`.

## Model

| member | source | states |
|---|---|---|
| Binomial.Comb | benchmark_infer.py:86-87 | math.comb(n, k) is positive exactly when k <= n (0 otherwise) |
| Binomial.CombMonotone | benchmark_infer.py:86-87 | C(a, k) <= C(b, k) for a <= b: fewer failures give fewer all-failing draws |
| Estimator.PassAtKInUnitInterval | benchmark_infer.py:76-88 | every per-task value, special cases included, lies in [0, 1] |
| Estimator.TermInUnitInterval | RTLLM/auto_run.py:33 | every per-design term of cal_atk lies in [0, 1] when k <= n |
| Estimator.TermEdgeCases | RTLLM/auto_run.py:33 | with no special case in the code, the term is 0 for c = 0 and 1 for c = n with k >= 1 |
| Estimator.VariantsAgree | benchmark_infer.py:77-88 | the two special cases agree with the plain formula wherever it is defined (k <= m): the variants give equal values |
| Estimator.PassAtKAllPassed | benchmark_infer.py:80-82 | a task whose m >= 1 trials all passed has pass@k = 1 for every k >= 1 |
| Estimator.TermMonotoneInSuccesses | RTLLM/auto_run.py:32-33 | more successes never lower a design's term |
| Estimator.PassAtKMonotoneInPasses | benchmark_infer.py:77-88 | more passes never lower a task's value |
| Estimator.TermMonotoneInBudget | RTLLM/auto_run.py:33 | a larger k never lowers a design's term |
| Estimator.PassAtKMonotoneInBudget | benchmark_infer.py:77-88 | a larger k never lowers a task's value, across the k >= m special case too |
| Estimator.RatioIsProduct | benchmark_infer.py:86-88 | C(n - c, k) / C(n, k) equals the product of (1 - k / i) for i from n - c + 1 to n |
| Estimator.TermIsStableEstimate | RTLLM/auto_run.py:33 | cal_atk's term equals the numerically stable estimator for all valid n, c, k |
| Estimator.PassAtKIsStableEstimate | benchmark_infer.py:77-88 | the log-replay value equals the numerically stable estimator for k <= m |
| Estimator.FiveTrialsOnePass | benchmark_infer.py:84-88 | concrete value: 5 trials, 1 pass, k = 1 gives 0.2 in both variants |
| Estimator.TwentyTrialsFivePasses | benchmark_infer.py:84-88 | concrete value: 20 trials, 5 passes, k = 5 gives 1 - 3003/15504 in both variants |
| LogReplay.GroupByTask | benchmark_infer.py:30-59 | the grouping loop computes exactly GroupPrefix, the value-level grouping of all lines (task order, flags per task, warnings, or the aborting line) |
| LogReplay.GroupFailsAtFirstFatal | benchmark_infer.py:39-59 | grouping aborts iff some line is fatal: a non-object, or a record with both keys whose score float() rejects or whose task_id is an array or object the dict cannot hash; it then reports the first such line, numbered from 1, with the exception that line raises (float() comes before the dict lookup) |
| LogReplay.GroupHoldsPasses | benchmark_infer.py:34-59 | after grouping, a task has a list iff some counted line names it, and the list holds that task's pass flags in line order; skipped lines contribute nothing |
| LogReplay.PassesNonEmpty | benchmark_infer.py:58-59 | a task's flag list is non-empty exactly when a counted line names it |
| LogReplay.TaskPass | benchmark_infer.py:75-88 | one task's value is 0.0 without a pass, 1.0 when k >= m, otherwise the formula; math.comb raises ValueError exactly when k < 0 and the task has a pass |
| LogReplay.EvaluateTask | benchmark_infer.py:64-90 | one iteration of the per-task loop extends task_pass_dict and the warnings by the next task, or aborts with ValueError for a negative k on a task with a pass |
| LogReplay.TaskPassValues | benchmark_infer.py:62-90 | the per-task loop gives every task pass@k of its own trials and warns once per task whose trial count differs from 20; it aborts with ValueError exactly when k < 0 and some task has a pass |
| LogReplay.CalculateTaskPassAtK | benchmark_infer.py:17-98 | the function returns exactly Replay, the value-level report: abort, or per-task values, average and warnings |
| LogReplay.ReplayMeaning | benchmark_infer.py:58-96 | one entry per task named by a counted line; each entry is pass@k of that task's m >= 1 trials with s <= m passes (for a negative k, every task is without a pass and gets 0.0) and lies in [0, 1]; the average lies in [0, 1] and is 0.0 with no task |
| LogReplay.PassesCount | benchmark_infer.py:58-59 | a task has a passing trial iff some counted line names it with score 1.0 |
| LogReplay.BudgetFailsIffPassingLine | benchmark_infer.py:58-86 | for a log that groups, math.comb is reached with a negative k iff k < 0 and some line adds a passing trial |
| LogReplay.ReplayFailsIffFatalLine | benchmark_infer.py:39-88 | the computation aborts exactly when some line is fatal, or k is negative and some line adds a passing trial; with no fatal line the abort is math.comb's ValueError |
| LogReplay.ReplayEdgeCases | benchmark_infer.py:77-82 | a task's entry is 0 with no pass, and 1 with a pass and k at least its trial count |
| LogReplay.AverageInUnitInterval | benchmark_infer.py:93-96 | the mean of values in [0, 1] lies in [0, 1] |
| Text.RStripMeaning | benchmark_infer.py:139 | rstrip drops exactly the trailing whitespace |
| Text.LStripMeaning | benchmark_infer.py:154 | lstrip drops exactly the leading whitespace |
| Text.StripEmptyIffAllSpace | benchmark_infer.py:139 | `line.strip()` is empty iff the line is all whitespace |
| Text.FindMeaning | benchmark_infer.py:107 | str.find returns the first occurrence at or after the start, and None when there is none |
| Text.ContainsIffOccurs | RTLLM/auto_run.py:112 | `p in s` holds iff p occurs somewhere in s |
| Text.SplitLinesJoinLines | benchmark_infer.py:145-162 | splitting the join of break-free lines whose last line is non-empty gives the lines back |
| CodeExtract.LastPieceStart | benchmark_infer.py:107 | `split(marker)[-1]` starts after an occurrence of the marker (or at 0), and the marker does not occur from there on |
| CodeExtract.AfterLastMeaning | benchmark_infer.py:107 | the tail after the last marker contains no marker |
| CodeExtract.SkipSpaceMeaning | benchmark_infer.py:108 | the greedy `\s*` takes the whole whitespace run after the opener |
| CodeExtract.FirstMatch | benchmark_infer.py:108 | a match found at or after a position starts at the leftmost opener from there, and is that opener, its whitespace, and the first fence after that |
| CodeExtract.FindBlocks | benchmark_infer.py:108 | findall returns no block exactly when the search from the start finds no match |
| CodeExtract.ScanMeaning | benchmark_infer.py:108 | findall's scan: empty iff the first search fails; its first match is the first search's, each next one is the search after the previous closing fence, the search after the last one fails, and the strings returned are the texts of these matches |
| CodeExtract.FirstMatchExists | benchmark_infer.py:108 | there is a match iff some opener has a fence after it |
| CodeExtract.FindBlocksEmpty | benchmark_infer.py:108-109 | findall is empty iff no opener has a fence after it |
| CodeExtract.LastMatchMeaning | benchmark_infer.py:108 | the last match is found again from its own opener, and no match starts after its fence |
| CodeExtract.LastBlockOf | benchmark_infer.py:108-115 | when a block exists, the last string findall returns is the text of the scan's last match: a block after which no opener has a fence |
| CodeExtract.GetCodeWithBlock | benchmark_infer.py:106-115 | with a block in the tail after the last marker, get_code returns the text of the last match of findall's scan of that tail, from after its opener and whitespace up to the first fence |
| CodeExtract.GetCodeWithoutBlock | benchmark_infer.py:116-118 | without a block, get_code returns the whole tail after the last marker |
| CodeExtract.GetCodeHasNoMarker | benchmark_infer.py:106-118 | the marker never occurs in what get_code returns |
| CodeExtract.StripBlockCommentsIdle | benchmark_infer.py:133 | a text without `/*` is unchanged |
| CodeExtract.StripBlockCommentsSplice | benchmark_infer.py:133 | a complete block comment is removed up to its first closer, and the search goes on after it |
| CodeExtract.StripLineCommentsSplice | benchmark_infer.py:136 | a `//` comment is removed up to, and not including, the end of its line |
| CodeExtract.StripLineCommentsNoMarker | benchmark_infer.py:136 | no `//` is left after line comments are removed |
| CodeExtract.StripLineCommentsKeepsNewlines | benchmark_infer.py:136 | removing line comments keeps every line break |
| CodeExtract.KeepLinesClean | benchmark_infer.py:139 | every kept line is non-empty, not blank and ends in no whitespace |
| CodeExtract.GetCodeWoNotesLines | benchmark_infer.py:120-141 | the lines of get_code_wo_notes's result are exactly the kept lines, none blank and none with trailing whitespace |
| CodeExtract.HeaderLengthMeaning | benchmark_infer.py:151-159 | the header ends at the first line ending in `);` at or after the first line starting with `module`; with no such line, every line is header |
| CodeExtract.ScanStep | benchmark_infer.py:152-157 | how the two flags move on one line, and that the header ends where header_complete is first set |
| CodeExtract.ScanLine | benchmark_infer.py:152-159 | one iteration of the loop keeps the scan state: the flags match the lines read, the header holds the lines up to its end, the body the lines after it |
| CodeExtract.SplitHeaderLines | benchmark_infer.py:146-159 | the loop splits the lines at HeaderLength: the header lines followed by the remaining lines are the input lines |
| CodeExtract.ExtractVerilog | benchmark_infer.py:143-163 | extract_verilog returns the joined header and body of the split of get_code's lines |
| FanOut.BuildConversations | benchmark_infer.py:207-224 | len(Prompts) * response_batch conversations; entry i is built from prompt i / response_batch |
| FanOut.RecordMeaning | benchmark_infer.py:239-248 | a record holds the raw answer, its code without comments and blank lines, the header of that code, and a body that is empty only when the code is |
| FanOut.RecordAll | benchmark_infer.py:237-252 | one record per answer, at the answer's own index |
| FanOut.RecordsAt | benchmark_infer.py:237-252 | Result_dict has as many records as answers, record i made from answer i |
| FanOut.GetResponse | benchmark_infer.py:206-252 | fails iff there is no prompt or the batch is 0 (the diagnostic print of entry 0); otherwise one record per answer in order |
| FanOut.WriteTask | benchmark_infer.py:484-486 | the writes of task idx go to directories 0..batch-1 in order, with answers idx * batch onwards |
| FanOut.WriteRtllm | benchmark_infer.py:483-486 | write cid goes to directory cid % batch and task cid / batch with that answer's full code |
| FanOut.EachPairWrittenOnce | benchmark_infer.py:483-486 | with distinct task ids, every (task, directory) pair is written by exactly one answer |
| FanOut.GreedyWritesOnce | benchmark_infer.py:455-486 | at temperature 0.0 the batch is 1: answer i is written to test_0 for task i, and with distinct task ids each task is written exactly once |
| AutoRun.FoldMeaning | RTLLM/auto_run.py:87-113 | one trial raises syntax_success by 1 iff the makefile exists and simv was built, and func_success by 1 iff it also finished in time and printed "Pass" or "pass"; no makefile, no change |
| AutoRun.CountsBounded | RTLLM/auto_run.py:104-113 | over any repetitions, passes <= builds <= repetitions |
| AutoRun.RepeatMeaning | RTLLM/auto_run.py:85-121 | one test_one_file call keeps the keys, raises each counter by at most 1 exactly as its trial says, and leaves designs without a makefile untouched |
| AutoRun.AfterClosedForm | RTLLM/auto_run.py:123-131 | after any repetitions, each located design holds its numbers of builds and of passes, and the others are still (0, 0) |
| AutoRun.TallyInvariant | RTLLM/auto_run.py:123-131 | after n repetitions, 0 <= func_success <= syntax_success <= n for every design |
| AutoRun.RepeatKeepsBounds | RTLLM/auto_run.py:104-113 | one repetition keeps func_success <= syntax_success and raises the bound by one |
| AutoRun.RepeatCommutes | RTLLM/auto_run.py:85-121 | the order of two repetitions does not change the tallies |
| AutoRun.AfterSwap | RTLLM/auto_run.py:125-131 | swapping two neighbouring repetitions changes no tally |
| AutoRun.ResultDic.constructor | RTLLM/auto_run.py:79-82 | every listed design starts at (0, 0) |
| AutoRun.ResultDic.TestOneFile | RTLLM/auto_run.py:85-121 | the in-place update equals one repetition of the tally and keeps func_success <= syntax_success <= rounds |
| AutoRun.ResultDic.PassAtKOf | RTLLM/auto_run.py:30-35 | one half of cal_atk computes the mean of the per-design terms and one appended 0, or NaN when comb(n, k) is 0 |
| AutoRun.ResultDic.CalAtK | RTLLM/auto_run.py:28-44 | the syntax figure and the functional figure, each as PassAtKOf states |
| AutoRun.TermsMeaning | RTLLM/auto_run.py:31-33 | the list holds one term per design, in order, computed from that design's counter |
| AutoRun.MeanOfTerms | RTLLM/auto_run.py:34-35 | each figure is the sum of the per-design terms divided by the number of designs + 1 |
| AutoRun.CalAtKBounds | RTLLM/auto_run.py:28-44 | a figure is NaN iff k > n and some design exists; otherwise it lies in [0, D/(D+1)] for D designs |
| AutoRun.CalAtKNoSuccess | RTLLM/auto_run.py:28-44 | with no success anywhere the figure is 0 |
| AutoRun.CalAtKAllSucceed | RTLLM/auto_run.py:28-44 | with every design succeeding in all n trials the figure is D/(D+1), not 1 |
| AutoRun.ResultDic.Totals | RTLLM/auto_run.py:134-140 | the totals count the designs with a non-zero counter, and total_func_success <= total_syntax_success <= len(design_name) |
| AutoRun.TotalsBounded | RTLLM/auto_run.py:134-142 | both totals are at most the number of designs, and functional <= syntax under the tally invariant |
| AutoRun.NonZeroNone | RTLLM/auto_run.py:136-140 | a total is 0 iff no design has a non-zero counter |
| AutoRun.NonZeroAll | RTLLM/auto_run.py:136-140 | a total is the number of designs iff every design has a non-zero counter |
| AutoRun.RepetitionCountUnique | RTLLM/auto_run.py:123-131 | the number of consecutive directories test_0, test_1, ... before the first missing one is unique |
| AutoRun.Evaluate | RTLLM/auto_run.py:79-142 | n is the length of the test_i prefix; the tallies are those of the first n repetitions and satisfy func <= syntax <= n; the figures are cal_atk with k = 1; the totals are bounded and ordered |
| AutoRun.MakefileChecksAsWritten | RTLLM/auto_run.py:86-118 | the makefile look-ups as written, with chdir("..") climbing one level after each found design |
| AutoRun.MakefileChecks | RTLLM/auto_run.py:86-87 | the makefile look-ups when each iteration returns to its starting directory |
| AutoRun.MakefileChecksMeaning | RTLLM/auto_run.py:86-87 | with the directory restored, design i's makefile is found iff it exists |
| AutoRun.MakefileChecksDiverge | RTLLM/auto_run.py:97-118 | for two designs in Arithmetic/Adder, both with a makefile, the code as written finds only the first, and the intended checks find both |

## Left out

- Model inference (vLLM's `LLM`, `SamplingParams`, `chat` and `generate`). The answers are a parameter of `FanOut.GetResponse`, one per conversation, in order.
- The external evaluator, `parse_out` and the VerilogEval driver. These are a subprocess and float parsing.
- `exec_shell`'s thread and wall-clock timeout. Its result is the `finished` flag of an `Outcome`.
- The trial plumbing of `test_one_file` (rewriting and restoring the makefile, `make vcs`, `make sim`, `make clean`, reading `output.txt`, checking for `simv`). Each trial is an `Outcome` given as input.
- Loading `file_list.json` and building `full_design_name`. The located designs are a parameter `located`, in dict order.
- JSON decoding. Each log line arrives already classified as blank, malformed, not an object, or a record with an optional `task_id` and an optional score.
- `round(..., 4)` and floating point. The model uses exact binomials and exact `real` division, so every value is the exact one, before rounding.
- numpy's NaN is a separate `Estimate` case, not a float.
- Python's regular-expression engine. The three patterns are written as explicit scans.
- The progress bar, `print` output and `warnings.warn` output. Warnings become values.
- The prompt edits in `run_RTLLM_v1` (the sub-module reminder and `strip()`), reading `complete_data.jsonl`, and directory creation.
- `data2v.py` and `pick_29.py`. These are file-conversion and filter scripts outside the core.
- LogReplay.GroupByTask: a task_id is named by the dict key it is filed under. JSON values that Python's dict treats as one key (1, 1.0 and true) must be classified to the same TaskId; decoding is not modelled, so the model does not do this.
- LogReplay.Replay: the per-task map does not keep task_pass_dict's insertion order. That order is Groups.order, the order of first appearance, which the average sums over.
- LogReplay.TaskPassValues: when math.comb aborts, the trial-count warnings already issued are not part of the result.
- FanOut.GetResponse: requires one answer per conversation. The model answers every conversation it is given.
- FanOut.WriteRtllm: requires one result per (task, repetition). `get_response` guarantees this. Otherwise the source raises IndexError, which is not modelled.
- FanOut.EachPairWrittenOnce: assumes distinct task ids. With a repeated task id, the later write overwrites the earlier file.
- AutoRun.ResultDic.TestOneFile: requires the located designs to be distinct and listed. They are keys of `full_design_name`, which holds only names from `design_name`.
- AutoRun.ResultDic.TestOneFile: reads each makefile from the directory the script started in, as `MakefileChecks` does. The as-written directory drift is under Findings.
- AutoRun.Evaluate: computes `cal_atk` only with k = 1, as the script does. `AutoRun.ResultDic.CalAtK` takes any k.

## Findings

| source | as written | input that shows it | evidently intended | confidence | as-written member | corrected member |
|---|---|---|---|---|---|---|
| RTLLM/auto_run.py:97-118 | `os.chdir(full_design_name[design])` enters a three-level folder `fold/sf/design`, but `os.chdir("..")` climbs back only one level. Every later makefile is looked up relative to `fold/sf`. | Two designs `Arithmetic/Adder/adder_8bit` and `Arithmetic/Adder/adder_16bit`, both with a makefile. The second is looked up as `Arithmetic/Adder/Arithmetic/Adder/adder_16bit`, not found, and silently skipped. | Each iteration returns to the starting directory, so every design's makefile is found exactly when it exists. | medium, not executed | AutoRun.MakefileChecksAsWritten (shown by AutoRun.MakefileChecksDiverge) | AutoRun.MakefileChecks (proved by AutoRun.MakefileChecksMeaning) |
