# Manager selection and PBS Pro block bookkeeping in parsl

This project models two pieces of parsl's machinery for running tasks on batch clusters.

**Manager selectors.** These are the strategies the high-throughput executor uses to order its candidate
worker-managers before it hands out tasks (module `ManagerSelector`):

- `ManagerSelectorRandom.sort_managers` shuffles a copy of the candidate list in place.
  The model is an array shuffle that picks any allowed index on each step.
- `ManagerSelectorByBlockId.sort_managers` is Python's stable `sorted(..., reverse=True)`, keyed on the
  manager's block id, where a missing block id is the empty string. The model is an insertion sort.
  It is proved to produce exactly the one list that
  - is a permutation of the input,
  - never increases in key (string order, not numeric order), and
  - keeps managers with equal keys in their input order.

**The PBS Pro provider.** This is the class that tracks the batch jobs ("blocks") parsl submits with `qsub` and
polls with `qstat` (module `PbsPro`, class `PbsProProvider`):

- The `resources` table maps job ids to job records. It is a Dafny `map` together with `jobOrder`, the
  insertion order of its keys. Python dicts keep insertion order, and `_status` relies on it when it
  resolves a reported id that is only a prefix of a known one.
- `_status` is a method over the table. Its result is tied to `StatusResult`, a pure description of the
  same loops (`ApplyReports`, `FillMissing`).
  - A failed query changes nothing.
  - A reported id is filed under the first known id, in key order, that starts with it.
  - The scheduler's state string is translated, and becomes `Unknown` when it is absent or has no entry in
    the table.
  - Every job that is not reported becomes `Completed`.
  - `KeyError` is raised for a coerced id that is not a key. `ValueError` is raised when two reports land on
    the same job; the status has already been written at that point.
  - It is proved that `_status` raises nothing exactly when every report lands on a distinct known id.
- `submit` is a method over the table.
  - `select_options` gets a leading colon unless it already has one.
  - The model builds the `qsub` command line.
  - A non-zero exit code raises `SubmitException` and leaves the table unchanged.
  - Otherwise every stripped, non-blank line of `qsub`'s output is filed as a PENDING job, and the last such
    line is returned.
- `status_polling_interval` is the constant 60.

Python string behaviour (`strip`, `split('\n')`, `startswith`, `<` on `str`) is written out in module
`PyStr`. `Option` is in module `Optional`.

Three behaviours of the code are worth noting:
- Ties between equal block ids keep their input order; they are not ordered by manager id.
- A manager whose block id is the empty string ties with a manager that has no block id. Only non-empty block ids
  are placed ahead of a missing one.
- `submit` does not stop at the first non-blank line. It registers every one and returns the last.

## Model

| member | source | states |
|---|---|---|
| ManagerSelector.BlockKey | parsl/executors/high_throughput/manager_selector.py:31-33 | The key is the block id when there is one and `""` otherwise; it is empty exactly when the block id is missing or empty |
| ManagerSelector.SortManagersByBlockId | parsl/executors/high_throughput/manager_selector.py:30-35 | The result is a permutation of the candidate list (same multiset, same length), and every entry is a ready manager |
| ManagerSelector.ByBlockIdNonIncreasing | parsl/executors/high_throughput/manager_selector.py:35 | With `reverse=True`, no key is smaller than a key that comes after it |
| ManagerSelector.ByBlockIdKeepsTieOrder | parsl/executors/high_throughput/manager_selector.py:35 | The sort is stable: for every key, the managers with that key appear in their input order |
| ManagerSelector.ByBlockIdCharacterised | parsl/executors/high_throughput/manager_selector.py:30-35 | A list of ready managers is the result exactly when it never increases in key and keeps the ties in input order |
| ManagerSelector.ByBlockIdNoneLast | parsl/executors/high_throughput/manager_selector.py:31-35 | A manager without a block id comes after every manager with a non-empty block id |
| ManagerSelector.ByBlockIdStringOrder | parsl/executors/high_throughput/manager_selector.py:31-35 | Block ids compare as strings: the manager of block "2" comes before the manager of block "10" |
| ManagerSelector.InsertNonIncreasing | parsl/executors/high_throughput/manager_selector.py:35 | Inserting one manager into a non-increasing list keeps it non-increasing |
| ManagerSelector.InsertWithKey | parsl/executors/high_throughput/manager_selector.py:35 | Inserting a manager puts it ahead of the managers with its own key and leaves every other group of ties alone |
| ManagerSelector.NonIncreasingUnique | parsl/executors/high_throughput/manager_selector.py:35 | Two non-increasing lists that order every group of ties alike are equal |
| ManagerSelector.SortManagersRandom | parsl/executors/high_throughput/manager_selector.py:19-22 | Shuffling a copy returns a list of the same length and the same multiset as the input, whichever index each step picks; the input array is not modified |
| PbsPro.WithState | parsl/providers/pbspro/pbspro.py:121-123 | The new status has the given state, and its stdout and stderr paths are the record's own stored paths. The record's id and stored paths do not change |
| PbsPro.FirstPrefixed | parsl/providers/pbspro/pbspro.py:113-117 | Gives the position of the first known id that starts with the reported id, or the length of the list when none does |
| PbsPro.Coerce | parsl/providers/pbspro/pbspro.py:112-117 | A reported id is replaced by a known id that starts with it, when there is one; otherwise it stays as it is, and then no known id starts with it |
| PbsPro.CoerceJobId | parsl/providers/pbspro/pbspro.py:113-117 | The loop with `break` computes exactly `Coerce` |
| PbsPro.CoercePrefersKeyOrder | parsl/providers/pbspro/pbspro.py:113-117 | Key order wins over an exact match: "7.pbs" is filed under an earlier known "7.pbs-a" |
| PbsPro.RemoveFirst | parsl/providers/pbspro/pbspro.py:124 | `list.remove` fails exactly when the item is absent; otherwise the list loses one element and gains none |
| PbsPro.RemoveFirstRemovesFirst | parsl/providers/pbspro/pbspro.py:124 | When the item is present, `list.remove` drops exactly one copy of it (multiset minus one), namely the first: the elements before it and after it stay, in order |
| PbsPro.RemoveFirstDistinct | parsl/providers/pbspro/pbspro.py:124 | On a list without repeats, `remove` leaves a list without repeats that holds every element except the one removed |
| PbsPro.ReportedState | parsl/providers/pbspro/pbspro.py:119-120 | A report without `job_state`, or with a state the table does not translate, gives `Unknown`; otherwise the state is the table's translation |
| PbsPro.ApplyReports | parsl/providers/pbspro/pbspro.py:111-124 | The loop over the reported jobs never adds or removes a key |
| PbsPro.ApplyFrame | parsl/providers/pbspro/pbspro.py:112-124 | The loop over the reports keeps every record's id and paths and only writes statuses that carry those paths. It only strikes ids off the missing list. It raises `KeyError` only for an id that is not a key, and `ValueError` only for one that is |
| PbsPro.ApplySucceedsIff | parsl/providers/pbspro/pbspro.py:112-124 | The reports go through without an exception exactly when each coerced id is still on the missing list and no two reports are coerced to the same id |
| PbsPro.ApplySuccess | parsl/providers/pbspro/pbspro.py:112-124 | After the reports go through, each coerced id's record carries the translated state. The missing list is the old one minus the coerced ids, without repeats. Records no report mentions are untouched |
| PbsPro.FillMissing | parsl/providers/pbspro/pbspro.py:128-131 | Every job still on the missing list gets a `Completed` status with its own paths; every other record is unchanged; the keys stay the same |
| PbsPro.StatusResult | parsl/providers/pbspro/pbspro.py:109-131 | After a successful `qstat`, the table keeps its keys. With no `Jobs` key nothing is raised. A `KeyError` names an id that is not a key, and a `ValueError` names one that is |
| PbsPro.StatusKeepsPaths | parsl/providers/pbspro/pbspro.py:84-131 | `_status` keeps every key and every record's stored paths |
| PbsPro.StatusValid | parsl/providers/pbspro/pbspro.py:84-131 | `_status` leaves the table keyed by the records' own ids and in step with the unchanged key order |
| PbsPro.StatusSucceedsIff | parsl/providers/pbspro/pbspro.py:109-131 | After a successful `qstat`, `_status` raises nothing exactly when every report is coerced to a known id and no two reports are coerced to the same id (always true when the reply has no `Jobs`) |
| PbsPro.StatusReportedStates | parsl/providers/pbspro/pbspro.py:112-123 | When `_status` raises nothing, each reported job's record gets the translated state (`Unknown` when the state is absent or has no translation) |
| PbsPro.StatusUnreportedCompleted | parsl/providers/pbspro/pbspro.py:126-131 | When `_status` raises nothing, every known job that no report is coerced to becomes `Completed`; with no `Jobs` key, that is every job |
| PbsPro.StatusExample | parsl/providers/pbspro/pbspro.py:111-131 | Two known jobs, one reported as "R": that job becomes `Running`, the other `Completed`, and nothing is raised |
| PbsPro.PbsProProvider.Status | parsl/providers/pbspro/pbspro.py:84-131 | A non-zero `qstat` exit code changes nothing and raises nothing. Otherwise the table and the exception are those of `StatusResult`. The key order, `select_options` and the script directory do not change, and the table invariant holds afterwards |
| PbsPro.PbsProProvider.MarkCompleted | parsl/providers/pbspro/pbspro.py:128-131 | The loop over `jobs_missing` leaves the table `FillMissing` describes |
| PbsPro.NormaliseSelectOptions | parsl/providers/pbspro/pbspro.py:176-178 | Empty options stay empty. Options that start with `:` are unchanged. Any other options get a `:` in front |
| PbsPro.NormaliseIdempotent | parsl/providers/pbspro/pbspro.py:176-178 | Normalising twice gives the same as normalising once |
| PbsPro.SubmitOptions | parsl/providers/pbspro/pbspro.py:190-194 | The options are empty exactly when neither queue nor account is set. ` -q <queue>` comes first when a queue is set, and ` -A <account>` comes last when an account is set. The length is the sum of those two parts |
| PbsPro.LaunchCommand | parsl/providers/pbspro/pbspro.py:196 | The command is `qsub `, the options, a space and the script path: the options sit at positions 5 onward, and the script path is the tail |
| PbsPro.LaunchCommandShape | parsl/providers/pbspro/pbspro.py:190-196 | The command starts with `qsub ` and ends with a space and the script path. ` -q <queue>` comes first when a queue is set, and ` -A <account>` comes just before the script when an account is set. With neither, the command is `qsub`, two spaces and the path |
| PbsPro.FailureMessage | parsl/providers/pbspro/pbspro.py:210 | The message is the failed command with 16 characters of text before it and 8 after it, so the command can be read back out of the message |
| PbsPro.NonBlank | parsl/providers/pbspro/pbspro.py:201-203 | There are at most as many job ids as output lines |
| PbsPro.NonBlankAppend | parsl/providers/pbspro/pbspro.py:201-203 | The lines are read in order: the ids of two runs of lines are the ids of the first run followed by the ids of the second |
| PbsPro.NonBlankSingle | parsl/providers/pbspro/pbspro.py:202-203 | One line gives its strip as an id when that is non-empty, and no id otherwise |
| PbsPro.NonBlankHas | parsl/providers/pbspro/pbspro.py:201-203 | The line at any index whose strip is non-empty gives a registered id |
| PbsPro.NonBlankComplete | parsl/providers/pbspro/pbspro.py:201-203 | Every line whose strip is non-empty gives a registered id; no `break` stops the loop early |
| PbsPro.NonBlankSound | parsl/providers/pbspro/pbspro.py:201-203 | Every registered id is the strip of some output line |
| PbsPro.NonBlankStripped | parsl/providers/pbspro/pbspro.py:201-203 | Every registered job id is non-empty and neither starts nor ends with whitespace |
| PbsPro.SubmittedOneId | parsl/providers/pbspro/pbspro.py:199-203 | When `qsub` prints one trimmed id and a newline, that id is the only one registered |
| PbsPro.RegisteredContents | parsl/providers/pbspro/pbspro.py:201-208 | After the loop, every submitted id is a key holding a fresh PENDING record with the chosen paths. The other keys keep their records, and no other key appears |
| PbsPro.AppendNewContents | parsl/providers/pbspro/pbspro.py:201-208 | The dict's key order lists each key once: the old order unchanged in front, then the newly submitted ids |
| PbsPro.SubmitKeepsTable | parsl/providers/pbspro/pbspro.py:201-208 | `submit` keeps the key order in step with the keys, and every record filed under its own id |
| PbsPro.SubmitKeyAgrees | parsl/providers/pbspro/pbspro.py:201-208 | After the loop, an id is a key exactly when it is in the new key order |
| PbsPro.FileAllRegisters | parsl/providers/pbspro/pbspro.py:199-208 | Filing the ids one line at a time gives the table of `Registered`, the key order of `AppendNew`, and the last id as the returned one |
| PbsPro.RegisterLines | parsl/providers/pbspro/pbspro.py:199-208 | The loop over `qsub`'s output lines computes the table of `Registered`, the key order of `AppendNew`, and the last non-blank stripped line (`None` if there is none) |
| PbsPro.PbsProProvider.RegisterSubmitted | parsl/providers/pbspro/pbspro.py:199-208 | After a successful `qsub`, the provider's table and key order become those of `RegisterLines`, and the last job id is returned |
| PbsPro.PbsProProvider.Submit | parsl/providers/pbspro/pbspro.py:153-224 | An unset script directory fails before any change. Otherwise `select_options` is normalised. A non-zero exit code raises `SubmitException` with the failed command in its message and leaves the table alone. With exit code 0, every non-blank line is registered as pending at `<script>.stdout`/`.stderr` and the last one is returned. The table invariant holds throughout |
| PbsPro.PbsProProvider.constructor | parsl/providers/pbspro/pbspro.py:51-82 | A new provider has an empty table, the given queue, account and `select_options`, and no script directory |
| PyStr.Strip | parsl/providers/pbspro/pbspro.py:202-203 | `strip()` removes exactly the leading and trailing whitespace: the result is a slice of the input, whitespace lies on both sides of it, and it neither starts nor ends with whitespace |
| PyStr.Split | parsl/providers/pbspro/pbspro.py:201 | `split('\n')` gives at least one piece, no piece holds a newline, and joining the pieces with newlines gives the input back |
| PyStr.BelowLexicographic | parsl/executors/high_throughput/manager_selector.py:35 | The `<` that `sorted` uses on the string keys is the lexicographic order: either `a` is a proper prefix of `b`, or at the first difference `a` has the smaller character |
| PyStr.SplitJoin | parsl/providers/pbspro/pbspro.py:201 | Splitting undoes joining when no piece holds the separator |

## Left out

- Running `qstat` and `qsub` (`execute_wait`) is left out, as is the command timeout. Their exit code and output are parameters.
- `json.loads` is left out, and so is a reply that is not valid JSON. The decoded `Jobs` entries are a parameter, and `None` stands for a reply without `Jobs`.
- The Torque translate table (`parsl/providers/torque/torque.py`) is not part of this model. It is an arbitrary function from state strings to optional states.
- `_write_submit_script`, the template, the launcher and the `job_config` dictionary are left out. They only write the script file and do not touch the job table.
- `command` and `tasks_per_node` only reach the script. `time.time()` in the job name, `os.path.join`/`abspath` and logging are left out. `Submit` takes the final job name and script path as parameters.
- `ManagerSelectorRandom`'s distribution is not modelled. The result may be any permutation that the swap sequence can produce.
- `ManagerSelectorBase.sort_managers` only raises `NotImplementedError`. It is left out.
- Only the `block_id` field of a manager record is modelled. The record's other fields are not read by the selectors.
- `SortManagersByBlockId` requires every candidate to be a key of the ready-manager table. The code would raise `KeyError` otherwise, and its callers never pass such a candidate.
- The inner job dicts of `resources` are modelled as immutable records. The code assigns `['status']` inside a shared dict, which is the same as replacing the record because no other reference to the inner dict exists.
- PbsPro.PbsProProvider.RegisterSubmitted: the loop works on local copies of the table and its key order, and writes them back once at the end. The code assigns `self.resources` line by line. The two agree because nothing can raise inside the loop.
- The constructor's scheduling parameters are left out: nodes per block, CPUs per node, the block counts, parallelism, walltime, scheduler options and worker init. They only reach the script or the base class.
