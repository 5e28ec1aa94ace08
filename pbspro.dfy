/**
  The block-job bookkeeping of the PBS Pro execution provider: the `resources` table
  from job id to job record, filled by `submit` from the output of `qsub` and refreshed
  by `_status` from the parsed output of `qstat -f -F json`.

  The external commands are not run here: their exit code and output are parameters.
  The JSON reply of `qstat` arrives already decoded, as the entries of its `Jobs`
  object (`None` when the reply has no `Jobs` key), and the scheduler's table from
  state letters to job states is an arbitrary total function.
 */
module PbsPro {
  import opened Optional
  import opened PyStr

  /** The scheduler-independent job states. */
  datatype JobState = Pending | Running | Completed | Failed | Cancelled | Timeout | Unknown

  /** A status snapshot; the paths are absent in the status a fresh submission records. */
  datatype JobStatus = JobStatus(state: JobState, stdoutPath: Option<string>, stderrPath: Option<string>)

  /** One value of `resources`: `{'job_id', 'status', 'job_stdout_path', 'job_stderr_path'}`. */
  datatype JobRecord = JobRecord(jobId: string, status: JobStatus, jobStdoutPath: string, jobStderrPath: string)

  type Resources = map<string, JobRecord>

  /** One entry of the `Jobs` object of `qstat`'s reply: the id it reports and its `job_state`, if any. */
  datatype Report = Report(jobId: string, jobState: Option<string>)

  /** The scheduler's translation of state strings; `None` where it has no entry. */
  type TranslateTable = string -> Option<JobState>

  /** The exceptions `_status` can let escape. */
  datatype PyError = KeyError(key: string) | ValueError(item: string)

  datatype SubmitError =
    | ScriptDirUnset   // `assert self.script_dir` failed
    | SubmitException(jobName: string, message: string, stdout: string, stderr: string)

  datatype SubmitOutcome = Submitted(jobId: Option<string>) | Raised(error: SubmitError)

  predicate Distinct(s: seq<string>) {
    forall i, j :: 0 <= i < j < |s| ==> s[i] != s[j]
  }

  /** `order` lists the keys of `res` once each: the key order of a Python dict. */
  ghost predicate Table(res: Resources, order: seq<string>) {
    Distinct(order) && forall k :: k in order <==> k in res
  }

  /** Every record is filed under its own job id. */
  predicate Keyed(res: Resources) {
    forall k :: k in res ==> res[k].jobId == k
  }

  /** `b` is `a` with at most its status replaced by one that carries `a`'s stored paths. */
  predicate KeepsPaths(b: JobRecord, a: JobRecord) {
    && b.jobId == a.jobId && b.jobStdoutPath == a.jobStdoutPath && b.jobStderrPath == a.jobStderrPath
    && (b.status == a.status || b.status == JobStatus(b.status.state, Some(a.jobStdoutPath), Some(a.jobStderrPath)))
  }

  /** The record with a new status of state `state`, carrying the record's own paths. */
  function WithState(rec: JobRecord, state: JobState): (r: JobRecord)
    ensures KeepsPaths(r, rec) && r.status.state == state
    ensures r.jobId == rec.jobId && r.jobStdoutPath == rec.jobStdoutPath && r.jobStderrPath == rec.jobStderrPath
    ensures r.status.stdoutPath == Some(rec.jobStdoutPath) && r.status.stderrPath == Some(rec.jobStderrPath)
  {
    rec.(status := JobStatus(state, Some(rec.jobStdoutPath), Some(rec.jobStderrPath)))
  }

  // ---------------------------------------------------------------- _status, as functions

  /** The position of the first known id that starts with `reported`, or `|known|` if none does. */
  function FirstPrefixed(known: seq<string>, reported: string): (i: nat)
    ensures i <= |known|
    ensures i < |known| ==> StartsWith(known[i], reported)
    ensures forall j :: 0 <= j < i ==> !StartsWith(known[j], reported)
  {
    if known == [] then 0
    else if StartsWith(known[0], reported) then 0
    else 1 + FirstPrefixed(known[1..], reported)
  }

  /**
    The id a reported job is filed under: the first known id (in key order) that starts
    with the reported one, or the reported id itself when no known id does.
   */
  function Coerce(known: seq<string>, reported: string): (id: string)
    ensures id in known ==> StartsWith(id, reported)
    ensures id !in known ==> id == reported && forall k :: k in known ==> !StartsWith(k, reported)
  {
    var i := FirstPrefixed(known, reported);
    if i < |known| then known[i] else reported
  }

  /** The ids the reports are filed under, report by report. */
  function CoercedIds(known: seq<string>, reports: seq<Report>): (ids: seq<string>)
    ensures |ids| == |reports|
    ensures forall i :: 0 <= i < |reports| ==> ids[i] == Coerce(known, reports[i].jobId)
  {
    if reports == [] then [] else [Coerce(known, reports[0].jobId)] + CoercedIds(known, reports[1..])
  }

  /** `translate_table.get(job.get('job_state', UNKNOWN), UNKNOWN)` */
  function ReportedState(jobState: Option<string>, table: TranslateTable): (state: JobState)
    ensures jobState.None? ==> state == Unknown
    ensures jobState.Some? && table(jobState.value).Some? ==> state == table(jobState.value).value
    ensures jobState.Some? && table(jobState.value).None? ==> state == Unknown
  {
    match jobState
    case None => Unknown
    case Some(s) => table(s).GetOr(Unknown)
  }

  /** The position of the first `x` in `s`, or `|s|`. */
  function IndexOf(s: seq<string>, x: string): (i: nat)
    ensures i <= |s| && (i < |s| ==> s[i] == x)
    ensures forall j :: 0 <= j < i ==> s[j] != x
  {
    if s == [] then 0 else if s[0] == x then 0 else 1 + IndexOf(s[1..], x)
  }

  /** `list.remove(x)`: `None` stands for the `ValueError` raised when `x` is absent. */
  function RemoveFirst(s: seq<string>, x: string): (r: Option<seq<string>>)
    ensures r.None? <==> x !in s
    ensures r.Some? ==> |r.value| == |s| - 1 && forall y :: y in r.value ==> y in s
  {
    var i := IndexOf(s, x);
    if i < |s| then
      assert s == s[..i] + [s[i]] + s[i + 1..];
      Some(s[..i] + s[i + 1..])
    else None
  }

  /** `list.remove(x)` drops exactly one `x`, the first, and keeps everything else in order. */
  lemma RemoveFirstRemovesFirst(s: seq<string>, x: string)
    requires x in s
    ensures RemoveFirst(s, x).Some?
    ensures multiset(RemoveFirst(s, x).value) == multiset(s) - multiset{x}
    ensures exists i :: 0 <= i < |s| && s[i] == x && x !in s[..i] && RemoveFirst(s, x).value == s[..i] + s[i + 1..]
  {
    var i := IndexOf(s, x);
    assert s == s[..i] + [s[i]] + s[i + 1..];
    assert x !in s[..i];
  }

  lemma DropAt(s: seq<string>, i: nat, k: nat)
    requires i < |s| && k < |s| - 1
    ensures (s[..i] + s[i + 1..])[k] == s[if k < i then k else k + 1]
  {
  }

  lemma RemoveFirstDistinct(s: seq<string>, x: string)
    requires Distinct(s) && x in s
    ensures Distinct(RemoveFirst(s, x).value)
    ensures forall y :: y in RemoveFirst(s, x).value <==> y in s && y != x
  {
    var r := RemoveFirst(s, x).value;
    var i := IndexOf(s, x);
    assert r == s[..i] + s[i + 1..];
    forall a, b | 0 <= a < b < |r|
      ensures r[a] != r[b]
    {
      DropAt(s, i, a);
      DropAt(s, i, b);
    }
    forall y | y in r
      ensures y != x
    {
      var j :| 0 <= j < |r| && r[j] == y;
      DropAt(s, i, j);
    }
    forall y | y in s && y != x
      ensures y in r
    {
      var j :| 0 <= j < |s| && s[j] == y;
      assert j != i;
      if j < i { DropAt(s, i, j); } else { DropAt(s, i, j - 1); }
    }
  }

  /** Where the loop over the reports stands: the table, the ids still missing, an escaped exception. */
  datatype Progress = Progress(resources: Resources, missing: seq<string>, raised: Option<PyError>)

  /**
    The loop over the `Jobs` entries: coerce the id, write the translated status into
    that record, strike the id off the missing list. A coerced id that is not a key
    raises `KeyError` before anything is written; one already struck off raises
    `ValueError` after its status has been written.
   */
  function ApplyReports(res: Resources, known: seq<string>, missing: seq<string>,
                        reports: seq<Report>, table: TranslateTable): (p: Progress)
    ensures p.resources.Keys == res.Keys
  {
    if reports == [] then Progress(res, missing, None)
    else
      var id := Coerce(known, reports[0].jobId);
      if id !in res then Progress(res, missing, Some(KeyError(id)))
      else
        var res' := res[id := WithState(res[id], ReportedState(reports[0].jobState, table))];
        match RemoveFirst(missing, id)
        case None => Progress(res', missing, Some(ValueError(id)))
        case Some(rest) => ApplyReports(res', known, rest, reports[1..], table)
  }

  /**
    The loop over the reports keeps every key and every stored path, only strikes ids
    off the missing list, raises `KeyError` only for an id that is not a key and
    `ValueError` only for one that is.
   */
  lemma {:induction false} ApplyFrame(res: Resources, known: seq<string>, missing: seq<string>,
                                      reports: seq<Report>, table: TranslateTable)
    ensures forall k :: k in res ==> KeepsPaths(ApplyReports(res, known, missing, reports, table).resources[k], res[k])
    ensures forall k :: k in ApplyReports(res, known, missing, reports, table).missing ==> k in missing
    ensures var p := ApplyReports(res, known, missing, reports, table);
      && (p.raised.Some? && p.raised.value.KeyError? ==> p.raised.value.key !in res)
      && (p.raised.Some? && p.raised.value.ValueError? ==> p.raised.value.item in res)
  {
    if reports != [] {
      var id := Coerce(known, reports[0].jobId);
      if id in res {
        var res' := res[id := WithState(res[id], ReportedState(reports[0].jobState, table))];
        var r := RemoveFirst(missing, id);
        if r.Some? {
          ApplyFrame(res', known, r.value, reports[1..], table);
        }
      }
    }
  }

  /** The loop over `jobs_missing`: every id still listed gets a `Completed` status. */
  function FillMissing(res: Resources, missing: seq<string>): (r: Resources)
    requires forall k :: k in missing ==> k in res
    ensures r.Keys == res.Keys
    ensures forall k :: k in res ==> r[k] == if k in missing then WithState(res[k], Completed) else res[k]
  {
    if missing == [] then res
    else FillMissing(res[missing[0] := WithState(res[missing[0]], Completed)], missing[1..])
  }

  /** One turn of the `jobs_missing` loop. */
  lemma FillMissingStep(res: Resources, missing: seq<string>, m: nat)
    requires m < |missing| && forall k :: k in missing ==> k in res
    ensures FillMissing(res, missing[m..])
         == FillMissing(res[missing[m] := WithState(res[missing[m]], Completed)], missing[m + 1..])
  {
    assert missing[m..][0] == missing[m] && missing[m..][1..] == missing[m + 1..];
  }

  /**
    The table `_status` leaves after a successful `qstat` (exit code 0), and the
    exception it raises, if any; `jobs` is `None` when the reply has no `Jobs` key.
   */
  function StatusResult(res: Resources, known: seq<string>, jobs: Option<seq<Report>>,
                        table: TranslateTable): (r: (Resources, Option<PyError>))
    requires forall k :: k in known ==> k in res
    ensures r.0.Keys == res.Keys
    ensures jobs.None? ==> r.1 == None
    ensures r.1.Some? && r.1.value.KeyError? ==> r.1.value.key !in res
    ensures r.1.Some? && r.1.value.ValueError? ==> r.1.value.item in res
  {
    match jobs
    case None => (FillMissing(res, known), None)
    case Some(reports) =>
      var p := ApplyReports(res, known, known, reports, table);
      ApplyFrame(res, known, known, reports, table);
      if p.raised.Some? then (p.resources, p.raised) else (FillMissing(p.resources, p.missing), None)
  }

  // ---------------------------------------------------------------- _status, its properties

  /** Every id of `ids` is one of `targets`, and no id comes twice. */
  predicate FiledOnce(ids: seq<string>, targets: seq<string>) {
    (forall i :: 0 <= i < |ids| ==> ids[i] in targets) && Distinct(ids)
  }

  lemma FiledOnceCons(id: string, tail: seq<string>, targets: seq<string>)
    ensures FiledOnce([id] + tail, targets) <==> id in targets && id !in tail && FiledOnce(tail, targets)
  {
    var ids := [id] + tail;
    assert forall i :: 0 < i < |ids| ==> ids[i] == tail[i - 1];
    if id in targets && id !in tail && FiledOnce(tail, targets) {
      forall i, j | 0 <= i < j < |ids|
        ensures ids[i] != ids[j]
      {
        if i > 0 { assert ids[i] == tail[i - 1] && ids[j] == tail[j - 1]; }
      }
    }
    if FiledOnce(ids, targets) {
      assert ids[0] == id;
      forall i, j | 0 <= i < j < |tail|
        ensures tail[i] != tail[j]
      {
        assert ids[i + 1] == tail[i] && ids[j + 1] == tail[j];
      }
      forall i | 0 <= i < |tail|
        ensures tail[i] != id && tail[i] in targets
      {
        assert ids[i + 1] == tail[i];
      }
    }
  }

  /** The reports go through exactly when each is filed under a still-missing id, no id twice. */
  lemma {:induction false} ApplySucceedsIff(res: Resources, known: seq<string>, missing: seq<string>,
                                            reports: seq<Report>, table: TranslateTable)
    requires Distinct(missing) && forall k :: k in missing ==> k in res
    ensures ApplyReports(res, known, missing, reports, table).raised == None
      <==> FiledOnce(CoercedIds(known, reports), missing)
  {
    if reports != [] {
      var id := Coerce(known, reports[0].jobId);
      var tail := CoercedIds(known, reports[1..]);
      assert CoercedIds(known, reports) == [id] + tail;
      FiledOnceCons(id, tail, missing);
      if id in missing {
        var res' := res[id := WithState(res[id], ReportedState(reports[0].jobState, table))];
        var rest := RemoveFirst(missing, id).value;
        RemoveFirstDistinct(missing, id);
        ApplySucceedsIff(res', known, rest, reports[1..], table);
        assert FiledOnce(tail, rest) <==> id !in tail && FiledOnce(tail, missing) by {
          if FiledOnce(tail, rest) {
            assert forall i :: 0 <= i < |tail| ==> tail[i] in rest;
          }
        }
      }
    }
  }

  /** After the reports went through: what each record became and which ids are still missing. */
  lemma {:induction false} ApplySuccess(res: Resources, known: seq<string>, missing: seq<string>,
                                        reports: seq<Report>, table: TranslateTable)
    requires Distinct(missing) && forall k :: k in missing ==> k in res
    requires ApplyReports(res, known, missing, reports, table).raised == None
    ensures Distinct(ApplyReports(res, known, missing, reports, table).missing)
    ensures forall k :: k in ApplyReports(res, known, missing, reports, table).missing
                    <==> k in missing && k !in CoercedIds(known, reports)
    ensures forall i :: 0 <= i < |reports| ==>
              && CoercedIds(known, reports)[i] in res
              && ApplyReports(res, known, missing, reports, table).resources[CoercedIds(known, reports)[i]]
                 == WithState(res[CoercedIds(known, reports)[i]], ReportedState(reports[i].jobState, table))
    ensures forall k :: k in res && k !in CoercedIds(known, reports) ==>
              ApplyReports(res, known, missing, reports, table).resources[k] == res[k]
  {
    var p := ApplyReports(res, known, missing, reports, table);
    var ids := CoercedIds(known, reports);
    if reports != [] {
      var id := Coerce(known, reports[0].jobId);
      var tail := CoercedIds(known, reports[1..]);
      assert ids == [id] + tail;
      ApplySucceedsIff(res, known, missing, reports, table);
      var res' := res[id := WithState(res[id], ReportedState(reports[0].jobState, table))];
      var rest := RemoveFirst(missing, id).value;
      RemoveFirstDistinct(missing, id);
      ApplySuccess(res', known, rest, reports[1..], table);
      assert p == ApplyReports(res', known, rest, reports[1..], table);
      forall i | 0 <= i < |ids|
        ensures ids[i] in res && p.resources[ids[i]] == WithState(res[ids[i]], ReportedState(reports[i].jobState, table))
      {
        if i > 0 {
          assert ids[i] == tail[i - 1] && reports[i] == reports[1..][i - 1];
          assert ids[i] != id;
        } else {
          assert id !in tail;
        }
      }
    }
  }

  /** `_status` keeps every key and every stored path; a status it writes carries those paths. */
  lemma StatusKeepsPaths(res: Resources, known: seq<string>, jobs: Option<seq<Report>>, table: TranslateTable)
    requires Table(res, known)
    ensures StatusResult(res, known, jobs, table).0.Keys == res.Keys
    ensures forall k :: k in res ==> KeepsPaths(StatusResult(res, known, jobs, table).0[k], res[k])
  {
    if jobs.Some? {
      ApplyFrame(res, known, known, jobs.value, table);
    }
  }

  /** The table `_status` leaves is still keyed by the records' own ids, in the same key order. */
  lemma StatusValid(res: Resources, known: seq<string>, jobs: Option<seq<Report>>, table: TranslateTable)
    requires Table(res, known) && Keyed(res)
    ensures Table(StatusResult(res, known, jobs, table).0, known)
    ensures Keyed(StatusResult(res, known, jobs, table).0)
  {
    StatusKeepsPaths(res, known, jobs, table);
  }

  /**
    A successful `qstat` leaves `_status` raising nothing exactly when every reported id
    is filed under a known id and no two reports are filed under the same one.
   */
  lemma StatusSucceedsIff(res: Resources, known: seq<string>, jobs: Option<seq<Report>>, table: TranslateTable)
    requires Table(res, known)
    ensures StatusResult(res, known, jobs, table).1 == None
      <==> FiledOnce(if jobs.Some? then CoercedIds(known, jobs.value) else [], known)
  {
    if jobs.Some? {
      ApplySucceedsIff(res, known, known, jobs.value, table);
    }
  }

  /** Each reported job gets the translated state (`Unknown` when untranslatable or absent). */
  lemma StatusReportedStates(res: Resources, known: seq<string>, reports: seq<Report>, table: TranslateTable)
    requires Table(res, known)
    requires StatusResult(res, known, Some(reports), table).1 == None
    ensures forall i :: 0 <= i < |reports| ==>
              && Coerce(known, reports[i].jobId) in res
              && StatusResult(res, known, Some(reports), table).0[Coerce(known, reports[i].jobId)]
                 == WithState(res[Coerce(known, reports[i].jobId)], ReportedState(reports[i].jobState, table))
  {
    var ids := CoercedIds(known, reports);
    ApplySucceedsIff(res, known, known, reports, table);
    ApplySuccess(res, known, known, reports, table);
    assert forall i :: 0 <= i < |reports| ==> ids[i] == Coerce(known, reports[i].jobId);
  }

  /**
    Every known job that no report is filed under becomes `Completed`: all of them when
    the reply has no `Jobs` key.
   */
  lemma StatusUnreportedCompleted(res: Resources, known: seq<string>, jobs: Option<seq<Report>>,
                                  table: TranslateTable, k: string)
    requires Table(res, known) && k in res
    requires StatusResult(res, known, jobs, table).1 == None
    requires jobs.Some? ==> forall i :: 0 <= i < |jobs.value| ==> Coerce(known, jobs.value[i].jobId) != k
    ensures StatusResult(res, known, jobs, table).0[k] == WithState(res[k], Completed)
  {
    if jobs.Some? {
      var ids := CoercedIds(known, jobs.value);
      ApplySuccess(res, known, known, jobs.value, table);
      assert k !in ids;
    }
  }

  /**
    Known ids J1 and J2; `qstat` reports only J1, as running: J1 becomes `Running`
    and J2 `Completed`.
   */
  lemma StatusExample(j1: JobRecord, j2: JobRecord, table: TranslateTable)
    requires table("R") == Some(Running)
    ensures var res := map["1.pbs" := j1, "2.pbs" := j2];
      var (r, raised) := StatusResult(res, ["1.pbs", "2.pbs"], Some([Report("1.pbs", Some("R"))]), table);
      raised == None && r["1.pbs"].status.state == Running && r["2.pbs"].status.state == Completed
  {
    var res := map["1.pbs" := j1, "2.pbs" := j2];
    var known := ["1.pbs", "2.pbs"];
    var reports := [Report("1.pbs", Some("R"))];
    assert StartsWith("1.pbs", "1.pbs");
    assert Coerce(known, "1.pbs") == "1.pbs";
    assert Table(res, known);
    StatusSucceedsIff(res, known, Some(reports), table);
    StatusReportedStates(res, known, reports, table);
    assert !StartsWith("2.pbs", "1.pbs") by { assert "2.pbs"[0] != "1.pbs"[0]; }
    StatusUnreportedCompleted(res, known, Some(reports), table, "2.pbs");
  }

  /**
    Coercion prefers key order over an exact match: a reported id equal to a known id
    is still filed under an earlier known id that merely starts with it.
   */
  lemma CoercePrefersKeyOrder()
    ensures Coerce(["7.pbs-a", "7.pbs"], "7.pbs") == "7.pbs-a"
  {
    assert StartsWith("7.pbs-a", "7.pbs");
  }

  // ---------------------------------------------------------------- submit, as functions

  /** The `select_options` normalisation: a colon is put in front unless one is there already. */
  function NormaliseSelectOptions(s: string): (r: string)
    ensures r == [] <==> s == []
    ensures r != [] ==> r[0] == ':'
    ensures s == [] || s[0] == ':' ==> r == s
    ensures s != [] && s[0] != ':' ==> r == ":" + s
  {
    if s != [] && !StartsWith(s, ":") then ":" + s else s
  }

  /** Normalising twice is normalising once. */
  lemma NormaliseIdempotent(s: string)
    ensures NormaliseSelectOptions(NormaliseSelectOptions(s)) == NormaliseSelectOptions(s)
  {
  }

  /** `submit_options`: ` -q <queue>` and ` -A <account>`, each when set. */
  function SubmitOptions(queue: Option<string>, account: Option<string>): (opts: string)
    ensures opts == [] <==> queue.None? && account.None?
    ensures queue.Some? ==> StartsWith(opts, " -q " + queue.value)
    ensures account.Some? ==> EndsWith(opts, " -A " + account.value)
    ensures |opts| == (if queue.Some? then 4 + |queue.value| else 0) + (if account.Some? then 4 + |account.value| else 0)
  {
    (if queue.Some? then " -q " + queue.value else "") + (if account.Some? then " -A " + account.value else "")
  }

  /** `"qsub {0} {1}".format(submit_options, script_path)` */
  function LaunchCommand(queue: Option<string>, account: Option<string>, scriptPath: string): (cmd: string)
    ensures |cmd| == 6 + |SubmitOptions(queue, account)| + |scriptPath|
    ensures cmd[5..5 + |SubmitOptions(queue, account)|] == SubmitOptions(queue, account)
    ensures cmd[|cmd| - |scriptPath|..] == scriptPath
  {
    var cmd := "qsub " + SubmitOptions(queue, account) + " " + scriptPath;
    assert cmd[|cmd| - |scriptPath|..] == scriptPath;
    cmd
  }

  /**
    The command is `qsub`, then the queue option when a queue is set, the account option
    when an account is set (just before the script), and the script path last.
   */
  lemma LaunchCommandShape(queue: Option<string>, account: Option<string>, scriptPath: string)
    ensures var cmd := LaunchCommand(queue, account, scriptPath);
      && StartsWith(cmd, "qsub ") && EndsWith(cmd, " " + scriptPath)
      && (queue.Some? ==> StartsWith(cmd, "qsub  -q " + queue.value))
      && (account.Some? ==> EndsWith(cmd, " -A " + account.value + " " + scriptPath))
      && (queue.None? && account.None? ==> cmd == "qsub  " + scriptPath)
  {
    var cmd := LaunchCommand(queue, account, scriptPath);
    assert cmd[|cmd| - |" " + scriptPath|..] == " " + scriptPath;
    if account.Some? {
      var tail := " -A " + account.value + " " + scriptPath;
      assert cmd[|cmd| - |tail|..] == tail;
    }
    if queue.Some? {
      assert cmd[..|"qsub  -q " + queue.value|] == "qsub  -q " + queue.value;
    }
  }

  /** The message of the `SubmitException` raised when `qsub` fails. */
  function FailureMessage(launchCmd: string): (message: string)
    ensures |message| == |launchCmd| + 24 && message[16..16 + |launchCmd|] == launchCmd
  {
    var message := "Submit command '" + launchCmd + "' failed";
    assert message[16..16 + |launchCmd|] == launchCmd;
    message
  }

  /** The stripped, non-blank lines, in order. */
  function NonBlank(lines: seq<string>): (ids: seq<string>)
    ensures |ids| <= |lines|
  {
    if lines == [] then []
    else
      var last := Strip(lines[|lines| - 1]);
      NonBlank(lines[..|lines| - 1]) + (if last != [] then [last] else [])
  }

  /** Non-empty, and neither begins nor ends with whitespace: what `strip()` leaves of a non-blank line. */
  predicate Trimmed(s: string) {
    s != [] && !IsSpace(s[0]) && !IsSpace(s[|s| - 1])
  }

  /** Each registered id is stripped and non-blank. */
  lemma {:induction false} NonBlankStripped(lines: seq<string>)
    ensures forall i :: 0 <= i < |NonBlank(lines)| ==> Trimmed(NonBlank(lines)[i])
  {
    if lines != [] {
      var init := NonBlank(lines[..|lines| - 1]);
      var last := Strip(lines[|lines| - 1]);
      NonBlankStripped(lines[..|lines| - 1]);
      if last != [] {
        assert Trimmed(last);
        var ids := NonBlank(lines);
        assert ids == init + [last];
        forall i | 0 <= i < |ids|
          ensures Trimmed(ids[i])
        {
          if i < |init| { assert ids[i] == init[i]; } else { assert ids[i] == last; }
        }
      }
    }
  }

  /** Reading two runs of lines one after the other registers the ids of each, in order. */
  lemma {:induction false} NonBlankAppend(a: seq<string>, b: seq<string>)
    ensures NonBlank(a + b) == NonBlank(a) + NonBlank(b)
  {
    if b == [] {
      assert a + b == a;
    } else {
      var init, last := b[..|b| - 1], Strip(b[|b| - 1]);
      var tail := if last != [] then [last] else [];
      assert (a + b)[..|a + b| - 1] == a + init;
      assert (a + b)[|a + b| - 1] == b[|b| - 1];
      assert NonBlank(a + b) == NonBlank(a + init) + tail;
      assert NonBlank(b) == NonBlank(init) + tail;
      NonBlankAppend(a, init);
      AppendAssoc(NonBlank(a), NonBlank(init), tail);
    }
  }

  /** A single line registers its strip when that is non-empty, and nothing otherwise. */
  lemma NonBlankSingle(line: string)
    ensures NonBlank([line]) == if Strip(line) != [] then [Strip(line)] else []
  {
    assert [line][..0] == [];
  }

  /** Concatenation is associative. */
  lemma AppendAssoc<T>(x: seq<T>, y: seq<T>, z: seq<T>)
    ensures (x + y) + z == x + (y + z)
  {
  }

  /** A sequence is what comes before `i`, the element at `i`, and what comes after. */
  lemma SplitAt<T>(s: seq<T>, i: nat)
    requires i < |s|
    ensures s == s[..i] + [s[i]] + s[i + 1..]
  {
  }

  /** The line at `i`, when its strip is non-empty, is registered. */
  lemma NonBlankHas(lines: seq<string>, i: nat)
    requires i < |lines| && Strip(lines[i]) != []
    ensures Strip(lines[i]) in NonBlank(lines)
  {
    var before, line, after := lines[..i], lines[i], lines[i + 1..];
    SplitAt(lines, i);
    NonBlankAppend(before + [line], after);
    NonBlankAppend(before, [line]);
    NonBlankSingle(line);
    var ids := NonBlank(before);
    assert NonBlank(lines) == ids + [Strip(line)] + NonBlank(after);
    assert NonBlank(lines)[|ids|] == Strip(line);
  }

  /** Every line whose strip is non-empty is registered. */
  lemma NonBlankComplete(lines: seq<string>)
    ensures forall i :: 0 <= i < |lines| && Strip(lines[i]) != [] ==> Strip(lines[i]) in NonBlank(lines)
  {
    forall i | 0 <= i < |lines| && Strip(lines[i]) != []
      ensures Strip(lines[i]) in NonBlank(lines)
    {
      NonBlankHas(lines, i);
    }
  }

  /** Every registered id is the strip of one of the lines. */
  lemma {:induction false} NonBlankSound(lines: seq<string>)
    ensures forall id :: id in NonBlank(lines) ==> exists i :: 0 <= i < |lines| && id == Strip(lines[i])
  {
    if lines != [] {
      var init := lines[..|lines| - 1];
      NonBlankSound(init);
      forall id | id in NonBlank(lines)
        ensures exists i :: 0 <= i < |lines| && id == Strip(lines[i])
      {
        if id in NonBlank(init) {
          var i :| 0 <= i < |init| && id == Strip(init[i]);
          assert lines[i] == init[i];
        } else {
          assert id == Strip(lines[|lines| - 1]);
        }
      }
    }
  }

  /** The ids `submit` registers: the stripped non-blank lines of `qsub`'s output. */
  function SubmittedIds(stdout: string): seq<string> {
    NonBlank(Split(stdout, '\n'))
  }

  /** The id `submit` returns: the last one it registered, if any. */
  function LastId(ids: seq<string>): Option<string> {
    if ids == [] then None else Some(ids[|ids| - 1])
  }

  /** The record `submit` files for a new job: pending, and the paths chosen before submission. */
  function PendingRecord(id: string, stdoutPath: string, stderrPath: string): JobRecord {
    JobRecord(id, JobStatus(Pending, None, None), stdoutPath, stderrPath)
  }

  /** `res` after `resources[id] = {...}` for each id of `ids` in turn. */
  function Registered(res: Resources, ids: seq<string>, stdoutPath: string, stderrPath: string): Resources {
    if ids == [] then res
    else
      var last := ids[|ids| - 1];
      Registered(res, ids[..|ids| - 1], stdoutPath, stderrPath)[last := PendingRecord(last, stdoutPath, stderrPath)]
  }

  /** The key order after those assignments: a new id goes last, one already present keeps its place. */
  function AppendNew(order: seq<string>, ids: seq<string>): seq<string> {
    if ids == [] then order
    else
      var last := ids[|ids| - 1];
      var o := AppendNew(order, ids[..|ids| - 1]);
      if last in o then o else o + [last]
  }

  /** Every submitted id is a key with a fresh pending record; the other records are untouched. */
  lemma {:induction false} RegisteredContents(res: Resources, ids: seq<string>, stdoutPath: string, stderrPath: string)
    ensures forall k :: k in Registered(res, ids, stdoutPath, stderrPath) <==> k in res || k in ids
    ensures forall k :: k in ids ==> Registered(res, ids, stdoutPath, stderrPath)[k] == PendingRecord(k, stdoutPath, stderrPath)
    ensures forall k :: k in res && k !in ids ==> Registered(res, ids, stdoutPath, stderrPath)[k] == res[k]
  {
    if ids != [] {
      var init := ids[..|ids| - 1];
      RegisteredContents(res, init, stdoutPath, stderrPath);
      assert forall k :: k in ids <==> k in init || k == ids[|ids| - 1];
    }
  }

  /**
    The new key order lists each key once: the old order unchanged in front, then the
    submitted ids that were not keys yet.
   */
  lemma {:induction false} AppendNewContents(order: seq<string>, ids: seq<string>)
    requires Distinct(order)
    ensures Distinct(AppendNew(order, ids))
    ensures forall k :: k in AppendNew(order, ids) <==> k in order || k in ids
    ensures |order| <= |AppendNew(order, ids)| && AppendNew(order, ids)[..|order|] == order
  {
    if ids != [] {
      var init := ids[..|ids| - 1];
      var last := ids[|ids| - 1];
      AppendNewContents(order, init);
      var o := AppendNew(order, init);
      assert forall k :: k in ids <==> k in init || k == last;
      if last !in o {
        assert (o + [last])[..|order|] == o[..|order|];
      }
    }
  }

  /** `submit` keeps the table keyed by the records' own ids, with the key order in step. */
  lemma SubmitKeepsTable(res: Resources, order: seq<string>, ids: seq<string>, stdoutPath: string, stderrPath: string)
    requires Table(res, order) && Keyed(res)
    ensures Table(Registered(res, ids, stdoutPath, stderrPath), AppendNew(order, ids))
    ensures Keyed(Registered(res, ids, stdoutPath, stderrPath))
  {
    RegisteredContents(res, ids, stdoutPath, stderrPath);
    AppendNewContents(order, ids);
  }

  /** An id is a key after the assignments exactly when it is in the new key order. */
  lemma SubmitKeyAgrees(res: Resources, order: seq<string>, ids: seq<string>, stdoutPath: string, stderrPath: string,
                        id: string)
    requires Table(res, order)
    ensures id in Registered(res, ids, stdoutPath, stderrPath) <==> id in AppendNew(order, ids)
  {
    RegisteredContents(res, ids, stdoutPath, stderrPath);
    AppendNewContents(order, ids);
  }

  /** One more line read by the loop of `submit`. */
  lemma NonBlankPrefix(lines: seq<string>, i: nat)
    requires i < |lines|
    ensures NonBlank(lines[..i + 1]) == NonBlank(lines[..i]) + (if Strip(lines[i]) != [] then [Strip(lines[i])] else [])
  {
    assert lines[..i + 1][..i] == lines[..i];
  }

  /** `qsub` printing one job id and a newline makes that id the one `submit` registers. */
  lemma SubmittedOneId(id: string)
    requires Trimmed(id) && '\n' !in id
    ensures SubmittedIds(id + "\n") == [id]
  {
    var parts := [id, ""];
    assert Join(parts, '\n') == id + "\n" by {
      assert parts[1..] == [""];
    }
    SplitJoin(parts, '\n');
    assert Split(id + "\n", '\n') == parts;
    StripUnchanged(id);
    assert Strip(parts[1]) == [];
    assert parts[..1] == [id];
    assert NonBlank([id]) == NonBlank([]) + [Strip(id)];
    assert NonBlank(parts) == NonBlank([id]);
  }

  /** Python's truth test in `assert self.script_dir`: neither `None` nor empty. */
  predicate ScriptDirSet(scriptDir: Option<string>) {
    scriptDir.Some? && scriptDir.value != []
  }

  // ---------------------------------------------------------------- the provider

  /** The inner loop of `_status`: the first known id that starts with the reported one. */
  method CoerceJobId(jobIds: seq<string>, reported: string) returns (jobId: string)
    ensures jobId == Coerce(jobIds, reported)
  {
    jobId := reported;
    var l := 0;
    while l < |jobIds|
      invariant 0 <= l <= |jobIds|
      invariant forall j :: 0 <= j < l ==> !StartsWith(jobIds[j], reported)
    {
      if StartsWith(jobIds[l], jobId) {
        jobId := jobIds[l];
        break;
      }
      l := l + 1;
    }
  }

  /** What the loop of `submit` carries from line to line: the table, its key order and the last id seen. */
  datatype Filing = Filing(resources: Resources, order: seq<string>, last: Option<string>)

  /** One turn of the loop, for a non-blank id. */
  function FileJob(t: Filing, id: string, stdoutPath: string, stderrPath: string): Filing {
    Filing(t.resources[id := PendingRecord(id, stdoutPath, stderrPath)],
           if id in t.resources then t.order else t.order + [id],
           Some(id))
  }

  /** The loop over the ids one after the other. */
  function FileAll(t: Filing, ids: seq<string>, stdoutPath: string, stderrPath: string): Filing {
    if ids == [] then t else FileJob(FileAll(t, ids[..|ids| - 1], stdoutPath, stderrPath), ids[|ids| - 1], stdoutPath, stderrPath)
  }

  lemma FileAllSnoc(t: Filing, ids: seq<string>, id: string, stdoutPath: string, stderrPath: string)
    ensures FileAll(t, ids + [id], stdoutPath, stderrPath)
         == FileJob(FileAll(t, ids, stdoutPath, stderrPath), id, stdoutPath, stderrPath)
  {
    assert (ids + [id])[..|ids|] == ids;
  }

  /**
    Filing the ids one by one, on a table whose key order is in step with its keys,
    gives the table `Registered` describes, the key order of `AppendNew`, and the last id.
   */
  lemma {:induction false} FileAllRegisters(res0: Resources, order0: seq<string>, ids: seq<string>, stdoutPath: string, stderrPath: string)
    requires Table(res0, order0)
    ensures FileAll(Filing(res0, order0, None), ids, stdoutPath, stderrPath)
         == Filing(Registered(res0, ids, stdoutPath, stderrPath), AppendNew(order0, ids), LastId(ids))
  {
    if ids != [] {
      var init := ids[..|ids| - 1];
      FileAllRegisters(res0, order0, init, stdoutPath, stderrPath);
      SubmitKeyAgrees(res0, order0, init, stdoutPath, stderrPath, ids[|ids| - 1]);
    }
  }

  /**
    The loop of `submit` over the lines of `qsub`'s stdout: every stripped, non-blank
    line is taken as a job id and registered as PENDING (a repeated id is overwritten
    in place), and the last one is the id returned. It runs on copies of the job table
    and its key order, which the provider writes back once the loop is done.
   */
  method RegisterLines(lines: seq<string>, res0: Resources, order0: seq<string>, stdoutPath: string, stderrPath: string)
    returns (res: Resources, order: seq<string>, jobId: Option<string>)
    requires Table(res0, order0)
    ensures res == Registered(res0, NonBlank(lines), stdoutPath, stderrPath)
    ensures order == AppendNew(order0, NonBlank(lines))
    ensures jobId == LastId(NonBlank(lines))
  {
    res, order, jobId := res0, order0, None;
    ghost var ids: seq<string> := [];
    for i := 0 to |lines|
      invariant ids == NonBlank(lines[..i])
      invariant Filing(res, order, jobId) == FileAll(Filing(res0, order0, None), ids, stdoutPath, stderrPath)
    {
      NonBlankPrefix(lines, i);
      var line := Strip(lines[i]);
      if line != [] {
        FileAllSnoc(Filing(res0, order0, None), ids, line, stdoutPath, stderrPath);
        jobId := Some(line);
        if line !in res {
          order := order + [line];
        }
        res := res[line := PendingRecord(line, stdoutPath, stderrPath)];
        ids := ids + [line];
      }
    }
    assert lines[..|lines|] == lines;
    FileAllRegisters(res0, order0, ids, stdoutPath, stderrPath);
  }

  class PbsProProvider {
    /** job id -> record; its key order is kept in `jobOrder`. */
    var resources: Resources
    var jobOrder: seq<string>
    var selectOptions: string
    /** Set by the executor before the first submission. */
    var scriptDir: Option<string>
    const queue: Option<string>
    const account: Option<string>
    /** `status_polling_interval`, in seconds. */
    const statusPollingInterval: nat := 60

    ghost predicate Valid()
      reads this
    {
      Table(resources, jobOrder) && Keyed(resources)
    }

    constructor (account: Option<string>, queue: Option<string>, selectOptions: string)
      ensures Valid() && resources == map[] && jobOrder == []
      ensures this.account == account && this.queue == queue && this.selectOptions == selectOptions
      ensures scriptDir == None
    {
      this.account := account;
      this.queue := queue;
      this.selectOptions := selectOptions;
      resources := map[];
      jobOrder := [];
      scriptDir := None;
    }

    /**
      `_status`, given the exit code of `qstat` and its decoded reply. A failed query
      changes nothing and raises nothing; otherwise the table becomes `StatusResult`.
     */
    method Status(retcode: int, jobs: Option<seq<Report>>, table: TranslateTable) returns (raised: Option<PyError>)
      requires Valid()
      modifies this
      ensures Valid()
      ensures jobOrder == old(jobOrder) && selectOptions == old(selectOptions) && scriptDir == old(scriptDir)
      ensures retcode != 0 ==> raised == None && resources == old(resources)
      ensures retcode == 0 ==> (resources, raised) == StatusResult(old(resources), old(jobOrder), jobs, table)
    {
      var jobIds := jobOrder;
      var jobsMissing := jobOrder;
      StatusValid(resources, jobIds, jobs, table);
      if retcode != 0 {
        return None;
      }
      if jobs.Some? {
        var reports := jobs.value;
        ghost var done := ApplyReports(resources, jobIds, jobIds, reports, table);
        var n := 0;
        while n < |reports|
          invariant 0 <= n <= |reports|
          invariant jobOrder == jobIds == old(jobOrder) && selectOptions == old(selectOptions) && scriptDir == old(scriptDir)
          invariant resources.Keys == old(resources).Keys
          invariant forall k :: k in jobsMissing ==> k in resources
          invariant done == ApplyReports(resources, jobIds, jobsMissing, reports[n..], table)
        {
          var jobId := CoerceJobId(jobIds, reports[n].jobId);
          var state := ReportedState(reports[n].jobState, table);
          assert reports[n..][0] == reports[n] && reports[n..][1..] == reports[n + 1..];
          if jobId !in resources {
            return Some(KeyError(jobId));
          }
          resources := resources[jobId := WithState(resources[jobId], state)];
          match RemoveFirst(jobsMissing, jobId) {
            case None =>
              return Some(ValueError(jobId));
            case Some(rest) =>
              jobsMissing := rest;
          }
          n := n + 1;
        }
      }
      MarkCompleted(jobsMissing);
      raised := None;
    }

    /** The loop over `jobs_missing` at the end of `_status`: each listed job becomes `Completed`. */
    method MarkCompleted(jobsMissing: seq<string>)
      requires forall k :: k in jobsMissing ==> k in resources
      modifies this
      ensures resources == FillMissing(old(resources), jobsMissing)
      ensures jobOrder == old(jobOrder) && selectOptions == old(selectOptions) && scriptDir == old(scriptDir)
    {
      var m := 0;
      while m < |jobsMissing|
        invariant 0 <= m <= |jobsMissing|
        invariant jobOrder == old(jobOrder) && selectOptions == old(selectOptions) && scriptDir == old(scriptDir)
        invariant forall k :: k in jobsMissing ==> k in resources
        invariant FillMissing(resources, jobsMissing[m..]) == FillMissing(old(resources), jobsMissing)
      {
        var missingJob := jobsMissing[m];
        FillMissingStep(resources, jobsMissing, m);
        resources := resources[missingJob := WithState(resources[missingJob], Completed)];
        m := m + 1;
      }
    }

    /**
      The part of `submit` after a successful `qsub`: the job ids of its output are filed
      as pending jobs, a new key going last, and the last of them is the id returned.
     */
    method RegisterSubmitted(stdout: string, stdoutPath: string, stderrPath: string) returns (jobId: Option<string>)
      requires Table(resources, jobOrder)
      modifies this`resources, this`jobOrder
      ensures var ids := SubmittedIds(stdout);
        && jobId == LastId(ids)
        && resources == Registered(old(resources), ids, stdoutPath, stderrPath)
        && jobOrder == AppendNew(old(jobOrder), ids)
    {
      var res, order;
      res, order, jobId := RegisterLines(Split(stdout, '\n'), resources, jobOrder, stdoutPath, stderrPath);
      resources, jobOrder := res, order;
    }

    /**
      `submit`, given the job name, the script path and what `qsub` returned. The
      paths of the job's output are the script path with `.stdout` and `.stderr`.
     */
    method Submit(jobName: string, scriptPath: string, retcode: int, stdout: string, stderr: string)
      returns (outcome: SubmitOutcome)
      requires Valid()
      modifies this
      ensures Valid() && scriptDir == old(scriptDir)
      ensures !ScriptDirSet(scriptDir) ==>
        outcome == Raised(ScriptDirUnset) && resources == old(resources)
        && jobOrder == old(jobOrder) && selectOptions == old(selectOptions)
      ensures ScriptDirSet(scriptDir) ==> selectOptions == NormaliseSelectOptions(old(selectOptions))
      ensures ScriptDirSet(scriptDir) && retcode != 0 ==>
        && outcome == Raised(SubmitException(jobName,
             FailureMessage(LaunchCommand(queue, account, scriptPath)), stdout, stderr))
        && resources == old(resources) && jobOrder == old(jobOrder)
      ensures ScriptDirSet(scriptDir) && retcode == 0 ==>
        var ids := SubmittedIds(stdout);
        && outcome == Submitted(LastId(ids))
        && resources == Registered(old(resources), ids, scriptPath + ".stdout", scriptPath + ".stderr")
        && jobOrder == AppendNew(old(jobOrder), ids)
    {
      if !ScriptDirSet(scriptDir) {
        return Raised(ScriptDirUnset);
      }
      var jobStdoutPath := scriptPath + ".stdout";
      var jobStderrPath := scriptPath + ".stderr";
      if selectOptions != [] && !StartsWith(selectOptions, ":") {
        selectOptions := ":" + selectOptions;
      }
      var launchCmd := LaunchCommand(queue, account, scriptPath);
      if retcode == 0 {
        var jobId := RegisterSubmitted(stdout, jobStdoutPath, jobStderrPath);
        SubmitKeepsTable(old(resources), old(jobOrder), SubmittedIds(stdout), jobStdoutPath, jobStderrPath);
        outcome := Submitted(jobId);
      } else {
        var message := FailureMessage(launchCmd);
        outcome := Raised(SubmitException(jobName, message, stdout, stderr));
      }
    }
  }
}
