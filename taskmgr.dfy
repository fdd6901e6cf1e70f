/** The `asyncwf taskmgr` actions of `src/commands/taskmgr.ts`: the checks and parsing each
    action does before reaching the job store and the agent runner. Command-line options arrive
    as optional strings; an option counts as given only when it is a non-empty string, as in
    JavaScript's truthiness. Console output is not modelled; each action returns what it
    would report. */
module Taskmgr {
  import opened Wrappers
  import opened Types
  import opened State
  import opened Text
  import opened Agent
  import Seqs

  /** The agents `dispatch` accepts. */
  const ValidAgents: seq<string> := ["claude", "codex", "gemini"]
  const DefaultTimeoutMs: int := 300000

  /** A command-line option that is present and not empty. */
  predicate Given(o: Option<string>) {
    o.Some? && o.value != ""
  }

  datatype DispatchError = MissingJobOrPrompt | InvalidAgent(agent: string) | AlreadyExists(job: string)

  /** `handleDispatch`'s three checks, in order: `--job` and `--prompt` are required, a given
      `--agent` must be a known one, and no task may already have the job id. */
  function CheckDispatch(job: Option<string>, prompt: Option<string>, agent: Option<string>, tasks: seq<Task>)
    : (r: Option<DispatchError>)
    ensures r == Some(MissingJobOrPrompt) <==> !Given(job) || !Given(prompt)
    ensures (r.Some? && r.value.InvalidAgent?) <==>
      Given(job) && Given(prompt) && Given(agent) && agent.value !in ValidAgents
    ensures (r.Some? && r.value.AlreadyExists?) <==>
      Given(job) && Given(prompt) && (!Given(agent) || agent.value in ValidAgents) && FindTask(tasks, job.value).Some?
    ensures r.None? <==>
      Given(job) && Given(prompt) && (!Given(agent) || agent.value in ValidAgents) && FindTask(tasks, job.value).None?
  {
    if !Given(job) || !Given(prompt) then Some(MissingJobOrPrompt)
    else if Given(agent) && agent.value !in ValidAgents then Some(InvalidAgent(agent.value))
    else if FindTask(tasks, job.value).Some? then Some(AlreadyExists(job.value))
    else None
  }

  /** `handleDispatch`: refuses with nothing changed when a check fails; otherwise hands the job,
      prompt and skill to `dispatchAgent`. The agent option is only checked: `dispatchAgent`
      does not take it, so it does not choose the command. */
  method HandleDispatch(runner: AgentRunner, job: Option<string>, prompt: Option<string>, skill: Option<string>,
                        agent: Option<string>, spawn: SpawnOutcome, now: string)
    returns (r: Result<Task, DispatchError>)
    modifies runner, runner.store
    ensures var check := CheckDispatch(job, prompt, agent, old(runner.store.tasks));
      && (check.Some? ==> r == Err(check.value)
                          && runner.store.tasks == old(runner.store.tasks) && runner.processes == old(runner.processes))
      && (check.None? ==>
            var full := FullPrompt(prompt.value, ResolveSkill(old(runner.skills.index), old(runner.skills.files), runner.skills.home, skill));
            && r == Ok(Stamp(RunningRecord(runner.store.cwd, job.value, full, skill), now))
            && r.value.id == job.value && r.value.status == Running
            && runner.store.tasks == Updated(old(runner.store.tasks) + [r.value], job.value, SpawnPatch(spawn), now)
            && (spawn.Started? ==> runner.processes == old(runner.processes)[job.value := Handle(spawn.pid, false)])
            && (spawn.Threw? ==> runner.processes == old(runner.processes)))
    ensures Seqs.KeysUnique(old(runner.store.tasks), TaskId) ==> Seqs.KeysUnique(runner.store.tasks, TaskId)
  {
    var check := CheckDispatch(job, prompt, agent, runner.store.tasks);
    if check.Some? {
      return Err(check.value);
    }
    ghost var before := runner.store.tasks;
    var task, _, _ := runner.DispatchAgent(job.value, prompt.value, skill, spawn, now);
    if Seqs.KeysUnique(before, TaskId) {
      DispatchKeepsIdsUnique(before, task, SpawnPatch(spawn), now);
    }
    r := Ok(task);
  }

  /** Appending a record whose id is new and then patching it without touching its id keeps ids
      unique: the existence check in `handleDispatch` is what keeps the table keyed, since
      `createTask` itself appends whatever it is given. */
  lemma DispatchKeepsIdsUnique(ts: seq<Task>, t: Task, u: TaskPatch, now: string)
    requires Seqs.KeysUnique(ts, TaskId) && FindTask(ts, t.id).None? && u.id.Keep?
    ensures Seqs.KeysUnique(Updated(ts + [t], t.id, u, now), TaskId)
  {
    var xs := ts + [t];
    forall i, j | 0 <= i < j < |xs| ensures xs[i].id != xs[j].id {
      assert xs[i] == ts[i];
      if j < |ts| {
        assert xs[j] == ts[j];
      }
    }
    var r := Updated(xs, t.id, u, now);
    assert forall k :: 0 <= k < |r| ==> r[k].id == xs[k].id;
  }

  /** Records whose status is written `name`: `getTasksByStatus(status as TaskStatus)`, which
      compares with whatever string was given. */
  function ByStatusName(ts: seq<Task>, name: string): (r: seq<Task>)
    ensures forall t :: t in r <==> t in ts && t.status.Name() == name
  {
    if ts == [] then []
    else (if ts[0].status.Name() == name then [ts[0]] else []) + ByStatusName(ts[1..], name)
  }

  /** Filtering by a status's name is filtering by that status. */
  lemma {:induction false} ByKnownStatusName(ts: seq<Task>, s: TaskStatus)
    ensures ByStatusName(ts, s.Name()) == ByStatus(ts, s)
  {
    if ts != [] {
      ByKnownStatusName(ts[1..], s);
      assert ts[0].status.Name() == s.Name() <==> ts[0].status == s;
    }
  }

  /** `handleList`: the status filter when `--status` is given, the whole table otherwise. */
  function ListTasks(ts: seq<Task>, status: Option<string>): (r: seq<Task>)
    ensures !Given(status) ==> r == ts
    ensures Given(status) ==> forall t :: t in r <==> t in ts && t.status.Name() == status.value
  {
    if Given(status) then ByStatusName(ts, status.value) else ts
  }

  /** A status that names none of the four lists nothing. */
  lemma {:induction false} UnknownStatusListsNothing(ts: seq<Task>, name: string)
    requires name != "" && forall s: TaskStatus :: s.Name() != name
    ensures ListTasks(ts, Some(name)) == []
  {
    if ts != [] {
      UnknownStatusListsNothing(ts[1..], name);
      assert ts[0].status.Name() != name;
    }
  }

  /** `jobs.split(',').map(s => s.trim())`. */
  function WaitIds(jobs: string): (r: seq<string>)
    ensures |r| == |Split(jobs, ',')| >= 1
    ensures forall i :: 0 <= i < |r| ==> r[i] == Trim(Split(jobs, ',')[i])
  {
    var parts := Split(jobs, ',');
    seq(|parts|, i requires 0 <= i < |parts| => Trim(parts[i]))
  }

  /** Ids written comma-separated, already trimmed and free of commas, are read back as written. */
  lemma WaitIdsJoin(ids: seq<string>)
    requires |ids| >= 1
    requires forall i :: 0 <= i < |ids| ==> ',' !in ids[i] && Trim(ids[i]) == ids[i]
    ensures WaitIds(Join(ids, [','])) == ids
  {
    SplitJoin(ids, ',');
  }

  /** `parseInt(timeout || '300000', 10)`, with the option already parsed. */
  function TimeoutOf(timeout: Option<int>): (ms: int)
    ensures timeout.None? ==> ms == DefaultTimeoutMs
    ensures timeout.Some? ==> ms == timeout.value
  {
    timeout.GetOr(DefaultTimeoutMs)
  }

  /** `handleWait`: nothing without `--jobs`; otherwise the wait on the parsed ids and timeout. */
  method HandleWait(jobs: Option<string>, timeout: Option<int>, clock: seq<int>, tables: seq<seq<Task>>, last: seq<Task>)
    returns (r: Option<seq<Task>>)
    requires |tables| == |clock| >= 1 && clock[|clock| - 1] - clock[0] >= TimeoutOf(timeout)
    ensures !Given(jobs) ==> r.None?
    ensures Given(jobs) ==> r == Some(Poll(WaitIds(jobs.value), TimeoutOf(timeout), clock[0], clock, tables, last, 1))
  {
    if !Given(jobs) {
      return None;
    }
    var results := WaitForJobs(WaitIds(jobs.value), TimeoutOf(timeout), clock, tables, last);
    r := Some(results);
  }

  datatype FetchReport = NoJobGiven | NotFound(job: string) | NoOutput(job: string) | Output(status: TaskStatus, log: string)

  /** `handleFetch`: the job's status and log file. An unknown job is reported before the log
      is looked at; a known job without a log file reports that instead. */
  function Fetch(ts: seq<Task>, cwd: string, logs: map<string, string>, job: Option<string>): (r: FetchReport)
    ensures r.NoJobGiven? <==> !Given(job)
    ensures r.NotFound? <==> Given(job) && FindTask(ts, job.value).None?
    ensures r.NoOutput? <==> Given(job) && FindTask(ts, job.value).Some? && LogPath(cwd, job.value) !in logs
    ensures r.Output? ==>
      && Given(job) && FindTask(ts, job.value).Some?
      && r.status == FindTask(ts, job.value).value.status
      && LogPath(cwd, job.value) in logs && r.log == logs[LogPath(cwd, job.value)]
  {
    if !Given(job) then NoJobGiven
    else match FindTask(ts, job.value)
      case None => NotFound(job.value)
      case Some(t) =>
        var path := LogPath(cwd, job.value);
        if path !in logs then NoOutput(job.value) else Output(t.status, logs[path])
  }

  /** `handleKill`: nothing without `--job`; otherwise whether `killAgent` terminated the job. */
  method HandleKill(runner: AgentRunner, job: Option<string>, signal: SignalOutcome, now: string) returns (r: Option<bool>)
    modifies runner, runner.store
    ensures !Given(job) ==> r.None? && runner.store.tasks == old(runner.store.tasks) && runner.processes == old(runner.processes)
    ensures Given(job) ==> r.Some?
    ensures Given(job) ==>
      var t := FindTask(old(runner.store.tasks), job.value);
      var live := job.value in old(runner.processes) && !old(runner.processes)[job.value].killed;
      && (r == Some(true) <==> t.Some? && (live || (Truthy(t.value.pid) && signal == Delivered)))
      && (r == Some(true) && live ==> runner.processes == old(runner.processes) - {job.value})
      && (r == Some(true) && !live ==> runner.processes == old(runner.processes))
    ensures r == Some(true) ==> runner.store.tasks == Updated(old(runner.store.tasks), job.value, Abort, now)
    ensures r == Some(false) ==> runner.store.tasks == old(runner.store.tasks) && runner.processes == old(runner.processes)
  {
    if !Given(job) {
      return None;
    }
    var ok := runner.KillAgent(job.value, signal, now);
    r := Some(ok);
  }
}
