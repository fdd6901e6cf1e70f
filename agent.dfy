/** The job lifecycle of `src/lib/agent.ts`. The child process is not modelled: spawning is an
    outcome supplied by the caller (a process with a possibly undefined pid, or a throw), its
    `exit` and `error` events are methods the environment calls, and delivering SIGTERM to a pid
    is an outcome that is accepted or throws. Clock readings and the tables seen by successive
    polls are parameters. */
module Agent {
  import opened Wrappers
  import opened Types
  import opened State
  import Skills

  const DefaultAgent: string := "claude"
  const PromptFlag: string := "-p"
  const SkillGap: string := "\n\n"

  /** `if (skillName) { const skill = getSkill(skillName) ... }`: an empty name counts as none. */
  function ResolveSkill(index: seq<SkillEntry>, files: map<string, string>, home: string,
                        skillName: Option<string>): (r: Option<Skill>)
    ensures skillName.None? || skillName.value == "" ==> r.None?
    ensures r.Some? ==> r == Skills.ReadSkill(index, files, home, skillName.value) && r.value.name == skillName.value
  {
    if skillName.Some? && skillName.value != "" then Skills.ReadSkill(index, files, home, skillName.value)
    else None
  }

  /** The prompt handed to the agent: the skill block, a blank line, then the caller's prompt,
      or the prompt alone when no skill resolved. */
  function FullPrompt(prompt: string, skill: Option<Skill>): (r: string)
    ensures |prompt| <= |r| && r[|r| - |prompt|..] == prompt
    ensures skill.None? ==> r == prompt
    ensures skill.Some? ==> r[..|r| - |prompt|] == Skills.FormatSkillForPrompt(skill.value) + SkillGap
  {
    match skill
    case None => prompt
    case Some(s) =>
      var head := Skills.FormatSkillForPrompt(s) + SkillGap;
      assert (head + prompt)[..|head|] == head;
      assert (head + prompt)[|head|..] == prompt;
      head + prompt
  }

  /** A skill that resolved opens the agent's prompt with its `[SKILL: name]` line. */
  lemma FullPromptStartsWithSkill(prompt: string, s: Skill)
    ensures "[SKILL: " + s.name + "]\n" <= FullPrompt(prompt, Some(s))
  {
    var r := FullPrompt(prompt, Some(s));
    var block := Skills.FormatSkillForPrompt(s);
    var head := "[SKILL: " + s.name + "]\n";
    assert r[..|r| - |prompt|] == block + SkillGap;
    assert head <= block;
    assert r[..|head|] == (block + SkillGap)[..|head|] == block[..|head|];
  }

  /** `process.env.ASYNCWF_AGENT || 'claude'`: an unset or empty variable means `claude`. */
  function AgentCommand(env: Option<string>): (r: string)
    ensures r != ""
    ensures r == DefaultAgent <==> env.None? || env.value == "" || env.value == DefaultAgent
    ensures r != DefaultAgent ==> env == Some(r)
  {
    if env.Some? && env.value != "" then env.value else DefaultAgent
  }

  /** `claude` takes the prompt after `-p`; any other command takes it as its only argument. */
  function AgentArgs(command: string, fullPrompt: string): (r: seq<string>)
    ensures 1 <= |r| && r[|r| - 1] == fullPrompt
    ensures |r| == 2 <==> command == DefaultAgent
    ensures |r| == 2 ==> r[0] == PromptFlag
  {
    if command == DefaultAgent then [PromptFlag, fullPrompt] else [fullPrompt]
  }

  /** What the `exit` handler writes: `done` exactly for code 0, the code as exit code, and
      -1 when the process ended without one (killed by a signal). */
  function ExitPatch(code: Option<int>): (u: TaskPatch)
    ensures u.id.Keep? && u.pid.Keep? && u.status.Put? && u.exitCode.Put?
    ensures u.status.value == Done <==> code == Some(0)
    ensures u.status.value == Failed <==> code != Some(0)
    ensures u.exitCode.value == Some(if code.Some? then code.value else -1)
  {
    Finish(if code == Some(0) then Done else Failed, code.GetOr(-1))
  }

  /** The update written when the process could not be run or was killed. */
  const Abort: TaskPatch := Finish(Failed, -1)

  /** Every patch the lifecycle writes keeps records consistent. */
  lemma LifecyclePatchesConsistent(code: Option<int>, pid: Option<int>)
    ensures KeepsConsistent(ExitPatch(code)) && KeepsConsistent(Abort) && KeepsConsistent(SetPid(pid))
  {
  }

  /** Appending a consistent record and then applying a lifecycle patch keeps the table consistent. */
  lemma AppendUpdateConsistent(ts: seq<Task>, t: Task, id: string, u: TaskPatch, now: string)
    requires AllConsistent(ts) && Consistent(t) && KeepsConsistent(u)
    ensures AllConsistent(Updated(ts + [t], id, u, now))
  {
    assert AllConsistent(ts + [t]) by {
      assert forall i :: 0 <= i < |ts| ==> (ts + [t])[i] == ts[i];
    }
    UpdatedConsistent(ts + [t], id, u, now);
  }

  /** `if (task.pid)`: undefined and 0 are falsy. */
  predicate Truthy(pid: Option<int>) {
    pid.Some? && pid.value != 0
  }

  /** A live child process as `processes` holds it. */
  datatype Handle = Handle(pid: Option<int>, killed: bool)

  /** How `spawn` went: a child (whose pid Node may leave undefined), or a throw. */
  datatype SpawnOutcome = Started(pid: Option<int>) | Threw

  /** How `process.kill(pid, 'SIGTERM')` went. */
  datatype SignalOutcome = Delivered | SignalThrew

  /** The update that follows the spawn: the child's pid when it started, failure when it threw. */
  function SpawnPatch(spawn: SpawnOutcome): (u: TaskPatch)
    ensures KeepsConsistent(u)
    ensures spawn.Started? ==> u == SetPid(spawn.pid)
    ensures spawn.Threw? ==> u.status == Put(Failed) && u.exitCode == Put(Some(-1))
  {
    match spawn
    case Started(pid) => SetPid(pid)
    case Threw => Abort
  }

  /** The record `dispatchAgent` creates before spawning. */
  function RunningRecord(cwd: string, jobId: string, fullPrompt: string, skillName: Option<string>): (n: NewTask)
    ensures n.id == jobId && n.prompt == fullPrompt && n.skill == skillName
    ensures n.status == Running && n.pid.None? && n.exitCode.None?
    ensures n.logFile == Some(LogPath(cwd, jobId))
  {
    NewTask(jobId, fullPrompt, skillName, Running, None, None, Some(LogPath(cwd, jobId)))
  }

  /** `waitForJobs`'s lookup: the records of the requested ids that exist, in request order. */
  function Found(ids: seq<string>, ts: seq<Task>): (r: seq<Task>)
    ensures |r| <= |ids|
    ensures r == [] <==> forall id :: id in ids ==> FindTask(ts, id).None?
    ensures forall t :: t in r ==> t.id in ids && FindTask(ts, t.id) == Some(t)
  {
    if ids == [] then []
    else
      var rest := Found(ids[..|ids| - 1], ts);
      match FindTask(ts, ids[|ids| - 1])
      case None => rest
      case Some(t) => rest + [t]
  }

  /** Every requested id that has a record contributes that record. */
  lemma {:induction false} FoundComplete(ids: seq<string>, ts: seq<Task>, id: string)
    requires id in ids && FindTask(ts, id).Some?
    ensures FindTask(ts, id).value in Found(ids, ts)
  {
    var last := ids[|ids| - 1];
    if id != last {
      assert id in ids[..|ids| - 1] by {
        assert ids == ids[..|ids| - 1] + [last];
      }
      FoundComplete(ids[..|ids| - 1], ts, id);
    }
  }

  /** The lookup keeps request order: it distributes over concatenation of the id lists. */
  lemma {:induction false} FoundAppend(a: seq<string>, b: seq<string>, ts: seq<Task>)
    ensures Found(a + b, ts) == Found(a, ts) + Found(b, ts)
  {
    if b == [] {
      assert a + b == a;
    } else {
      var b' := b[..|b| - 1];
      assert (a + b)[..|a + b| - 1] == a + b';
      assert (a + b)[|a + b| - 1] == b[|b| - 1];
      FoundAppend(a, b', ts);
    }
  }

  /** `validTasks.every(t => t.status === 'done' || t.status === 'failed')`. */
  predicate AllFinished(ts: seq<Task>) {
    forall i :: 0 <= i < |ts| ==> ts[i].status.IsTerminal()
  }

  /** The polling loop from poll `k` on: return the records of the first poll, still within
      the deadline, at which every found record is finished; once the deadline has passed
      (`clock[k] - start >= timeoutMs`, or no later reading), return the records of the final
      lookup `last`, whatever their status. Poll `k` reads `clock[k]` and then the table
      `tables[k]`. */
  function Poll(ids: seq<string>, timeoutMs: int, start: int, clock: seq<int>, tables: seq<seq<Task>>,
                last: seq<Task>, k: nat): (r: seq<Task>)
    requires |tables| == |clock|
    ensures r == Found(ids, last) || exists j :: k <= j < |clock| && r == Found(ids, tables[j])
    ensures !AllFinished(r) ==> r == Found(ids, last)
    decreases |clock| - k
  {
    if k < |clock| && clock[k] - start < timeoutMs then
      var found := Found(ids, tables[k]);
      if AllFinished(found) then found else Poll(ids, timeoutMs, start, clock, tables, last, k + 1)
    else Found(ids, last)
  }

  /** The early return: when every poll from `k` to `j` runs before the deadline, and poll `j` is
      the first of them at which every found record is finished, the wait returns poll `j`'s
      records. */
  lemma {:induction false} PollReturnsFirstFinished(ids: seq<string>, timeoutMs: int, start: int, clock: seq<int>,
                                                    tables: seq<seq<Task>>, last: seq<Task>, k: nat, j: nat)
    requires |tables| == |clock| && k <= j < |clock|
    requires forall i :: k <= i <= j ==> clock[i] - start < timeoutMs
    requires forall i :: k <= i < j ==> !AllFinished(Found(ids, tables[i]))
    requires AllFinished(Found(ids, tables[j]))
    ensures Poll(ids, timeoutMs, start, clock, tables, last, k) == Found(ids, tables[j])
    decreases j - k
  {
    var found := Found(ids, tables[k]);
    if k < j {
      assert clock[k] - start < timeoutMs && !AllFinished(found);
      PollReturnsFirstFinished(ids, timeoutMs, start, clock, tables, last, k + 1, j);
      PollStep(ids, timeoutMs, start, clock, tables, last, k);
    } else {
      assert clock[k] - start < timeoutMs && AllFinished(found);
    }
  }

  /** The timeout: when no poll from `k` up to the deadline `d` (the first reading past the
      timeout, or the end of the readings) finds every record finished, the wait returns the
      final lookup. */
  lemma {:induction false} PollTimesOut(ids: seq<string>, timeoutMs: int, start: int, clock: seq<int>,
                                        tables: seq<seq<Task>>, last: seq<Task>, k: nat, d: nat)
    requires |tables| == |clock| && k <= d <= |clock|
    requires d == |clock| || clock[d] - start >= timeoutMs
    requires forall i :: k <= i < d ==> clock[i] - start < timeoutMs
    requires forall i :: k <= i < d ==> !AllFinished(Found(ids, tables[i]))
    ensures Poll(ids, timeoutMs, start, clock, tables, last, k) == Found(ids, last)
    decreases d - k
  {
    if k < d {
      assert clock[k] - start < timeoutMs && !AllFinished(Found(ids, tables[k]));
      PollTimesOut(ids, timeoutMs, start, clock, tables, last, k + 1, d);
      assert Poll(ids, timeoutMs, start, clock, tables, last, k + 1) == Found(ids, last);
      PollStep(ids, timeoutMs, start, clock, tables, last, k);
      assert Poll(ids, timeoutMs, start, clock, tables, last, k) == Poll(ids, timeoutMs, start, clock, tables, last, k + 1);
    } else {
      PollDeadline(ids, timeoutMs, start, clock, tables, last, k);
    }
  }

  /** Past the deadline, or out of readings, the wait returns the final lookup. */
  lemma PollDeadline(ids: seq<string>, timeoutMs: int, start: int, clock: seq<int>,
                     tables: seq<seq<Task>>, last: seq<Task>, k: nat)
    requires |tables| == |clock| && k <= |clock|
    requires k == |clock| || clock[k] - start >= timeoutMs
    ensures Poll(ids, timeoutMs, start, clock, tables, last, k) == Found(ids, last)
  {
  }

  /** A poll within the deadline that finds an unfinished record moves on to the next one. */
  lemma PollStep(ids: seq<string>, timeoutMs: int, start: int, clock: seq<int>,
                 tables: seq<seq<Task>>, last: seq<Task>, k: nat)
    requires |tables| == |clock| && k < |clock|
    requires clock[k] - start < timeoutMs && !AllFinished(Found(ids, tables[k]))
    ensures Poll(ids, timeoutMs, start, clock, tables, last, k) == Poll(ids, timeoutMs, start, clock, tables, last, k + 1)
  {
  }

  /** No requested id has a record at the first poll: the wait returns at once, with nothing. */
  lemma NothingFoundReturnsAtOnce(ids: seq<string>, timeoutMs: int, clock: seq<int>, tables: seq<seq<Task>>, last: seq<Task>)
    requires |tables| == |clock| >= 2 && clock[1] - clock[0] < timeoutMs
    requires forall id :: id in ids ==> FindTask(tables[1], id).None?
    ensures Poll(ids, timeoutMs, clock[0], clock, tables, last, 1) == []
  {
    assert AllFinished(Found(ids, tables[1]));
  }

  /** `waitForJobs(jobIds, timeoutMs)`. `clock[0]` is the start time and `clock[k]` the reading
      that decides whether poll `k` runs; the readings are assumed to reach the deadline, which
      stands for time passing. */
  method WaitForJobs(ids: seq<string>, timeoutMs: int, clock: seq<int>, tables: seq<seq<Task>>, last: seq<Task>)
    returns (results: seq<Task>)
    requires |tables| == |clock| >= 1 && clock[|clock| - 1] - clock[0] >= timeoutMs
    ensures results == Poll(ids, timeoutMs, clock[0], clock, tables, last, 1)
  {
    var start := clock[0];
    var k := 1;
    while k < |clock| && clock[k] - start < timeoutMs
      invariant 1 <= k <= |clock|
      invariant Poll(ids, timeoutMs, start, clock, tables, last, 1) == Poll(ids, timeoutMs, start, clock, tables, last, k)
      decreases |clock| - k
    {
      var tasks := Found(ids, tables[k]);
      if AllFinished(tasks) {
        return tasks;
      }
      k := k + 1;
    }
    results := Found(ids, last);
  }

  /** The live handles of one process and the job operations that change them and the store. */
  class AgentRunner {
    /** The job table. */
    const store: TaskStore
    /** The skills the prompt may name. */
    const skills: Skills.SkillStore
    /** `ASYNCWF_AGENT`. */
    const env: Option<string>
    /** The module-level `processes` map: a handle per job spawned by this process and not yet
        exited, errored or killed. */
    var processes: map<string, Handle>

    constructor (store: TaskStore, skills: Skills.SkillStore, env: Option<string>)
      ensures this.store == store && this.skills == skills && this.env == env && processes == map[]
    {
      this.store := store;
      this.skills := skills;
      this.env := env;
      processes := map[];
    }

    /** `dispatchAgent(jobId, prompt, skillName)`: creates the `running` record with the full
        prompt and the log path, then spawns `command args`; a started child is registered and
        its pid recorded, a throw fails the record. Returns the record as first created, with
        the command and arguments the spawn is given. */
    method DispatchAgent(jobId: string, prompt: string, skillName: Option<string>, spawn: SpawnOutcome, now: string)
      returns (task: Task, command: string, args: seq<string>)
      modifies this, store
      ensures var full := FullPrompt(prompt, ResolveSkill(old(skills.index), old(skills.files), skills.home, skillName));
        && task == Stamp(RunningRecord(store.cwd, jobId, full, skillName), now)
        && command == AgentCommand(env) && args == AgentArgs(command, full)
      ensures spawn.Started? ==> processes == old(processes)[jobId := Handle(spawn.pid, false)]
      ensures spawn.Threw? ==> processes == old(processes)
      ensures store.tasks == Updated(old(store.tasks) + [task], jobId, SpawnPatch(spawn), now)
      ensures AllConsistent(old(store.tasks)) ==> AllConsistent(store.tasks)
    {
      var skill := ResolveSkill(skills.index, skills.files, skills.home, skillName);
      var full := FullPrompt(prompt, skill);
      ghost var before := store.tasks;
      task := store.CreateTask(RunningRecord(store.cwd, jobId, full, skillName), now);
      command := AgentCommand(env);
      args := AgentArgs(command, full);
      ghost var created := store.tasks;
      assert created == before + [task];
      var u := SpawnPatch(spawn);
      var _ := store.UpdateTask(jobId, u, now);
      if AllConsistent(before) {
        AppendUpdateConsistent(before, task, jobId, u, now);
      }
      if spawn.Started? {
        processes := processes[jobId := Handle(spawn.pid, false)];
      }
    }

    /** The child's `exit` handler: the handle goes and the record is finished from the code. */
    method OnExit(jobId: string, code: Option<int>, now: string)
      modifies this, store
      ensures processes == old(processes) - {jobId}
      ensures store.tasks == Updated(old(store.tasks), jobId, ExitPatch(code), now)
      ensures FindTask(old(store.tasks), jobId).Some? ==>
        && store.GetTask(jobId).Some?
        && store.GetTask(jobId).value.status == (if code == Some(0) then Done else Failed)
        && store.GetTask(jobId).value.exitCode == Some(code.GetOr(-1))
      ensures AllConsistent(old(store.tasks)) ==> AllConsistent(store.tasks)
    {
      processes := processes - {jobId};
      ghost var before := store.tasks;
      var _ := store.UpdateTask(jobId, ExitPatch(code), now);
      UpdatedFind(before, jobId, ExitPatch(code), now);
      LifecyclePatchesConsistent(code, None);
      if AllConsistent(before) {
        UpdatedConsistent(before, jobId, ExitPatch(code), now);
      }
    }

    /** The child's `error` handler: the handle goes and the record fails with -1. */
    method OnError(jobId: string, now: string)
      modifies this, store
      ensures processes == old(processes) - {jobId}
      ensures store.tasks == Updated(old(store.tasks), jobId, Abort, now)
      ensures AllConsistent(old(store.tasks)) ==> AllConsistent(store.tasks)
    {
      processes := processes - {jobId};
      ghost var before := store.tasks;
      var _ := store.UpdateTask(jobId, Abort, now);
      LifecyclePatchesConsistent(None, None);
      if AllConsistent(before) {
        UpdatedConsistent(before, jobId, Abort, now);
      }
    }

    /** `killAgent(jobId)`: false with nothing changed for an unknown job; a live, unkilled
        handle is signalled, dropped and the record failed; otherwise a truthy recorded pid is
        signalled and, when the signal is delivered, the record failed; anything else is false
        with nothing changed. */
    method KillAgent(jobId: string, signal: SignalOutcome, now: string) returns (ok: bool)
      modifies this, store
      ensures var t := FindTask(old(store.tasks), jobId);
        var live := jobId in old(processes) && !old(processes)[jobId].killed;
        && (t.None? ==> !ok)
        && (t.Some? && live ==> ok && processes == old(processes) - {jobId})
        && (t.Some? && !live ==> processes == old(processes)
                                 && (ok <==> Truthy(t.value.pid) && signal == Delivered))
      ensures ok ==> store.tasks == Updated(old(store.tasks), jobId, Abort, now)
      ensures ok ==> store.GetTask(jobId).Some? && store.GetTask(jobId).value.status == Failed && store.GetTask(jobId).value.exitCode == Some(-1)
      ensures !ok ==> store.tasks == old(store.tasks) && processes == old(processes)
      ensures AllConsistent(old(store.tasks)) ==> AllConsistent(store.tasks)
    {
      var task := store.GetTask(jobId);
      if task.None? {
        return false;
      }
      ghost var before := store.tasks;
      UpdatedFind(before, jobId, Abort, now);
      LifecyclePatchesConsistent(None, None);
      if AllConsistent(before) {
        UpdatedConsistent(before, jobId, Abort, now);
      }
      if jobId in processes && !processes[jobId].killed {
        processes := processes - {jobId};
        var _ := store.UpdateTask(jobId, Abort, now);
        return true;
      }
      if Truthy(task.value.pid) {
        if signal == Delivered {
          var _ := store.UpdateTask(jobId, Abort, now);
          return true;
        }
      }
      return false;
    }
  }
}
