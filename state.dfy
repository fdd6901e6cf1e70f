/** The task table behind `.asyncwf/tasks.json`: an ordered sequence of task records searched
    by id. The file round trip is not modelled: the table is the object's `tasks` field, which
    every operation reads afresh and the mutating operations reassign. */
module State {
  import opened Wrappers
  import opened Types
  import Seqs

  /** Directory of the per-job log files, under the project's working directory. */
  function LogsDir(cwd: string): string {
    cwd + "/.asyncwf/logs"
  }

  /** `getLogPath(jobId)`: the logs directory joined with `<jobId>.log`. */
  function LogPath(cwd: string, jobId: string): (p: string)
    ensures LogsDir(cwd) + "/" <= p
    ensures |p| == |LogsDir(cwd)| + |jobId| + 5
    ensures p[|p| - 4..] == ".log"
    ensures p[|LogsDir(cwd)| + 1..|p| - 4] == jobId
  {
    LogsDir(cwd) + "/" + jobId + ".log"
  }

  /** Distinct jobs of one project write distinct log files, for ids without a `/` (for those,
      `path.join` has no `.`, `..` or repeated separator to normalise away). */
  lemma LogPathInjective(cwd: string, a: string, b: string)
    requires '/' !in a && '/' !in b
    requires LogPath(cwd, a) == LogPath(cwd, b)
    ensures a == b
  {
    var pa, pb := LogPath(cwd, a), LogPath(cwd, b);
    assert a == pa[|LogsDir(cwd)| + 1..|pa| - 4];
    assert b == pb[|LogsDir(cwd)| + 1..|pb| - 4];
  }

  /** `getTask(id)`: the first record with this id. */
  function FindTask(ts: seq<Task>, id: string): (r: Option<Task>)
    ensures r.None? <==> forall i :: 0 <= i < |ts| ==> ts[i].id != id
    ensures r.Some? ==> exists i :: 0 <= i < |ts| && ts[i] == r.value && ts[i].id == id
                                    && forall j :: 0 <= j < i ==> ts[j].id != id
  {
    Seqs.Find(ts, TaskId, id)
  }

  /** `getTasksByStatus(s)`: the records with status `s`, in table order. */
  function ByStatus(ts: seq<Task>, s: TaskStatus): (r: seq<Task>)
    ensures forall t :: t in r <==> t in ts && t.status == s
    ensures |r| <= |ts|
  {
    if |ts| == 0 then []
    else (if ts[0].status == s then [ts[0]] else []) + ByStatus(ts[1..], s)
  }

  /** Filtering distributes over concatenation, so it keeps the table's order. */
  lemma {:induction false} ByStatusAppend(a: seq<Task>, b: seq<Task>, s: TaskStatus)
    ensures ByStatus(a + b, s) == ByStatus(a, s) + ByStatus(b, s)
  {
    if |a| == 0 {
      assert a + b == b;
    } else {
      assert (a + b)[1..] == a[1..] + b;
      ByStatusAppend(a[1..], b, s);
    }
  }

  /** The record `createTask` stores: the given fields plus equal timestamps. */
  function Stamp(n: NewTask, now: string): (t: Task)
    ensures t.createdAt == t.updatedAt == now
    ensures t.id == n.id && t.prompt == n.prompt && t.skill == n.skill && t.status == n.status
    ensures t.pid == n.pid && t.exitCode == n.exitCode && t.logFile == n.logFile
  {
    Task(n.id, n.prompt, n.skill, n.status, n.pid, n.exitCode, now, now, n.logFile)
  }

  /** `{...t, ...updates, updatedAt: now}`. */
  function Merge(t: Task, u: TaskPatch, now: string): (r: Task)
  {
    Task(u.id.Or(t.id), u.prompt.Or(t.prompt), u.skill.Or(t.skill), u.status.Or(t.status),
         u.pid.Or(t.pid), u.exitCode.Or(t.exitCode), u.createdAt.Or(t.createdAt), now,
         u.logFile.Or(t.logFile))
  }

  /** A merged record takes each field present in the patch from the patch, keeps every other
      field, and carries the new update time. */
  lemma MergeFields(t: Task, u: TaskPatch, now: string)
    ensures var r := Merge(t, u, now);
      && r.updatedAt == now
      && (u.status.Put? ==> r.status == u.status.value) && (u.status.Keep? ==> r.status == t.status)
      && (u.pid.Put? ==> r.pid == u.pid.value) && (u.pid.Keep? ==> r.pid == t.pid)
      && (u.exitCode.Put? ==> r.exitCode == u.exitCode.value) && (u.exitCode.Keep? ==> r.exitCode == t.exitCode)
      && (u.id.Put? ==> r.id == u.id.value) && (u.id.Keep? ==> r.id == t.id)
      && (u.prompt.Put? ==> r.prompt == u.prompt.value) && (u.prompt.Keep? ==> r.prompt == t.prompt)
      && (u.skill.Put? ==> r.skill == u.skill.value) && (u.skill.Keep? ==> r.skill == t.skill)
      && (u.createdAt.Put? ==> r.createdAt == u.createdAt.value) && (u.createdAt.Keep? ==> r.createdAt == t.createdAt)
      && (u.logFile.Put? ==> r.logFile == u.logFile.value) && (u.logFile.Keep? ==> r.logFile == t.logFile)
  {
  }

  /** `createTask` does not look for an existing id: a record appended with an id already in
      the table is shadowed, since every lookup still finds the earlier record. */
  lemma CreateShadowedByExisting(ts: seq<Task>, t: Task)
    requires FindTask(ts, t.id).Some?
    ensures FindTask(ts + [t], t.id) == FindTask(ts, t.id)
    ensures |ts + [t]| == |ts| + 1 && (ts + [t])[|ts|] == t
  {
    assert forall j :: 0 <= j < |ts| ==> (ts + [t])[j] == ts[j];
    var i := Seqs.IndexOf(ts, TaskId, t.id).value;
    assert Seqs.IndexOf(ts + [t], TaskId, t.id) == Some(i);
  }

  /** The table after `updateTask(id, u)`: the first record with the id merged with the patch,
      every other record as it was; the table itself when the id is absent. */
  function Updated(ts: seq<Task>, id: string, u: TaskPatch, now: string): (r: seq<Task>)
    ensures |r| == |ts|
    ensures FindTask(ts, id).None? ==> r == ts
    ensures Seqs.IndexOf(ts, TaskId, id).Some? ==>
      var i := Seqs.IndexOf(ts, TaskId, id).value;
      && r[i] == Merge(ts[i], u, now)
      && forall j :: 0 <= j < |r| && j != i ==> r[j] == ts[j]
  {
    match Seqs.IndexOf(ts, TaskId, id)
    case None => ts
    case Some(i) => ts[i := Merge(ts[i], u, now)]
  }

  /** A patch that leaves the id alone updates the record a lookup finds, and a later lookup
      finds the merged record. */
  lemma UpdatedFind(ts: seq<Task>, id: string, u: TaskPatch, now: string)
    requires u.id.Keep?
    ensures FindTask(Updated(ts, id, u, now), id)
         == if FindTask(ts, id).Some? then Some(Merge(FindTask(ts, id).value, u, now)) else None
  {
    match Seqs.IndexOf(ts, TaskId, id)
    case None =>
    case Some(i) =>
      var r := Updated(ts, id, u, now);
      assert r[i] == Merge(ts[i], u, now) && r[i].id == id;
      assert forall j :: 0 <= j < i ==> r[j] == ts[j];
      assert Seqs.IndexOf(r, TaskId, id) == Some(i);
  }

  /** Only that record changes: lookups of every other id see the same record as before. */
  lemma UpdatedElsewhere(ts: seq<Task>, id: string, u: TaskPatch, now: string, other: string)
    requires u.id.Keep? && other != id
    ensures FindTask(Updated(ts, id, u, now), other) == FindTask(ts, other)
  {
    match Seqs.IndexOf(ts, TaskId, id)
    case None =>
    case Some(i) =>
      var r := ts[i := Merge(ts[i], u, now)];
      assert r == Updated(ts, id, u, now);
      forall j | 0 <= j < |ts| ensures TaskId(ts[j]) == TaskId(r[j]) {
        if j == i {
          MergeFields(ts[i], u, now);
        }
      }
      Seqs.IndexOfSameKeys(ts, r, TaskId, other);
      match Seqs.IndexOf(ts, TaskId, other)
      case None =>
      case Some(k) =>
        assert k != i;
        assert r[k] == ts[k];
  }

  /** Exit code set exactly when the status is terminal: the consistency the store's writers
      keep for every record they create or finish. */
  predicate Consistent(t: Task) {
    t.exitCode.Some? <==> t.status.IsTerminal()
  }

  /** Every record of the table is consistent. */
  ghost predicate AllConsistent(ts: seq<Task>) {
    forall i :: 0 <= i < |ts| ==> Consistent(ts[i])
  }

  /** Patches that keep a consistent record consistent: ones that touch neither status nor exit
      code (the pid update), and ones that set both in agreement (the finishing updates). */
  predicate KeepsConsistent(u: TaskPatch) {
    || (u.status.Keep? && u.exitCode.Keep?)
    || (u.status.Put? && u.exitCode.Put? && (u.exitCode.value.Some? <==> u.status.value.IsTerminal()))
  }

  /** The writers that keep `KeepsConsistent` patches keep the whole table consistent. */
  lemma UpdatedConsistent(ts: seq<Task>, id: string, u: TaskPatch, now: string)
    requires AllConsistent(ts) && KeepsConsistent(u)
    ensures AllConsistent(Updated(ts, id, u, now))
  {
    match Seqs.IndexOf(ts, TaskId, id)
    case None =>
    case Some(i) =>
      assert Consistent(ts[i]);
      var r := Updated(ts, id, u, now);
      assert Consistent(r[i]);
      forall j | 0 <= j < |r| ensures Consistent(r[j]) {
        if j != i {
          assert r[j] == ts[j];
        }
      }
  }

  class TaskStore {
    /** The table, in file order. */
    var tasks: seq<Task>
    /** The project's working directory, under which `.asyncwf/` lives. */
    const cwd: string

    constructor (cwd: string)
      ensures this.cwd == cwd && tasks == []
    {
      this.cwd := cwd;
      tasks := [];
    }

    function GetTask(id: string): (r: Option<Task>)
      reads this
      ensures r == FindTask(tasks, id)
      ensures r.Some? ==> r.value in tasks && r.value.id == id
    {
      FindTask(tasks, id)
    }

    function GetTasksByStatus(s: TaskStatus): (r: seq<Task>)
      reads this
      ensures forall t :: t in r <==> t in tasks && t.status == s
    {
      ByStatus(tasks, s)
    }

    function GetLogPath(jobId: string): string
      reads this
    {
      LogPath(cwd, jobId)
    }

    /** `createTask`: appends one record stamped with `now`; nothing else changes. */
    method CreateTask(n: NewTask, now: string) returns (t: Task)
      modifies this
      ensures t == Stamp(n, now)
      ensures tasks == old(tasks) + [t]
    {
      t := Stamp(n, now);
      tasks := tasks + [t];
    }

    /** `updateTask`: None and no change when the id is absent; otherwise the first record
        with the id is merged with the patch, in place, and returned. */
    method UpdateTask(id: string, u: TaskPatch, now: string) returns (r: Option<Task>)
      modifies this
      ensures tasks == Updated(old(tasks), id, u, now)
      ensures r.None? <==> FindTask(old(tasks), id).None?
      ensures r.Some? ==> r.value == Merge(FindTask(old(tasks), id).value, u, now)
    {
      match Seqs.IndexOf(tasks, TaskId, id)
      case None =>
        r := None;
      case Some(i) =>
        tasks := tasks[i := Merge(tasks[i], u, now)];
        r := Some(tasks[i]);
    }

    /** `deleteTask`: false and no change when the id is absent; otherwise the first record
        with the id is removed and the others keep their order. */
    method DeleteTask(id: string) returns (ok: bool)
      modifies this
      ensures ok <==> exists i :: 0 <= i < |old(tasks)| && old(tasks)[i].id == id
      ensures !ok ==> tasks == old(tasks)
      ensures ok ==> Seqs.RemoveFirst(old(tasks), TaskId, id) == Some(tasks)
    {
      match Seqs.RemoveFirst(tasks, TaskId, id)
      case None =>
        ok := false;
      case Some(rest) =>
        tasks := rest;
        ok := true;
    }
  }
}
