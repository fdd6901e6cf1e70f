/** The records of the job store, the skills index and the knowledge index. Timestamps and
    ISO dates are opaque strings supplied by the caller. */
module Types {
  import opened Wrappers

  datatype TaskStatus = Pending | Running | Done | Failed {
    /** `done` and `failed` are terminal: the job's process is over. */
    predicate IsTerminal() {
      this == Done || this == Failed
    }

    /** The status as it is written in the table and on the command line. */
    function Name(): string {
      match this
      case Pending => "pending"
      case Running => "running"
      case Done => "done"
      case Failed => "failed"
    }
  }

  /** One job record; the optional fields are the ones the source may leave undefined. */
  datatype Task = Task(
    id: string,
    prompt: string,
    skill: Option<string>,
    status: TaskStatus,
    pid: Option<int>,
    exitCode: Option<int>,
    createdAt: string,
    updatedAt: string,
    logFile: Option<string>)

  /** The key the task table is searched by. */
  function TaskId(t: Task): string {
    t.id
  }

  /** A task record without its timestamps: what `createTask` is given. */
  datatype NewTask = NewTask(
    id: string,
    prompt: string,
    skill: Option<string>,
    status: TaskStatus,
    pid: Option<int>,
    exitCode: Option<int>,
    logFile: Option<string>)

  /** One property of a partial update: absent (`Keep`) or present with a value, which for an
      optional field may itself be `undefined` (`Put(None)`). */
  datatype Field<T> = Keep | Put(value: T) {
    function Or(current: T): T {
      if Put? then value else current
    }
  }

  /** `Partial<Task>` as `updateTask` receives it. `updatedAt` is left out because the store
      overwrites it on every update whatever the caller sends. */
  datatype TaskPatch = TaskPatch(
    id: Field<string>,
    prompt: Field<string>,
    skill: Field<Option<string>>,
    status: Field<TaskStatus>,
    pid: Field<Option<int>>,
    exitCode: Field<Option<int>>,
    createdAt: Field<string>,
    logFile: Field<Option<string>>)

  /** The patch that sets only the status and the exit code. */
  function Finish(status: TaskStatus, exitCode: int): TaskPatch {
    TaskPatch(Keep, Keep, Keep, Put(status), Keep, Put(Some(exitCode)), Keep, Keep)
  }

  /** The patch that sets only the pid (possibly to `undefined`). */
  function SetPid(pid: Option<int>): TaskPatch {
    TaskPatch(Keep, Keep, Keep, Keep, Put(pid), Keep, Keep, Keep)
  }

  /** A skill as `getSkill` and `addSkill` return it. */
  datatype Skill = Skill(
    name: string,
    description: string,
    tags: seq<string>,
    version: string,
    content: string,
    filePath: string)

  /** One entry of the skills index file. */
  datatype SkillEntry = SkillEntry(name: string, description: string, tags: seq<string>, filePath: string)

  function SkillName(e: SkillEntry): string {
    e.name
  }

  /** A knowledge entry as `getKnowledge` and `learnKnowledge` return it. The source field is
      typed as three literals but is whatever string the file or the caller holds. */
  datatype KnowledgeEntry = KnowledgeEntry(
    topic: string,
    created: string,
    updated: string,
    source: string,
    content: string,
    filePath: string)

  /** One entry of the knowledge index file. */
  datatype KnowledgeIndexEntry = KnowledgeIndexEntry(topic: string, created: string, updated: string, filePath: string)

  function TopicOf(e: KnowledgeIndexEntry): string {
    e.topic
  }
}
