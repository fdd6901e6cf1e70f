# asyncwf job bookkeeping, in Dafny

A model of the part of `asyncwf` that sits behind `asyncwf taskmgr`. It covers:

- the task table kept in `.asyncwf/tasks.json`;
- the job lifecycle of `dispatchAgent`, `killAgent` and `waitForJobs`;
- the checks and parsing of the `dispatch`, `list`, `wait`, `fetch` and `kill` actions;
- the skill and knowledge stores under `~/.ckb`;
- the instruction-file templates;
- the spec summary logic of `asyncwf link`.

Each of these has properties proved about it.

Layout, one module per file:

| file | module | models |
|---|---|---|
| `wrappers.dfy` | `Wrappers` | `Option` and `Result` |
| `seqs.dfy` | `Seqs` | `find`, `findIndex`, `splice` and the replace-or-append index update over keyed sequences |
| `types.dfy` | `Types` | the records of `src/types.ts`, plus the `Partial<Task>` patch |
| `text.dfy` | `Text` | JavaScript's `trim`, `includes`, `split`, `join`, `endsWith` and ASCII `toLowerCase`; the frontmatter, `key:\s*(.+)` and `^#\s+(.+)$` regular expressions, written out with the engine's backtracking |
| `state.dfy` | `State` | `src/lib/state.ts`, as the class `TaskStore` over a sequence of tasks |
| `skills.dfy` | `Skills` | `src/lib/skills.ts`, as the class `SkillStore` over the index and a path-to-text map of files |
| `knowledge.dfy` | `Knowledge` | `src/lib/knowledge.ts`, as the class `KnowledgeStore` |
| `agent.dfy` | `Agent` | `src/lib/agent.ts`, as the class `AgentRunner` holding the `processes` map |
| `taskmgr.dfy` | `Taskmgr` | the action handlers of `src/commands/taskmgr.ts` |
| `templates.dfy` | `Templates` | `src/lib/templates.ts` |
| `link.dfy` | `Link` | the spec scan and `claude.md` regeneration of `src/commands/link.ts` |

Modelling choices:

- **Processes are abstract events.**
  - A spawn is an outcome passed to `DispatchAgent`: a started child with a possibly undefined pid, or a throw.
  - The child's `exit` and `error` events are the methods `OnExit` and `OnError`.
  - SIGTERM delivery to a pid is an outcome: delivered, or throws.
- **Timestamps and dates are opaque strings.** Each operation is given one `now`.
- **`waitForJobs` takes its clock and tables as inputs.** It receives:
  - the clock readings it takes;
  - the table each poll sees;
  - the table of the final lookup.
- **The file system is a map from path to text.** The home and working directories are strings.

Behaviour of the code worth knowing:

- **`createTask` does not reject an existing id.** It appends. Only `handleDispatch`'s pre-check keeps ids unique (`State.CreateShadowedByExisting`, `Taskmgr.DispatchKeepsIdsUnique`).
- **The `--agent` option does not choose the agent.**
  - `handleDispatch` validates it against `claude`, `codex` and `gemini`, and passes it as a fourth argument.
  - `dispatchAgent` has three parameters and takes the command from `ASYNCWF_AGENT` (default `claude`).
  - There is no per-agent command table, and a task has no `agent` field.
- **`dispatchAgent` returns the record as first created.** That record has status `running` and no pid, not the pid-carrying record written afterwards.
- **A job whose recorded pid is 0 cannot be killed through its pid.** `killAgent` tests the pid for truthiness.
- **`waitForJobs` silently drops ids that have no record.** They are not reported as not found.
- **Status is not monotonic in the code.** An `exit` event that arrives after `killAgent` overwrites `failed`. What is preserved is that an exit code is present exactly when the status is terminal (`State.UpdatedConsistent`).
- **Nothing ever writes the status `pending`.**
- **`getSkill`'s version and `getKnowledge`'s source come from the first match of `version:`/`source:` anywhere in the frontmatter.** This can be inside another field. The read-back lemmas therefore assume the fields written before that line do not contain the key.
- **Skill and knowledge files are located by name/topic.** The `filePath` stored in the index is never read.

## Model

| member | source | states |
|---|---|---|
| `Seqs.IndexOf` | src/lib/state.ts:75 | `findIndex`: the position of the first record with the key, or none exactly when no record has it |
| `Seqs.IndexOfSameKeys` | src/lib/state.ts:89 | two tables with the same key at every position find every key at the same position |
| `Seqs.Find` | src/lib/state.ts:47 | `find`: some record iff some record has the key; the result has the key and every earlier record has not |
| `Seqs.RemoveAt` | src/lib/state.ts:92 | `splice(i, 1)`: one record shorter, the records before and after `i` keep their order, the multiset loses exactly the removed record |
| `Seqs.Upsert` | src/lib/skills.ts:110-123 | replace-in-place at the first record with the key, else append; every other record is unchanged |
| `Seqs.UpsertThenFind` | src/lib/skills.ts:110-123 | after an upsert, looking the key up finds the new record, at the old record's position or at the end |
| `Seqs.UpsertKeepsKeysUnique` | src/lib/knowledge.ts:111-125 | an upsert never creates a duplicate key |
| `Seqs.RemoveFirst` | src/lib/state.ts:87-94 | none iff no record has the key; otherwise the table with the first such record spliced out |
| `Seqs.RemoveFirstUnique` | src/lib/skills.ts:137-150 | with unique keys, removing the first match leaves no record with the key |
| `State.LogPath` | src/lib/state.ts:97-103 | the log path is the logs directory, `/`, the job id and `.log` |
| `State.LogPathInjective` | src/lib/state.ts:101-103 | distinct job ids without a `/` have distinct log paths (ids with `/` are outside what the concatenation models, see below) |
| `State.FindTask` | src/lib/state.ts:45-48 | `getTask`: the first record with the id, or none exactly when no record has it |
| `State.ByStatus` | src/lib/state.ts:55-58 | `getTasksByStatus`: exactly the records with the status |
| `State.ByStatusAppend` | src/lib/state.ts:55-58 | the status filter distributes over concatenation, so it keeps table order |
| `State.Stamp` | src/lib/state.ts:60-67 | the created record has the given fields and `createdAt == updatedAt == now` |
| `State.MergeFields` | src/lib/state.ts:78-82 | a merged record takes every field present in the patch, keeps every other field, and has `updatedAt == now` |
| `State.CreateShadowedByExisting` | src/lib/state.ts:60-71 | appending a record whose id exists adds it at the end, but lookups still find the earlier record |
| `State.Updated` | src/lib/state.ts:73-84 | an update keeps the table length; it leaves the table unchanged when the id is absent; otherwise only the first record with the id changes, to the merged record, and every other position, including later records with the same id, keeps its record |
| `State.UpdatedFind` | src/lib/state.ts:75-84 | after an update, a lookup of the id finds the merged record, or none when the id was absent |
| `State.UpdatedElsewhere` | src/lib/state.ts:75-84 | an update changes what no other id looks up |
| `State.UpdatedConsistent` | src/lib/state.ts:73-84 | patches that set status and exit code together, or touch neither, keep "exit code present iff terminal" for the whole table |
| `State.TaskStore.constructor` | src/lib/state.ts:20-35 | a fresh store has an empty table |
| `State.TaskStore.GetTask` | src/lib/state.ts:45-48 | the first record with the id, which is in the table and has that id |
| `State.TaskStore.GetTasksByStatus` | src/lib/state.ts:55-58 | exactly the table's records with the status |
| `State.TaskStore.GetLogPath` | src/lib/state.ts:101-103 | `getLogPath` for this project: `LogPath` of the store's working directory (see `State.LogPathInjective`) |
| `State.TaskStore.CreateTask` | src/lib/state.ts:60-71 | appends exactly the stamped record at the end; nothing else changes |
| `State.TaskStore.UpdateTask` | src/lib/state.ts:73-85 | none and no change when the id is absent; otherwise the table becomes `Updated` and the merged record is returned |
| `State.TaskStore.DeleteTask` | src/lib/state.ts:87-95 | true iff some record has the id; false leaves the table alone; true removes exactly the first match |
| `Text.TrimStart` | src/lib/skills.ts:77-78 | strips exactly the leading white space: a suffix of the input, what it drops is all white space, and it starts with a non-space character or is empty |
| `Text.TrimEnd` | src/lib/skills.ts:77-78 | strips exactly the trailing white space: a prefix of the input, what it drops is all white space, and it ends with a non-space character or is empty |
| `Text.Trim` | src/lib/skills.ts:77-78 | `trim`: no longer than the input; starts and ends with a non-space character, or is empty |
| `Text.IsSpace` | src/lib/skills.ts:77 | the characters JavaScript's `trim` strips: its WhiteSpace set (tab, vertical tab, form feed, space, no-break space, the byte order mark, the Unicode space separators) and its line terminators |
| `Text.TrimSlice` | src/lib/skills.ts:77-78 | the trim is a slice of the input with only white space around it |
| `Text.TrimPadded` | src/lib/skills.ts:78 | trimming a text padded with white space gives the text's own trim |
| `Text.Includes` | src/lib/knowledge.ts:146 | `includes`: true iff the pattern occurs at some position |
| `Text.FindFrom` | src/commands/link.ts:65 | the first position at or after `from` where the pattern occurs, or none when it occurs nowhere from there |
| `Text.Split` | src/commands/taskmgr.ts:128 | `split` on one character: at least one piece, none containing the separator |
| `Text.JoinSplit` | src/commands/taskmgr.ts:128 | joining the pieces with the separator gives the original text |
| `Text.SplitJoin` | src/commands/taskmgr.ts:128 | splitting a join of separator-free pieces gives the pieces back |
| `Text.Join` | src/lib/skills.ts:98 | `parts.join(sep)`; `Text.JoinAt` places each part, and `Text.Split` undoes it for a one-character separator that no part contains (`Text.SplitJoin`, with `Text.JoinSplit` the other way round) |
| `Text.EndsWith` | src/commands/link.ts:20 | `s.endsWith(p)`: the last `|p|` characters of `s` are `p` |
| `Text.Lower` | src/lib/knowledge.ts:142 | `toLowerCase` keeps the length and maps every character |
| `Text.CaptureRest` | src/lib/skills.ts:71 | `\s*(.+)` from a position: a captured value is non-empty and holds no line terminator |
| `Text.CaptureRestSome` | src/lib/skills.ts:71 | a captured value is a whole line remainder after the required white space |
| `Text.CaptureRestNone` | src/lib/skills.ts:71 | `\s*(.+)` fails iff every place the white space can stop is a line terminator |
| `Text.KeyMatchFrom` | src/lib/knowledge.ts:71 | the first position at or after `from` where `key:\s*(.+)` matches, or none when it matches nowhere from there |
| `Text.KeyValue` | src/lib/skills.ts:71 | the value captured by `key:\s*(.+)` is non-empty and on one line |
| `Text.KeyValueSome` | src/lib/knowledge.ts:71 | the pattern yields a value iff it matches at some position |
| `Text.HeadingFrom` | src/commands/link.ts:57 | the first line start at or after `from` where `^#\s+(.+)$` matches, or none when it matches nowhere from there |
| `Text.Heading` | src/commands/link.ts:57 | `^#\s+(.+)$` with the `m` flag yields a value iff it matches somewhere; the value is non-empty and on one line |
| `Text.SplitFrontmatter` | src/lib/skills.ts:55 | the file is `---\n` + block + `\n---\n` + body, and the block holds no earlier closing delimiter; none iff the file does not open with `---\n` or has no closing delimiter |
| `Text.FrontmatterRoundTrip` | src/lib/skills.ts:95-104 | a block with no newline followed by `-` reads back as the block and the body that were written |
| `Text.KeyLineValue` | src/lib/knowledge.ts:98-103 | a `key value` line written after text that does not contain the key reads back as the value, up to white space; a value that is the last line may be blank |
| `Skills.VersionOf` | src/lib/skills.ts:71-77 | the trimmed `version:` value, else `1.0`; never starts with white space |
| `Skills.SkillPath` | src/lib/skills.ts:49 | `join(getSkillsDir(), name + '.md')`, as a concatenation (see `State.LogPath` under Left out) |
| `Skills.SkillHeader` | src/lib/skills.ts:96-100 | the frontmatter lines `addSkill` writes; it closes the block only at the written delimiter (`Skills.HeaderLayout`) and its version reads back as `1.0` (`Skills.HeaderVersion`) |
| `Skills.SkillFile` | src/lib/skills.ts:95-104 | the file `addSkill` writes; it reads back through `getSkill`'s parsing as version `1.0` and the trimmed content (`Skills.SkillFileRoundTrip`) |
| `Skills.DefaultVersionTrimmed` | src/lib/skills.ts:77 | the default version `1.0` is one line and its own trim |
| `Skills.HeaderLayout` | src/lib/skills.ts:95-100 | with single-line fields, the frontmatter `addSkill` writes has no line starting with `-`, so nothing inside it closes the block early |
| `Skills.ReadSkill` | src/lib/skills.ts:44-81 | `getSkill`: none iff the name is not indexed or its file is missing; description and tags from the index entry; without frontmatter the whole file at version `1.0`; with it the trimmed body and `VersionOf` the block |
| `Skills.HeaderVersion` | src/lib/skills.ts:95-100 | the version line `addSkill` writes reads back as `1.0` |
| `Skills.SkillFileRoundTrip` | src/lib/skills.ts:95-104 | the file `addSkill` writes has frontmatter, version `1.0`, and reads back as the trimmed content |
| `Skills.AddThenRead` | src/lib/skills.ts:83-135 | after `addSkill`, `getSkill` gives the skill as added with its content trimmed |
| `Skills.FormatSkillForPrompt` | src/lib/skills.ts:153-159 | starts with `[SKILL: name]`, ends with `[/SKILL]`, contains the content, and has a `Description:` line iff the description is non-empty |
| `Skills.SkillStore.constructor` | src/lib/skills.ts:30-34 | the store holds the given index and files |
| `Skills.SkillStore.GetSkill` | src/lib/skills.ts:44-81 | `getSkill` on the store's current index and files: `Skills.ReadSkill` |
| `Skills.SkillStore.AddSkill` | src/lib/skills.ts:83-135 | writes the file, upserts the index entry, returns the skill as given at version `1.0`, and a later `getSkill` reads it back |
| `Skills.SkillStore.DeleteSkill` | src/lib/skills.ts:137-151 | false and no change for an unindexed name; otherwise the first entry is spliced out and the file removed; afterwards the skill does not read back |
| `Knowledge.SourceOf` | src/lib/knowledge.ts:71-77 | the trimmed `source:` value, else `model-learned` |
| `Knowledge.KnowledgePath` | src/lib/knowledge.ts:49 | `join(getKnowledgeDir(), topic + '.md')`, as a concatenation (see `State.LogPath` under Left out) |
| `Knowledge.KnowledgeHeader` | src/lib/knowledge.ts:99-102 | the frontmatter lines `learnKnowledge` writes; it closes the block only at the written delimiter (`Knowledge.HeaderLayout`) and its source reads back trimmed (`Knowledge.HeaderSource`) |
| `Knowledge.KnowledgeFile` | src/lib/knowledge.ts:98-106 | the file `learnKnowledge` writes; it reads back as the trimmed source and content (`Knowledge.KnowledgeFileRoundTrip`) |
| `Knowledge.LearnedEntry` | src/lib/knowledge.ts:114-119 | the index entry `learnKnowledge` upserts: the topic, the kept `created` date (`Knowledge.CreatedKept`), today as `updated`, and the path |
| `Knowledge.ReadKnowledge` | src/lib/knowledge.ts:44-50 | `getKnowledge`: none iff the topic is not indexed or its file is missing |
| `Knowledge.ReadKnowledgeFields` | src/lib/knowledge.ts:52-80 | dates from the index entry; without frontmatter the whole file with source `model-learned`; with it the trimmed body and `SourceOf` the block |
| `Knowledge.CreatedFor` | src/lib/knowledge.ts:94-95 | the existing entry's non-empty `created` date, else today |
| `Knowledge.CreatedKept` | src/lib/knowledge.ts:91-95 | learning a topic again keeps the date it was first learned |
| `Knowledge.HeaderLayout` | src/lib/knowledge.ts:98-103 | with single-line fields, the frontmatter `learnKnowledge` writes has no line starting with `-` |
| `Knowledge.HeaderSource` | src/lib/knowledge.ts:98-103 | the source line `learnKnowledge` writes reads back as the trimmed source |
| `Knowledge.KnowledgeFileRoundTrip` | src/lib/knowledge.ts:98-106 | the file `learnKnowledge` writes has frontmatter and reads back as the trimmed source and content |
| `Knowledge.LearnThenRead` | src/lib/knowledge.ts:83-137 | after `learnKnowledge`, `getKnowledge` gives the topic with the preserved `created` date, today's `updated`, and the trimmed source and content |
| `Knowledge.Hit` | src/lib/knowledge.ts:146-159 | one index entry adds nothing or one result with its topic |
| `Knowledge.SearchIn` | src/lib/knowledge.ts:144-161 | no more results than entries |
| `Knowledge.SearchSound` | src/lib/knowledge.ts:146-158 | every result is what `getKnowledge` gives for its topic, and comes from an entry that matches the query on topic or file |
| `Knowledge.SearchComplete` | src/lib/knowledge.ts:146-158 | every matching entry whose topic reads back is among the results |
| `Knowledge.Pos` | src/lib/knowledge.ts:144 | the position of the first index entry with the topic, or -1 when none has it |
| `Knowledge.SearchWithin` | src/lib/knowledge.ts:144-161 | every result over a prefix of the index is first indexed inside that prefix |
| `Knowledge.SearchOrderedIn` | src/lib/knowledge.ts:144-150 | over any prefix of an index with unique topics, results follow index order |
| `Knowledge.SearchOrdered` | src/lib/knowledge.ts:144-150 | with unique topics, results follow index order and hold each topic at most once |
| `Knowledge.KnowledgeStore.constructor` | src/lib/knowledge.ts:30-34 | the store holds the given index and files |
| `Knowledge.KnowledgeStore.GetKnowledge` | src/lib/knowledge.ts:44-81 | `getKnowledge` on the store's current index and files: `Knowledge.ReadKnowledge` |
| `Knowledge.KnowledgeStore.LearnKnowledge` | src/lib/knowledge.ts:83-137 | writes the file, upserts the entry with the preserved `created` date, returns the entry as given, and a later `getKnowledge` reads it back |
| `Knowledge.KnowledgeStore.SearchKnowledge` | src/lib/knowledge.ts:139-164 | the loop's results are `SearchIn` over the whole index with the lower-cased query |
| `Knowledge.KnowledgeStore.DeleteKnowledge` | src/lib/knowledge.ts:166-180 | false and no change for an unindexed topic; otherwise the first entry is spliced out and the file removed; afterwards the topic does not read back |
| `Templates.WithContext` | src/lib/templates.ts:144-150 | an empty context adds nothing; otherwise the `## Project Context` section follows the base text |
| `Templates.ContextLaw` | src/lib/templates.ts:130-211 | each of the three generators is its context-free output, plus the context section exactly when the context is non-empty |
| `Templates.GenerateClaudeMD` | src/lib/templates.ts:130-153 | `generateClaudeMD`: the title and the five blocks joined by blank lines, then the context section exactly when the context is non-empty (`Templates.ContextLaw`, `Templates.BlocksInOrder` with no role) |
| `Templates.GenerateGeminiMD` | src/lib/templates.ts:155-182 | `generateGeminiMD`: as the claude file with its own title and the frontend role after the persona (`Templates.ContextLaw`, `Templates.BlocksInOrder` with one role) |
| `Templates.GenerateCodexMD` | src/lib/templates.ts:184-211 | `generateCodexMD`: as the claude file with its own title and the integrator role after the persona (`Templates.ContextLaw`, `Templates.BlocksInOrder` with one role) |
| `Templates.SectionAt` | src/lib/templates.ts:131-142 | each section of a generated file sits at its offset in the blank-line join |
| `Templates.BlocksInOrder` | src/lib/templates.ts:133-141 | persona, selection guide, multi-agent protocol, parallel protocol and file-watch directive appear in that order, separated by blank lines |
| `Templates.ProjectContext` | src/lib/templates.ts:213-221 | empty iff there are no specs; otherwise it starts with the fixed header |
| `Templates.SpecLine` | src/lib/templates.ts:218 | one spec's `- **name**: summary` line; placed by `Templates.SpecLineAt` |
| `Templates.SpecLines` | src/lib/templates.ts:217-219 | the spec lines in input order; `Templates.SpecLinesPrefix` and `Templates.SpecLineAt` fix each line's place |
| `Templates.SpecLinesPrefix` | src/lib/templates.ts:217-219 | the lines of a prefix of the specs begin the lines of all of them |
| `Templates.SpecLineAt` | src/lib/templates.ts:216-220 | spec `i`'s `- **name**: summary` line follows the header and the lines of the specs before it |
| `Templates.GenerateProjectContext` | src/lib/templates.ts:213-221 | the accumulating loop computes `ProjectContext` |
| `Link.SpecFiles` | src/commands/link.ts:20 | exactly the listed names ending in `.md`, and no more of them than the listing has |
| `Link.SpecFilesAppend` | src/commands/link.ts:20 | the filter distributes over concatenation, so it keeps the listing's order and repetitions |
| `Link.FirstNonBlankFrom` | src/commands/link.ts:53 | the first line from `from` whose trim is non-empty, or none when all are blank |
| `Link.FirstNonBlank` | src/commands/link.ts:53 | none iff every line is blank; otherwise the first line whose trim is non-empty |
| `Link.Take` | src/commands/link.ts:61 | `slice(0, n)`: a prefix of length `min(|s|, n)` |
| `Link.Summary` | src/commands/link.ts:53-62 | the first heading's text; else the first non-blank line cut to its first 100 characters (the whole line when shorter); else `No description` |
| `Link.SpecName` | src/commands/link.ts:65 | `replace('.md', '')` removes the first `.md`, wherever it is, and leaves a name without one unchanged |
| `Link.NoEarlierSuffix` | src/commands/link.ts:65 | in a name without `.md`, with `.md` appended, no `.md` starts before the appended one |
| `Link.SpecNameRestores` | src/commands/link.ts:65 | a name with no `.md` inside, given `.md` back, is named by itself |
| `Link.SpecsOf` | src/commands/link.ts:50-68 | one spec per file, in order, with its name and summary |
| `Link.BuildSpecs` | src/commands/link.ts:49-68 | the loop computes `SpecsOf` the `.md` files of the listing |
| `Link.LinkClaudeMD` | src/commands/link.ts:72-75 | `claude.md` is `generateClaudeMD(generateProjectContext(specs))` |
| `Link.ContextIffSpecFiles` | src/commands/link.ts:20-75 | `claude.md` has a project context exactly when the directory lists a `.md` file |
| `Agent.ResolveSkill` | src/lib/agent.ts:18-20 | no skill for an absent or empty name; otherwise `getSkill`'s result, which carries that name |
| `Agent.FullPrompt` | src/lib/agent.ts:17-23 | the prompt is a suffix; without a skill it is the prompt itself; with one it is the skill block, a blank line, then the prompt |
| `Agent.FullPromptStartsWithSkill` | src/lib/agent.ts:21 | a resolved skill opens the prompt with its `[SKILL: name]` line |
| `Agent.AgentCommand` | src/lib/agent.ts:46 | `ASYNCWF_AGENT || 'claude'`: `claude` iff the variable is unset, empty or `claude`; otherwise the variable |
| `Agent.AgentArgs` | src/lib/agent.ts:47-49 | the prompt is the last argument; two arguments, the first `-p`, iff the command is `claude` |
| `Agent.ExitPatch` | src/lib/agent.ts:71-74 | `done` iff the code is 0, else `failed`; the exit code is the code, or -1 when there is none |
| `Agent.LifecyclePatchesConsistent` | src/lib/agent.ts:65-96 | the pid, exit and abort patches all keep records consistent |
| `Agent.AppendUpdateConsistent` | src/lib/agent.ts:36-65 | appending a consistent record and then patching it keeps the table consistent |
| `Agent.SpawnPatch` | src/lib/agent.ts:64-96 | a started child's pid is recorded; a throw fails the record with -1 |
| `Agent.Truthy` | src/lib/agent.ts:116 | `if (task.pid)`: a pid is usable iff it is defined and not 0; decides `KillAgent`'s pid branch |
| `Agent.RunningRecord` | src/lib/agent.ts:32-42 | the record created before the spawn: the job id, the full prompt, the skill name, `running`, no pid, no exit code, and the log path |
| `Agent.Found` | src/lib/agent.ts:137-138 | the records of the requested ids that exist: empty iff none exists, each from a requested id and found by it |
| `Agent.FoundComplete` | src/lib/agent.ts:137-138 | every requested id with a record contributes that record |
| `Agent.FoundAppend` | src/lib/agent.ts:137-138 | the lookup distributes over concatenation of id lists, so it keeps request order |
| `Agent.AllFinished` | src/lib/agent.ts:141-143 | `every(t => done || failed)`: vacuously true of no records; decides the early return in `Agent.PollReturnsFirstFinished` and `Agent.PollTimesOut` |
| `Agent.Poll` | src/lib/agent.ts:136-155 | the result is the records of a poll at which all were finished, or the final lookup; an unfinished result is always the final lookup |
| `Agent.PollReturnsFirstFinished` | src/lib/agent.ts:136-147 | when every poll up to `j` runs before the deadline and `j` is the first at which every found record is done or failed, the wait returns poll `j`'s records |
| `Agent.PollTimesOut` | src/lib/agent.ts:136-155 | when no poll before the deadline finds every record finished, the wait returns the final lookup |
| `Agent.PollStep` | src/lib/agent.ts:141-150 | a poll within the deadline that finds an unfinished record goes on to the next poll |
| `Agent.PollDeadline` | src/lib/agent.ts:136-155 | at or past the deadline, the wait returns the final lookup |
| `Agent.NothingFoundReturnsAtOnce` | src/lib/agent.ts:141-147 | when no requested id has a record at the first poll, the wait returns at once with nothing |
| `Agent.WaitForJobs` | src/lib/agent.ts:129-156 | the polling loop computes `Poll`, so it returns at the first all-finished poll within the deadline (`PollReturnsFirstFinished`) and otherwise the final lookup (`PollTimesOut`) |
| `Agent.AgentRunner.constructor` | src/lib/agent.ts:9 | no live handles at start |
| `Agent.AgentRunner.DispatchAgent` | src/lib/agent.ts:11-100 | returns the running record as created, with the command and arguments; registers a started child; the table gains the record and then the spawn's patch; consistency is kept |
| `Agent.AgentRunner.OnExit` | src/lib/agent.ts:68-75 | the handle goes; the record gets the exit patch, so it reads `done`/`failed` with the code or -1; consistency is kept |
| `Agent.AgentRunner.OnError` | src/lib/agent.ts:77-85 | the handle goes; the record fails with -1; consistency is kept |
| `Agent.AgentRunner.KillAgent` | src/lib/agent.ts:102-127 | unknown job: false. Live unkilled handle: dropped, true. Otherwise true iff the pid is truthy and the signal delivered. True fails the record with -1 (the `Abort` patch); false changes nothing. Consistent records stay consistent |
| `Taskmgr.Given` | src/commands/taskmgr.ts:50-59 | an option is truthy iff present and non-empty; every handler's `if (!opt)` check uses it (`Taskmgr.CheckDispatch`, `Taskmgr.Fetch`) |
| `Taskmgr.CheckDispatch` | src/commands/taskmgr.ts:50-71 | each refusal holds exactly when its check is the first to fail: job or prompt missing, agent not among the three, or job id already present; no refusal exactly when all pass |
| `Taskmgr.HandleDispatch` | src/commands/taskmgr.ts:47-91 | a refusal changes nothing. Otherwise it returns the stamped `running` record with the full prompt, the skill name and the log path; the table gains that record and then the spawn's patch; a started child is registered and a throw registers nothing; unique ids stay unique |
| `Taskmgr.DispatchKeepsIdsUnique` | src/commands/taskmgr.ts:66-81 | appending a new id and patching it keeps ids unique |
| `Taskmgr.ByStatusName` | src/commands/taskmgr.ts:97-98 | the records whose status is written as the given string |
| `Taskmgr.ByKnownStatusName` | src/commands/taskmgr.ts:97-98 | filtering by a status's name is `getTasksByStatus` of that status |
| `Taskmgr.ListTasks` | src/commands/taskmgr.ts:96-101 | the whole table without `--status`; otherwise the records with that status |
| `Taskmgr.UnknownStatusListsNothing` | src/commands/taskmgr.ts:97-98 | a status naming none of the four lists nothing |
| `Taskmgr.WaitIds` | src/commands/taskmgr.ts:128 | one id per comma-separated piece, each trimmed, in order |
| `Taskmgr.WaitIdsJoin` | src/commands/taskmgr.ts:128 | trimmed comma-free ids written comma-separated read back as written |
| `Taskmgr.TimeoutOf` | src/commands/taskmgr.ts:129 | 300000 when no timeout is given; otherwise the given value |
| `Taskmgr.HandleWait` | src/commands/taskmgr.ts:120-142 | nothing without `--jobs`; otherwise the wait on the parsed ids and timeout, with the early return and the timeout of `PollReturnsFirstFinished` and `PollTimesOut` |
| `Taskmgr.Fetch` | src/commands/taskmgr.ts:144-170 | no job given, not found (log not consulted), no log file, or the status and log, each exactly in its case |
| `Taskmgr.HandleKill` | src/commands/taskmgr.ts:172-187 | nothing without `--job`; otherwise true iff the job exists and either has a live unkilled handle or a truthy pid the signal reached; true drops a live handle and fails the record with -1; false changes nothing |

## Left out

- Spawning, stream piping, `detached`/`unref` and SIGTERM delivery are abstract outcomes and events, as described above. Log file contents written by the streams are not modelled.
- lowdb persistence and the module-level `db` cache are left out. The table is a field that every operation reads afresh.
- Clocks and the one-second sleep are left out. `Date.now()` readings are inputs to `WaitForJobs`.
- `Agent.WaitForJobs`: requires that the last clock reading given reaches the deadline. This stands for time passing, so the loop over the given readings ends. It says nothing about real-time bounds.
- `Taskmgr.HandleWait`: carries the same requirement on the clock readings.
- `Taskmgr.TimeoutOf`: takes the timeout already parsed. `parseInt` of a non-numeric string (NaN) is not modelled.
- `Text.Lower`: lower-cases ASCII letters only. JavaScript's full Unicode case mapping is not modelled.
- `Skills.SkillStore.AddSkill`: promises the read-back only when the written fields are single lines and no `version:` appears before the version line. Otherwise the source reads back whatever the first match gives.
- `Knowledge.KnowledgeStore.LearnKnowledge`: promises the read-back only under the same condition, for `source:`.
- `Agent.AgentArgs`: the source spawns with `shell: true`, so Node joins the command and the arguments with spaces and runs the line through `/bin/sh -c`. The full prompt, skill block included, is then split into words and shell-expanded (quotes, `$(...)`, `;`). The agent does not receive `args` as its argument vector. The model states the array the source builds, not what the agent receives.
- The race between an `exit` event and `killAgent`, and lost updates between two orchestrators sharing `tasks.json`, are not modelled. Events are applied one at a time.
- `Agent.AgentRunner.DispatchAgent`: the source attaches the `exit` and `error` listeners only after awaiting the pid update. A child that ends during that wait emits `exit` with no listener, so its record stays `running` for good. The model treats `Agent.AgentRunner.OnExit` as always deliverable and does not capture this lost event.
- `State.LogPath`: concatenates the logs directory, `/`, the id and `.log`, where the source calls `path.join`, which normalises `.`, `..` and repeated `/`. The two agree for ids without `/`. For others the source may map two ids to one file, or leave the logs directory (`../x`). `Skills.SkillPath` and `Knowledge.KnowledgePath` concatenate names and topics in the same way.
- `Link.Take`: counts characters, where JavaScript's `slice(0, 100)` counts UTF-16 code units. A line with characters outside the Basic Multilingual Plane (emoji, say) is cut at a different place.
- `Link.Summary`: inherits the difference in `Link.Take`'s character counting.
- In a fresh CLI process the `processes` map is empty, so `killAgent` from `asyncwf taskmgr kill` always takes the pid path. The model keeps the map general.
- In `dispatchAgent` the `running` record and the pid update carry the same `now`. The source reads the clock twice.
- Console output, chalk colouring and JSON printing are left out. Handlers return what they would report.
- The `taskmgrCommand` action switch is left out; each handler is modelled on its own.
- `getAllTasks` is the `tasks` field itself, so it has no member of its own.
- The file-system side of `asyncwf link` is left out: the symlink into `~/.ckb/projects`, the missing-`specs/` exit, and the directory read. The model starts from the listing and the file texts.
- `ensureSkillsDir`/`ensureKnowledgeDir` directory creation and `listSkills`/`listKnowledge` are left out. They return the index field.
- `src/commands/agent.ts` (probing external binaries), `src/commands/init.ts`, `src/commands/kb.ts`, `src/commands/skill.ts` and `src/index.ts` are not part of this model.
- The five template blocks are parameters rather than their literal texts. The generators' assembly is proved for any blocks.
- Regular expressions are modelled only in the three shapes the source uses. There is no general regex engine.
