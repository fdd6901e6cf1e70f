/** The skill store of `src/lib/skills.ts`: an index of entries kept in `_index.json` and one
    markdown file per skill under `~/.ckb/skills`. The file system is a map from path to text. */
module Skills {
  import opened Wrappers
  import opened Seqs
  import opened Text
  import opened Types

  function SkillsDir(home: string): string {
    home + "/.ckb/skills"
  }

  /** `join(getSkillsDir(), name + ".md")`: the file is found by name, not by the index entry's path. */
  function SkillPath(home: string, name: string): string {
    SkillsDir(home) + "/" + name + ".md"
  }

  const DefaultVersion: string := "1.0"
  const VersionKey: string := "version:"

  /** The version `getSkill` reads from a frontmatter block: the trimmed capture of
      `version:\s*(.+)`, or the default when there is none. */
  function VersionOf(fm: string): (v: string)
    ensures KeyValue(fm, VersionKey).None? ==> v == DefaultVersion
    ensures KeyValue(fm, VersionKey).Some? ==> v == Trim(KeyValue(fm, VersionKey).value)
    ensures v == [] || !IsSpace(v[0])
  {
    match KeyValue(fm, VersionKey)
    case Some(raw) => Trim(raw)
    case None => DefaultVersion
  }

  /** `getSkill(name)`: None when the name is not indexed or its file is missing; otherwise
      description and tags from the first index entry with that name, and content and version
      from the file, falling back to the whole file and the default version when the file has
      no frontmatter block. */
  function ReadSkill(index: seq<SkillEntry>, files: map<string, string>, home: string, name: string): (r: Option<Skill>)
    ensures r.None? <==> Find(index, SkillName, name).None? || SkillPath(home, name) !in files
    ensures r.Some? ==>
      var e := Find(index, SkillName, name).value;
      var file := files[SkillPath(home, name)];
      && r.value.name == name && e.name == name
      && r.value.description == e.description && r.value.tags == e.tags
      && r.value.filePath == SkillPath(home, name)
      && (SplitFrontmatter(file).None? ==> r.value.content == file && r.value.version == DefaultVersion)
      && (SplitFrontmatter(file).Some? ==>
            r.value.content == Trim(SplitFrontmatter(file).value.1)
            && r.value.version == VersionOf(SplitFrontmatter(file).value.0))
  {
    match Find(index, SkillName, name)
    case None => None
    case Some(e) =>
      var path := SkillPath(home, name);
      if path !in files then None
      else
        var file := files[path];
        match SplitFrontmatter(file)
        case None => Some(Skill(name, e.description, e.tags, DefaultVersion, file, path))
        case Some((fm, body)) => Some(Skill(name, e.description, e.tags, VersionOf(fm), Trim(body), path))
  }

  /** The frontmatter lines `addSkill` writes before its `version:` line. */
  function LinesBeforeVersion(name: string, description: string, tags: seq<string>): string {
    "name: " + name + "\n" + "description: " + description + "\n" + "tags: [" + Join(tags, ", ") + "]"
  }

  /** The whole frontmatter block `addSkill` writes, between the two `---` lines. */
  function SkillHeader(name: string, description: string, tags: seq<string>, today: string): string {
    LinesBeforeVersion(name, description, tags) + "\n" + VersionKey + " " + DefaultVersion + ("\n" + "created: " + today)
  }

  /** The file `addSkill` writes. */
  function SkillFile(name: string, description: string, tags: seq<string>, today: string, content: string): string {
    FrontmatterOpen + SkillHeader(name, description, tags, today) + FrontmatterClose + ("\n" + content + "\n")
  }

  /** Fields `addSkill` writes as one line each, with no `version:` before the version line. */
  predicate PlainFields(name: string, description: string, tags: seq<string>, today: string) {
    && '\n' !in name && '\n' !in description && '\n' !in today
    && (forall i :: 0 <= i < |tags| ==> '\n' !in tags[i])
    && !Includes(LinesBeforeVersion(name, description, tags), VersionKey)
  }

  lemma HeaderLayout(name: string, description: string, tags: seq<string>, today: string)
    requires PlainFields(name, description, tags, today)
    ensures NoDashAfterNewline(SkillHeader(name, description, tags, today))
  {
    var l1 := "name: " + name;
    var l2 := "description: " + description;
    var l3 := "tags: [" + Join(tags, ", ") + "]";
    var l4 := VersionKey + " " + DefaultVersion;
    var l5 := "created: " + today;
    JoinAvoids(tags, ", ", '\n');
    NoDashSingleLine(l1);
    NoDashAppendLine(l1, l2);
    assert l1 + "\n" + "description: " + description == l1 + "\n" + l2;
    NoDashAppendLine(l1 + "\n" + l2, l3);
    assert LinesBeforeVersion(name, description, tags) == l1 + "\n" + l2 + "\n" + l3;
    NoDashAppendLine(l1 + "\n" + l2 + "\n" + l3, l4);
    NoDashAppendLine(l1 + "\n" + l2 + "\n" + l3 + "\n" + l4, l5);
    assert SkillHeader(name, description, tags, today) == l1 + "\n" + l2 + "\n" + l3 + "\n" + l4 + "\n" + l5;
  }

  lemma DefaultVersionTrimmed()
    ensures SingleLine(DefaultVersion)
    ensures Trim(DefaultVersion) == DefaultVersion
  {
    assert DefaultVersion == ['1', '.', '0'];
    forall i | 0 <= i < |DefaultVersion| ensures !IsLineTerminator(DefaultVersion[i]) {
      assert i == 0 || i == 1 || i == 2;
    }
    TrimSolid(DefaultVersion);
  }

  /** The version line `addSkill` writes reads back as the default version. */
  lemma HeaderVersion(name: string, description: string, tags: seq<string>, today: string)
    requires PlainFields(name, description, tags, today)
    ensures VersionOf(SkillHeader(name, description, tags, today)) == DefaultVersion
  {
    DefaultVersionTrimmed();
    KeyLineValue(LinesBeforeVersion(name, description, tags), VersionKey, DefaultVersion, "\n" + "created: " + today);
  }

  /** A file written by `addSkill` reads back with the written version and the trimmed content. */
  lemma SkillFileRoundTrip(name: string, description: string, tags: seq<string>, today: string, content: string)
    requires PlainFields(name, description, tags, today)
    ensures var file := SkillFile(name, description, tags, today, content);
      && SplitFrontmatter(file).Some?
      && Trim(SplitFrontmatter(file).value.1) == Trim(content)
      && VersionOf(SplitFrontmatter(file).value.0) == DefaultVersion
  {
    HeaderLayout(name, description, tags, today);
    FrontmatterRoundTrip(SkillHeader(name, description, tags, today), "\n" + content + "\n");
    TrimPadded("\n", content, "\n");
    HeaderVersion(name, description, tags, today);
  }

  /** `formatSkillForPrompt`: the block handed to an agent ahead of its prompt. */
  function FormatSkillForPrompt(s: Skill): (r: string)
    ensures "[SKILL: " + s.name + "]\n" <= r
    ensures |r| >= 10 + |s.name| + 9 && r[|r| - 10..] == "\n\n[/SKILL]"
    ensures Includes(r, s.content)
    ensures r[|s.name| + 10] == '\n' <==> s.description == ""
    ensures s.description != "" ==> At(r, |s.name| + 10, "Description: " + s.description + "\n")
  {
    var head := "[SKILL: " + s.name + "]\n";
    var desc := if s.description != "" then "Description: " + s.description + "\n" else "";
    var r := head + desc + "\n" + s.content + "\n\n[/SKILL]";
    assert r == head + (desc + "\n" + s.content + "\n\n[/SKILL]");
    assert r[|head| + |desc| + 1..|head| + |desc| + 1 + |s.content|] == s.content;
    assert At(r, |head| + |desc| + 1, s.content);
    assert r[|head|..|head| + |desc|] == desc;
    r
  }

  /** The skills index and files, as `addSkill` and `deleteSkill` change them. */
  class SkillStore {
    /** The entries of `_index.json`, in file order. */
    var index: seq<SkillEntry>
    /** The text of every file on disk, by path. */
    var files: map<string, string>
    /** The user's home directory. */
    const home: string

    constructor (home: string, index: seq<SkillEntry>, files: map<string, string>)
      ensures this.home == home && this.index == index && this.files == files
    {
      this.home := home;
      this.index := index;
      this.files := files;
    }

    function GetSkill(name: string): Option<Skill>
      reads this
    {
      ReadSkill(index, files, home, name)
    }

    /** `addSkill`: writes the skill's file, replaces the first index entry with the name in
        place or appends one, and returns the skill as given, untrimmed, at version 1.0.
        Omitted description and tags default to empty. */
    method AddSkill(name: string, content: string, description: Option<string>, tags: Option<seq<string>>, today: string)
      returns (s: Skill)
      modifies this
      ensures var d := description.GetOr(""); var ts := tags.GetOr([]);
        && s == Skill(name, d, ts, DefaultVersion, content, SkillPath(home, name))
        && files == old(files)[SkillPath(home, name) := SkillFile(name, d, ts, today, content)]
        && index == Upsert(old(index), SkillName, SkillEntry(name, d, ts, SkillPath(home, name)))
      ensures PlainFields(name, s.description, s.tags, today) ==>
        GetSkill(name) == Some(s.(content := Trim(content)))
    {
      var d := description.GetOr("");
      var ts := tags.GetOr([]);
      var path := SkillPath(home, name);
      files := files[path := SkillFile(name, d, ts, today, content)];
      index := Upsert(index, SkillName, SkillEntry(name, d, ts, path));
      s := Skill(name, d, ts, DefaultVersion, content, path);
      if PlainFields(name, d, ts, today) {
        AddThenRead(old(index), old(files), home, name, content, d, ts, today);
      }
    }

    /** `deleteSkill`: false and no change when no index entry has the name; otherwise the
        skill's file is removed if present and the first entry with the name is spliced out. */
    method DeleteSkill(name: string) returns (ok: bool)
      modifies this
      ensures IndexOf(old(index), SkillName, name).None? ==> !ok && index == old(index) && files == old(files)
      ensures IndexOf(old(index), SkillName, name).Some? ==>
        && ok
        && index == RemoveAt(old(index), IndexOf(old(index), SkillName, name).value)
        && files == old(files) - {SkillPath(home, name)}
      ensures GetSkill(name).None?
    {
      match IndexOf(index, SkillName, name)
      case None =>
        ok := false;
      case Some(i) =>
        files := files - {SkillPath(home, name)};
        index := RemoveAt(index, i);
        ok := true;
    }
  }

  /** Reading a skill back after `addSkill` gives what was written, with its content trimmed. */
  lemma AddThenRead(index: seq<SkillEntry>, files: map<string, string>, home: string, name: string,
                    content: string, description: string, tags: seq<string>, today: string)
    requires PlainFields(name, description, tags, today)
    ensures var path := SkillPath(home, name);
      ReadSkill(Upsert(index, SkillName, SkillEntry(name, description, tags, path)),
                files[path := SkillFile(name, description, tags, today, content)], home, name)
      == Some(Skill(name, description, tags, DefaultVersion, Trim(content), path))
  {
    var path := SkillPath(home, name);
    var e := SkillEntry(name, description, tags, path);
    var file := SkillFile(name, description, tags, today, content);
    var idx := Upsert(index, SkillName, e);
    var fs := files[path := file];
    UpsertThenFind(index, SkillName, e);
    assert Find(idx, SkillName, name) == Some(e);
    assert path in fs && fs[path] == file;
    SkillFileRoundTrip(name, description, tags, today, content);
    var r := ReadSkill(idx, fs, home, name);
    assert r.Some? && r.value.name == name && r.value.filePath == path;
    assert r.value.description == description && r.value.tags == tags;
    assert r.value.content == Trim(content) && r.value.version == DefaultVersion;
  }
}
