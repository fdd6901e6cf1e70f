/** The knowledge base of `src/lib/knowledge.ts`: an index of topics kept in `_index.json` and one
    markdown file per topic under `~/.ckb/knowledge`. The file system is a map from path to text. */
module Knowledge {
  import opened Wrappers
  import opened Seqs
  import opened Text
  import opened Types

  function KnowledgeDir(home: string): string {
    home + "/.ckb/knowledge"
  }

  /** `join(getKnowledgeDir(), topic + ".md")`: the file is found by topic. */
  function KnowledgePath(home: string, topic: string): string {
    KnowledgeDir(home) + "/" + topic + ".md"
  }

  const DefaultSource: string := "model-learned"
  const SourceKey: string := "source:"

  /** The source `getKnowledge` reads from a frontmatter block: the trimmed capture of
      `source:\s*(.+)`, or `model-learned` when there is none. */
  function SourceOf(fm: string): (v: string)
    ensures KeyValue(fm, SourceKey).None? ==> v == DefaultSource
    ensures KeyValue(fm, SourceKey).Some? ==> v == Trim(KeyValue(fm, SourceKey).value)
  {
    match KeyValue(fm, SourceKey)
    case Some(raw) => Trim(raw)
    case None => DefaultSource
  }

  /** `getKnowledge(topic)`: None when the topic is not indexed or its file is missing; otherwise
      the dates of the first index entry with the topic, and source and content from the file,
      falling back to `model-learned` and the whole file when it has no frontmatter block. */
  function ReadKnowledge(index: seq<KnowledgeIndexEntry>, files: map<string, string>, home: string, topic: string)
    : (r: Option<KnowledgeEntry>)
    ensures r.None? <==> Find(index, TopicOf, topic).None? || KnowledgePath(home, topic) !in files
    ensures r.Some? ==> r.value.topic == topic
  {
    match Find(index, TopicOf, topic)
    case None => None
    case Some(e) =>
      var path := KnowledgePath(home, topic);
      if path !in files then None
      else
        var file := files[path];
        match SplitFrontmatter(file)
        case None => Some(KnowledgeEntry(topic, e.created, e.updated, DefaultSource, file, path))
        case Some((fm, body)) => Some(KnowledgeEntry(topic, e.created, e.updated, SourceOf(fm), Trim(body), path))
  }

  /** What `getKnowledge` reads: dates from the index entry, and source and content from the
      file's frontmatter block, or `model-learned` and the whole file when it has none. */
  lemma ReadKnowledgeFields(index: seq<KnowledgeIndexEntry>, files: map<string, string>, home: string, topic: string)
    requires ReadKnowledge(index, files, home, topic).Some?
    ensures var r := ReadKnowledge(index, files, home, topic).value;
      var e := Find(index, TopicOf, topic).value;
      var file := files[KnowledgePath(home, topic)];
      && e.topic == topic
      && r.created == e.created && r.updated == e.updated
      && r.filePath == KnowledgePath(home, topic)
      && (SplitFrontmatter(file).None? ==> r.content == file && r.source == DefaultSource)
      && (SplitFrontmatter(file).Some? ==>
            r.content == Trim(SplitFrontmatter(file).value.1)
            && r.source == SourceOf(SplitFrontmatter(file).value.0))
  {
  }

  /** The `created` date `learnKnowledge` records: the existing entry's when it is non-empty,
      else today. */
  function CreatedFor(index: seq<KnowledgeIndexEntry>, topic: string, today: string): (c: string)
    ensures c == today || (Find(index, TopicOf, topic).Some? && c == Find(index, TopicOf, topic).value.created)
    ensures c == today <== Find(index, TopicOf, topic).None? || Find(index, TopicOf, topic).value.created == ""
  {
    match Find(index, TopicOf, topic)
    case Some(e) => if e.created != "" then e.created else today
    case None => today
  }

  /** The index entry `learnKnowledge` writes. */
  function LearnedEntry(index: seq<KnowledgeIndexEntry>, home: string, topic: string, today: string): KnowledgeIndexEntry {
    KnowledgeIndexEntry(topic, CreatedFor(index, topic, today), today, KnowledgePath(home, topic))
  }

  /** Learning a topic again keeps the date it was first learned. */
  lemma CreatedKept(index: seq<KnowledgeIndexEntry>, home: string, topic: string, first: string, later: string)
    requires first != ""
    ensures CreatedFor(Upsert(index, TopicOf, LearnedEntry(index, home, topic, first)), topic, later)
      == CreatedFor(index, topic, first)
  {
    UpsertThenFind(index, TopicOf, LearnedEntry(index, home, topic, first));
  }

  /** The frontmatter lines `learnKnowledge` writes before its `source:` line. */
  function LinesBeforeSource(topic: string, created: string, today: string): string {
    "topic: " + topic + "\n" + "created: " + created + "\n" + "updated: " + today
  }

  /** The whole frontmatter block `learnKnowledge` writes, between the two `---` lines; nothing
      follows the source line. */
  function KnowledgeHeader(topic: string, created: string, today: string, source: string): string {
    LinesBeforeSource(topic, created, today) + "\n" + SourceKey + " " + source
  }

  /** The file `learnKnowledge` writes. */
  function KnowledgeFile(topic: string, created: string, today: string, source: string, content: string): string {
    FrontmatterOpen + KnowledgeHeader(topic, created, today, source) + FrontmatterClose + ("\n" + content + "\n")
  }

  /** Fields `learnKnowledge` writes as one line each, with no `source:` before the source line. */
  predicate PlainFields(topic: string, created: string, today: string, source: string) {
    && '\n' !in topic && '\n' !in created && '\n' !in today && SingleLine(source)
    && !Includes(LinesBeforeSource(topic, created, today), SourceKey)
  }

  lemma HeaderLayout(topic: string, created: string, today: string, source: string)
    requires PlainFields(topic, created, today, source)
    ensures NoDashAfterNewline(KnowledgeHeader(topic, created, today, source))
  {
    var l1 := "topic: " + topic;
    var l2 := "created: " + created;
    var l3 := "updated: " + today;
    var l4 := SourceKey + " " + source;
    assert '\n' !in source;
    NoDashSingleLine(l1);
    NoDashAppendLine(l1, l2);
    NoDashAppendLine(l1 + "\n" + l2, l3);
    assert LinesBeforeSource(topic, created, today) == l1 + "\n" + l2 + "\n" + l3;
    NoDashAppendLine(l1 + "\n" + l2 + "\n" + l3, l4);
    assert KnowledgeHeader(topic, created, today, source) == l1 + "\n" + l2 + "\n" + l3 + "\n" + l4;
  }

  /** A file written by `learnKnowledge` reads back with the trimmed source and content. */
  lemma KnowledgeFileRoundTrip(topic: string, created: string, today: string, source: string, content: string)
    requires PlainFields(topic, created, today, source)
    ensures var file := KnowledgeFile(topic, created, today, source, content);
      && SplitFrontmatter(file).Some?
      && Trim(SplitFrontmatter(file).value.1) == Trim(content)
      && SourceOf(SplitFrontmatter(file).value.0) == Trim(source)
  {
    HeaderLayout(topic, created, today, source);
    FrontmatterRoundTrip(KnowledgeHeader(topic, created, today, source), "\n" + content + "\n");
    TrimPadded("\n", content, "\n");
    HeaderSource(topic, created, today, source);
  }

  /** The source line `learnKnowledge` writes reads back as the trimmed source. */
  lemma HeaderSource(topic: string, created: string, today: string, source: string)
    requires PlainFields(topic, created, today, source)
    ensures SourceOf(KnowledgeHeader(topic, created, today, source)) == Trim(source)
  {
    var before := LinesBeforeSource(topic, created, today);
    KeyLineValue(before, SourceKey, source, "");
    assert KnowledgeHeader(topic, created, today, source) == before + "\n" + SourceKey + " " + source + "";
  }

  /** Reading a topic back after `learnKnowledge` gives what was written, trimmed, with the
      preserved `created` date. */
  lemma LearnThenRead(index: seq<KnowledgeIndexEntry>, files: map<string, string>, home: string, topic: string,
                      content: string, source: string, today: string)
    requires PlainFields(topic, CreatedFor(index, topic, today), today, source)
    ensures var path := KnowledgePath(home, topic);
      var created := CreatedFor(index, topic, today);
      ReadKnowledge(Upsert(index, TopicOf, LearnedEntry(index, home, topic, today)),
                    files[path := KnowledgeFile(topic, created, today, source, content)], home, topic)
      == Some(KnowledgeEntry(topic, created, today, Trim(source), Trim(content), path))
  {
    UpsertThenFind(index, TopicOf, LearnedEntry(index, home, topic, today));
    KnowledgeFileRoundTrip(topic, CreatedFor(index, topic, today), today, source, content);
  }

  /** An index entry matches the lower-cased query on its topic or, failing that, on its file. */
  predicate Matches(e: KnowledgeIndexEntry, files: map<string, string>, home: string, lowerQuery: string) {
    || Includes(Lower(e.topic), lowerQuery)
    || (KnowledgePath(home, e.topic) in files && Includes(Lower(files[KnowledgePath(home, e.topic)]), lowerQuery))
  }

  /** What one index entry adds to the search results. */
  function Hit(e: KnowledgeIndexEntry, index: seq<KnowledgeIndexEntry>, files: map<string, string>, home: string,
               lowerQuery: string): (h: seq<KnowledgeEntry>)
    ensures h == [] || (|h| == 1 && h[0].topic == e.topic)
  {
    if Matches(e, files, home, lowerQuery) && ReadKnowledge(index, files, home, e.topic).Some? then
      [ReadKnowledge(index, files, home, e.topic).value]
    else []
  }

  /** The results of `searchKnowledge` over the entries `es`, in their order. */
  function SearchIn(es: seq<KnowledgeIndexEntry>, index: seq<KnowledgeIndexEntry>, files: map<string, string>,
                    home: string, lowerQuery: string): (r: seq<KnowledgeEntry>)
    ensures |r| <= |es|
  {
    if es == [] then []
    else SearchIn(es[..|es| - 1], index, files, home, lowerQuery) + Hit(es[|es| - 1], index, files, home, lowerQuery)
  }

  /** Every result comes from an entry that matches the query. */
  lemma {:induction false} SearchSound(es: seq<KnowledgeIndexEntry>, index: seq<KnowledgeIndexEntry>,
                                       files: map<string, string>, home: string, lowerQuery: string)
    ensures forall x :: x in SearchIn(es, index, files, home, lowerQuery) ==>
      ReadKnowledge(index, files, home, x.topic) == Some(x)
    ensures forall x :: x in SearchIn(es, index, files, home, lowerQuery) ==>
      exists j :: 0 <= j < |es| && es[j].topic == x.topic && Matches(es[j], files, home, lowerQuery)
  {
    if es != [] {
      var init := es[..|es| - 1];
      SearchSound(init, index, files, home, lowerQuery);
      forall x | x in SearchIn(es, index, files, home, lowerQuery)
        ensures ReadKnowledge(index, files, home, x.topic) == Some(x)
        ensures exists j :: 0 <= j < |es| && es[j].topic == x.topic && Matches(es[j], files, home, lowerQuery)
      {
        if x in SearchIn(init, index, files, home, lowerQuery) {
          var j :| 0 <= j < |init| && init[j].topic == x.topic && Matches(init[j], files, home, lowerQuery);
          assert es[j] == init[j];
        } else {
          assert es[|es| - 1].topic == x.topic;
        }
      }
    }
  }

  /** Every matching entry whose topic reads back is in the results. */
  lemma {:induction false} SearchComplete(es: seq<KnowledgeIndexEntry>, index: seq<KnowledgeIndexEntry>,
                                          files: map<string, string>, home: string, lowerQuery: string, j: nat)
    requires j < |es| && Matches(es[j], files, home, lowerQuery)
    requires ReadKnowledge(index, files, home, es[j].topic).Some?
    ensures ReadKnowledge(index, files, home, es[j].topic).value in SearchIn(es, index, files, home, lowerQuery)
  {
    if j < |es| - 1 {
      SearchComplete(es[..|es| - 1], index, files, home, lowerQuery, j);
    }
  }

  /** Position of the first index entry with the topic, or -1. */
  function Pos(index: seq<KnowledgeIndexEntry>, topic: string): (p: int)
    ensures -1 <= p < |index|
    ensures p >= 0 ==> index[p].topic == topic && forall j :: 0 <= j < p ==> index[j].topic != topic
    ensures p < 0 ==> forall j :: 0 <= j < |index| ==> index[j].topic != topic
  {
    match IndexOf(index, TopicOf, topic)
    case Some(i) => i
    case None => -1
  }

  /** The results' topics are first indexed at strictly increasing positions. */
  ghost predicate InIndexOrder(r: seq<KnowledgeEntry>, index: seq<KnowledgeIndexEntry>) {
    forall a, b :: 0 <= a < b < |r| ==> 0 <= Pos(index, r[a].topic) < Pos(index, r[b].topic)
  }

  /** The results' topics are first indexed below position `n`. */
  ghost predicate IndexedBelow(r: seq<KnowledgeEntry>, index: seq<KnowledgeIndexEntry>, n: int) {
    forall a :: 0 <= a < |r| ==> 0 <= Pos(index, r[a].topic) < n
  }

  /** With unique topics, results follow the index order and hold each topic at most once. */
  lemma SearchOrdered(index: seq<KnowledgeIndexEntry>, files: map<string, string>, home: string, lowerQuery: string)
    requires KeysUnique(index, TopicOf)
    ensures InIndexOrder(SearchIn(index, index, files, home, lowerQuery), index)
  {
    SearchOrderedIn(index, index, files, home, lowerQuery);
  }

  /** Every result over a prefix of the index has its topic first indexed inside that prefix. */
  lemma {:induction false} SearchWithin(es: seq<KnowledgeIndexEntry>, index: seq<KnowledgeIndexEntry>,
                                        files: map<string, string>, home: string, lowerQuery: string)
    requires es <= index
    ensures IndexedBelow(SearchIn(es, index, files, home, lowerQuery), index, |es|)
  {
    if es != [] {
      var init := es[..|es| - 1];
      var last := es[|es| - 1];
      SearchWithin(init, index, files, home, lowerQuery);
      var p := SearchIn(init, index, files, home, lowerQuery);
      var h := Hit(last, index, files, home, lowerQuery);
      assert index[|es| - 1] == last;
      var r: seq<KnowledgeEntry> := p + h;
      assert SearchIn(es, index, files, home, lowerQuery) == r;
      forall a | 0 <= a < |r| ensures 0 <= Pos(index, r[a].topic) < |es| {
        if a < |p| {
          assert r[a] == p[a];
        } else {
          assert r[a] == h[0] && h[0].topic == last.topic;
        }
      }
    }
  }

  /** With unique topics, the last entry of a prefix is found at its own position. */
  lemma LastIndex(es: seq<KnowledgeIndexEntry>, index: seq<KnowledgeIndexEntry>)
    requires KeysUnique(index, TopicOf) && es <= index && es != []
    ensures Pos(index, es[|es| - 1].topic) == |es| - 1
  {
    assert index[|es| - 1] == es[|es| - 1];
  }

  lemma {:induction false} SearchOrderedIn(es: seq<KnowledgeIndexEntry>, index: seq<KnowledgeIndexEntry>,
                                           files: map<string, string>, home: string, lowerQuery: string)
    requires KeysUnique(index, TopicOf) && es <= index
    ensures InIndexOrder(SearchIn(es, index, files, home, lowerQuery), index)
  {
    if es != [] {
      var init := es[..|es| - 1];
      var last := es[|es| - 1];
      SearchOrderedIn(init, index, files, home, lowerQuery);
      SearchWithin(init, index, files, home, lowerQuery);
      LastIndex(es, index);
      var p := SearchIn(init, index, files, home, lowerQuery);
      var h := Hit(last, index, files, home, lowerQuery);
      var r: seq<KnowledgeEntry> := p + h;
      assert SearchIn(es, index, files, home, lowerQuery) == r;
      forall a, b | 0 <= a < b < |r| ensures 0 <= Pos(index, r[a].topic) < Pos(index, r[b].topic) {
        assert r[a] == p[a];
        if b < |p| {
          assert r[b] == p[b];
        } else {
          assert r[b] == h[0] && h[0].topic == last.topic;
        }
      }
    }
  }

  /** The index and files, as `learnKnowledge` and `deleteKnowledge` change them. */
  class KnowledgeStore {
    /** The entries of `_index.json`, in file order. */
    var index: seq<KnowledgeIndexEntry>
    /** The text of every file on disk, by path. */
    var files: map<string, string>
    /** The user's home directory. */
    const home: string

    constructor (home: string, index: seq<KnowledgeIndexEntry>, files: map<string, string>)
      ensures this.home == home && this.index == index && this.files == files
    {
      this.home := home;
      this.index := index;
      this.files := files;
    }

    function GetKnowledge(topic: string): Option<KnowledgeEntry>
      reads this
    {
      ReadKnowledge(index, files, home, topic)
    }

    /** `learnKnowledge`: writes the topic's file, replaces the first index entry with the topic
        in place or appends one, keeping a non-empty `created` date, and returns the entry as
        given, untrimmed. An omitted source defaults to `model-learned`. */
    method LearnKnowledge(topic: string, content: string, source: Option<string>, today: string)
      returns (k: KnowledgeEntry)
      modifies this
      ensures var src := source.GetOr(DefaultSource);
        var created := CreatedFor(old(index), topic, today);
        && k == KnowledgeEntry(topic, created, today, src, content, KnowledgePath(home, topic))
        && files == old(files)[KnowledgePath(home, topic) := KnowledgeFile(topic, created, today, src, content)]
        && index == Upsert(old(index), TopicOf, LearnedEntry(old(index), home, topic, today))
      ensures PlainFields(topic, k.created, today, k.source) ==>
        GetKnowledge(topic) == Some(k.(source := Trim(k.source), content := Trim(content)))
    {
      var src := source.GetOr(DefaultSource);
      var path := KnowledgePath(home, topic);
      var created := CreatedFor(index, topic, today);
      var entry := LearnedEntry(index, home, topic, today);
      files := files[path := KnowledgeFile(topic, created, today, src, content)];
      index := Upsert(index, TopicOf, entry);
      k := KnowledgeEntry(topic, created, today, src, content, path);
      if PlainFields(topic, created, today, src) {
        LearnThenRead(old(index), old(files), home, topic, content, src, today);
      }
    }

    /** `searchKnowledge`: the entries, in index order, whose topic or file contains the query
        case-insensitively and whose topic reads back. */
    method SearchKnowledge(query: string) returns (results: seq<KnowledgeEntry>)
      ensures results == SearchIn(index, index, files, home, Lower(query))
    {
      results := [];
      var lowerQuery := Lower(query);
      for i := 0 to |index|
        invariant results == SearchIn(index[..i], index, files, home, lowerQuery)
      {
        var entry := index[i];
        assert index[..i + 1][..i] == index[..i];
        if Includes(Lower(entry.topic), lowerQuery) {
          var kb := ReadKnowledge(index, files, home, entry.topic);
          if kb.Some? {
            results := results + [kb.value];
          }
          continue;
        }
        var path := KnowledgePath(home, entry.topic);
        if path in files {
          var content := Lower(files[path]);
          if Includes(content, lowerQuery) {
            var kb := ReadKnowledge(index, files, home, entry.topic);
            if kb.Some? {
              results := results + [kb.value];
            }
          }
        }
      }
      assert index[..|index|] == index;
    }

    /** `deleteKnowledge`: false and no change when no index entry has the topic; otherwise the
        topic's file is removed if present and the first entry with the topic is spliced out. */
    method DeleteKnowledge(topic: string) returns (ok: bool)
      modifies this
      ensures IndexOf(old(index), TopicOf, topic).None? ==> !ok && index == old(index) && files == old(files)
      ensures IndexOf(old(index), TopicOf, topic).Some? ==>
        && ok
        && index == RemoveAt(old(index), IndexOf(old(index), TopicOf, topic).value)
        && files == old(files) - {KnowledgePath(home, topic)}
      ensures GetKnowledge(topic).None?
    {
      match IndexOf(index, TopicOf, topic)
      case None =>
        ok := false;
      case Some(i) =>
        files := files - {KnowledgePath(home, topic)};
        index := RemoveAt(index, i);
        ok := true;
    }
  }
}
