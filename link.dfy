/** What `asyncwf link` (src/commands/link.ts) derives from the `specs/` directory: the list of
    specifications with a name and a one-line summary each, and the regenerated `claude.md`. The
    directory is its listing plus a map from file name to text. */
module Link {
  import opened Wrappers
  import opened Text
  import opened Templates

  const MdSuffix: string := ".md"
  const NoDescription: string := "No description"
  const SummaryLimit: nat := 100

  /** `readdirSync(specsDir).filter(f => f.endsWith('.md'))`. */
  function SpecFiles(listing: seq<string>): (r: seq<string>)
    ensures |r| <= |listing|
    ensures forall f :: f in r <==> f in listing && EndsWith(f, MdSuffix)
  {
    if listing == [] then []
    else
      var rest := SpecFiles(listing[..|listing| - 1]);
      var f := listing[|listing| - 1];
      assert forall g :: g in listing <==> g in listing[..|listing| - 1] || g == f by {
        assert listing == listing[..|listing| - 1] + [f];
      }
      if EndsWith(f, MdSuffix) then rest + [f] else rest
  }

  /** The filter keeps the listing's order and repetitions: it distributes over concatenation. */
  lemma {:induction false} SpecFilesAppend(a: seq<string>, b: seq<string>)
    ensures SpecFiles(a + b) == SpecFiles(a) + SpecFiles(b)
  {
    if b == [] {
      assert a + b == a;
    } else {
      var b' := b[..|b| - 1];
      assert (a + b)[..|a + b| - 1] == a + b';
      assert (a + b)[|a + b| - 1] == b[|b| - 1];
      SpecFilesAppend(a, b');
    }
  }

  /** Position of the first line at or after `from` whose trim is non-empty. */
  function FirstNonBlankFrom(lines: seq<string>, from: nat): (r: Option<nat>)
    requires from <= |lines|
    ensures r.Some? ==> from <= r.value < |lines| && Trim(lines[r.value]) != ""
    ensures r.Some? ==> forall j :: from <= j < r.value ==> Trim(lines[j]) == ""
    ensures r.None? ==> forall j :: from <= j < |lines| ==> Trim(lines[j]) == ""
    decreases |lines| - from
  {
    if from == |lines| then None
    else if Trim(lines[from]) != "" then Some(from)
    else FirstNonBlankFrom(lines, from + 1)
  }

  /** The first line whose trim is non-empty: `lines.filter(l => l.trim())[0]`. */
  function FirstNonBlank(lines: seq<string>): (r: Option<string>)
    ensures r.None? <==> forall i :: 0 <= i < |lines| ==> Trim(lines[i]) == ""
    ensures r.Some? ==> exists i :: 0 <= i < |lines| && lines[i] == r.value && Trim(r.value) != ""
                                && (forall j :: 0 <= j < i ==> Trim(lines[j]) == "")
  {
    match FirstNonBlankFrom(lines, 0)
    case None => None
    case Some(i) => Some(lines[i])
  }

  /** `s.slice(0, n)`. */
  function Take(s: string, n: nat): (r: string)
    ensures r <= s && |r| == if |s| < n then |s| else n
  {
    if |s| <= n then s else s[..n]
  }

  /** A spec's summary: its first `# ` heading's text, else its first non-blank line cut to 100
      characters, else `No description`. */
  function Summary(content: string): (r: string)
    ensures Heading(content).Some? ==> r == Heading(content).value && r != [] && SingleLine(r)
    ensures Heading(content).None? && FirstNonBlank(Split(content, '\n')).Some? ==>
      var line := FirstNonBlank(Split(content, '\n')).value;
      r <= line && |r| == (if |line| < SummaryLimit then |line| else SummaryLimit)
    ensures Heading(content).None? && FirstNonBlank(Split(content, '\n')).None? ==> r == NoDescription
  {
    match Heading(content)
    case Some(h) => h
    case None =>
      match FirstNonBlank(Split(content, '\n'))
      case Some(line) => Take(line, SummaryLimit)
      case None => NoDescription
  }

  /** `file.replace('.md', '')`: only the first occurrence goes, wherever it is. */
  function SpecName(file: string): (r: string)
    ensures FindFrom(file, MdSuffix, 0).None? ==> r == file
    ensures FindFrom(file, MdSuffix, 0).Some? ==> |r| == |file| - |MdSuffix|
    ensures FindFrom(file, MdSuffix, 0).Some? ==>
      var k := FindFrom(file, MdSuffix, 0).value;
      r[..k] == file[..k] && r[k..] == file[k + |MdSuffix|..]
  {
    match FindFrom(file, MdSuffix, 0)
    case None => file
    case Some(k) => file[..k] + file[k + |MdSuffix|..]
  }

  /** A `.` one or two places after `k` rules out `.md` at `k`. */
  lemma DotBreaksSuffix(f: string, k: nat, j: nat)
    requires k + 3 <= |f| && (j == 1 || j == 2) && f[k + j] == '.'
    ensures !At(f, k, MdSuffix)
  {
    assert f[k..k + 3][j] == '.';
    assert MdSuffix[j] != '.' by {
      assert MdSuffix == ['.', 'm', 'd'];
    }
  }

  /** Appending to a text does not change what occurs wholly inside it. */
  lemma AtPrefix(name: string, tail: string, k: nat, p: string)
    requires k + |p| <= |name|
    ensures At(name + tail, k, p) == At(name, k, p)
  {
    assert (name + tail)[k..k + |p|] == name[k..k + |p|];
  }

  /** No `.md` starts inside a name that has none, once `.md` is appended. */
  lemma NoEarlierSuffix(name: string, k: nat)
    requires !Includes(name, MdSuffix) && k < |name|
    ensures !At(name + MdSuffix, k, MdSuffix)
  {
    if k + 3 <= |name| {
      assert !At(name, k, MdSuffix);
      AtPrefix(name, MdSuffix, k, MdSuffix);
    } else {
      var f := name + MdSuffix;
      var j := |name| - k;
      assert f[k + j] == '.';
      DotBreaksSuffix(f, k, j);
    }
  }

  /** A name with no `.md` inside gets its extension back. */
  lemma SpecNameRestores(name: string)
    requires !Includes(name, MdSuffix)
    ensures SpecName(name + MdSuffix) == name
  {
    var f := name + MdSuffix;
    assert At(f, |name|, MdSuffix) by {
      assert f[|name|..|name| + 3] == MdSuffix;
    }
    var r := FindFrom(f, MdSuffix, 0);
    assert r.Some?;
    if r.value < |name| {
      NoEarlierSuffix(name, r.value);
      assert false;
    }
    assert r.value == |name|;
    assert f[..|name|] == name;
    assert f[|name| + 3..] == [];
  }

  /** The specs built from the `.md` files, in listing order. */
  function SpecsOf(files: seq<string>, dir: map<string, string>): (r: seq<Spec>)
    requires forall f :: f in files ==> f in dir
    ensures |r| == |files|
    ensures forall i :: 0 <= i < |files| ==> r[i] == Spec(SpecName(files[i]), Summary(dir[files[i]]))
  {
    if files == [] then []
    else
      var init := files[..|files| - 1];
      var last := files[|files| - 1];
      assert files == init + [last];
      SpecsOf(init, dir) + [Spec(SpecName(last), Summary(dir[last]))]
  }

  /** One more file adds its spec at the end. */
  lemma SpecsOfNext(files: seq<string>, i: nat, dir: map<string, string>)
    requires i < |files| && forall f :: f in files ==> f in dir
    ensures files[i] in dir
    ensures SpecsOf(files[..i + 1], dir) == SpecsOf(files[..i], dir) + [Spec(SpecName(files[i]), Summary(dir[files[i]]))]
  {
    assert files[..i + 1][..i] == files[..i];
    assert files[..i + 1][i] == files[i];
  }

  /** The loop of `linkCommand` that reads each spec file and pushes its name and summary. */
  method BuildSpecs(listing: seq<string>, dir: map<string, string>) returns (specs: seq<Spec>)
    requires forall f :: f in listing ==> f in dir
    ensures specs == SpecsOf(SpecFiles(listing), dir)
  {
    var files := SpecFiles(listing);
    specs := [];
    for i := 0 to |files|
      invariant specs == SpecsOf(files[..i], dir)
    {
      SpecsOfNext(files, i, dir);
      var content := dir[files[i]];
      var summary := NoDescription;
      var heading := Heading(content);
      var lines := Split(content, '\n');
      var first := FirstNonBlank(lines);
      if heading.Some? {
        summary := heading.value;
      } else if first.Some? {
        summary := Take(first.value, SummaryLimit);
      }
      assert summary == Summary(content);
      specs := specs + [Spec(SpecName(files[i]), summary)];
    }
    assert files[..|files|] == files;
  }

  /** `linkCommand`'s output: `claude.md` regenerated with the specs as project context. */
  method LinkClaudeMD(listing: seq<string>, dir: map<string, string>, b: Blocks) returns (claudeMd: string)
    requires forall f :: f in listing ==> f in dir
    ensures claudeMd == GenerateClaudeMD(b, ProjectContext(SpecsOf(SpecFiles(listing), dir)))
  {
    var specs := BuildSpecs(listing, dir);
    var context := GenerateProjectContext(specs);
    claudeMd := GenerateClaudeMD(b, context);
  }

  /** `claude.md` gets a Project Context section exactly when the directory lists a `.md` file. */
  lemma ContextIffSpecFiles(listing: seq<string>, dir: map<string, string>, b: Blocks)
    requires forall f :: f in listing ==> f in dir
    ensures var md := GenerateClaudeMD(b, ProjectContext(SpecsOf(SpecFiles(listing), dir)));
      (md == GenerateClaudeMD(b, "")) <==> forall f :: f in listing ==> !EndsWith(f, MdSuffix)
  {
    var files := SpecFiles(listing);
    var ctx := ProjectContext(SpecsOf(files, dir));
    if files != [] {
      assert files[0] in listing;
      assert |GenerateClaudeMD(b, ctx)| > |GenerateClaudeMD(b, "")|;
    }
  }
}
