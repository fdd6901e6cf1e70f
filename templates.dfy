/** The instruction files of `src/lib/templates.ts`. The five shared text blocks are long fixed
    strings; the model keeps them as parameters and proves how the generators assemble them. */
module Templates {
  import opened Text

  /** The five fixed blocks: architect persona, agent selection guide, multi-agent protocol,
      parallel protocol and file-watch directive. */
  datatype Blocks = Blocks(persona: string, selectionGuide: string, multiAgent: string, parallel: string, fileWatch: string)

  /** A specification as `link` lists it. */
  datatype Spec = Spec(name: string, summary: string)

  const ClaudeTitle: string := "# AsyncWF Project Configuration"
  const GeminiTitle: string := "# AsyncWF - Gemini Agent Configuration"
  const CodexTitle: string := "# AsyncWF - Codex Agent Configuration"
  const GeminiRole: string :=
    "## Your Role\nYou are the **Frontend & UI Specialist** in a multi-agent team.\nFocus on: React, Vue, CSS, UI/UX design, documentation."
  const CodexRole: string :=
    "## Your Role\nYou are the **Full-Stack Integrator** in a multi-agent team.\nFocus on: connecting components, rapid prototyping, end-to-end features."
  const Gap: string := "\n\n"

  /** The sections of a generated file, in order: title, persona, the agent's role if it has
      one, then the other four blocks. */
  function Sections(title: string, role: seq<string>, b: Blocks): seq<string> {
    [title, b.persona] + role + [b.selectionGuide, b.multiAgent, b.parallel, b.fileWatch]
  }

  /** The file before any project context: the sections separated by blank lines. */
  function Base(title: string, role: seq<string>, b: Blocks): string {
    Join(Sections(title, role, b), Gap) + "\n"
  }

  function ContextSection(ctx: string): string {
    "\n## Project Context\n\n" + ctx + "\n"
  }

  /** The one conditional step shared by the generators: a non-empty context is appended as a
      `## Project Context` section. */
  function WithContext(base: string, ctx: string): (r: string)
    ensures ctx == "" ==> r == base
    ensures ctx != "" ==> base <= r && r[|base|..] == ContextSection(ctx)
  {
    if ctx != "" then base + ContextSection(ctx) else base
  }

  function GenerateClaudeMD(b: Blocks, ctx: string): string {
    WithContext(Base(ClaudeTitle, [], b), ctx)
  }

  function GenerateGeminiMD(b: Blocks, ctx: string): string {
    WithContext(Base(GeminiTitle, [GeminiRole], b), ctx)
  }

  function GenerateCodexMD(b: Blocks, ctx: string): string {
    WithContext(Base(CodexTitle, [CodexRole], b), ctx)
  }

  /** Every generator is its context-free output, followed by the context section exactly when
      the context is non-empty. */
  lemma ContextLaw(b: Blocks, ctx: string)
    ensures ctx == "" ==> GenerateClaudeMD(b, ctx) == GenerateClaudeMD(b, "")
    ensures ctx != "" ==> GenerateClaudeMD(b, ctx) == GenerateClaudeMD(b, "") + ContextSection(ctx)
    ensures ctx == "" ==> GenerateGeminiMD(b, ctx) == GenerateGeminiMD(b, "")
    ensures ctx != "" ==> GenerateGeminiMD(b, ctx) == GenerateGeminiMD(b, "") + ContextSection(ctx)
    ensures ctx == "" ==> GenerateCodexMD(b, ctx) == GenerateCodexMD(b, "")
    ensures ctx != "" ==> GenerateCodexMD(b, ctx) == GenerateCodexMD(b, "") + ContextSection(ctx)
  {
  }

  /** Section `i` of a generated file sits at its join offset, whatever the context. */
  lemma SectionAt(title: string, role: seq<string>, b: Blocks, ctx: string, i: nat)
    requires i < |Sections(title, role, b)|
    ensures var ps := Sections(title, role, b);
      At(WithContext(Base(title, role, b), ctx), JoinOffset(ps, Gap, i), ps[i])
  {
    var ps := Sections(title, role, b);
    var j := Join(ps, Gap);
    var r := WithContext(Base(title, role, b), ctx);
    var tail := r[|j|..];
    assert r == [] + j + tail;
    JoinAt(ps, Gap, i);
    AtShift([], j, tail, JoinOffset(ps, Gap, i), ps[i]);
  }

  /** The five blocks appear in the generated file in their fixed order, each after the
      previous one and a blank line, whatever the context. */
  lemma BlocksInOrder(title: string, role: seq<string>, b: Blocks, ctx: string)
    requires |role| <= 1
    ensures var r := WithContext(Base(title, role, b), ctx);
      var ps := Sections(title, role, b);
      var k := 1 + |role|;
      && At(r, JoinOffset(ps, Gap, 1), b.persona)
      && At(r, JoinOffset(ps, Gap, k + 1), b.selectionGuide)
      && At(r, JoinOffset(ps, Gap, k + 2), b.multiAgent)
      && At(r, JoinOffset(ps, Gap, k + 3), b.parallel)
      && At(r, JoinOffset(ps, Gap, k + 4), b.fileWatch)
      && JoinOffset(ps, Gap, 1) + |b.persona| + 2 <= JoinOffset(ps, Gap, k + 1)
      && JoinOffset(ps, Gap, k + 1) + |b.selectionGuide| + 2 == JoinOffset(ps, Gap, k + 2)
      && JoinOffset(ps, Gap, k + 2) + |b.multiAgent| + 2 == JoinOffset(ps, Gap, k + 3)
      && JoinOffset(ps, Gap, k + 3) + |b.parallel| + 2 == JoinOffset(ps, Gap, k + 4)
  {
    var ps := Sections(title, role, b);
    var k := 1 + |role|;
    assert ps[1] == b.persona && ps[k + 1] == b.selectionGuide && ps[k + 2] == b.multiAgent;
    assert ps[k + 3] == b.parallel && ps[k + 4] == b.fileWatch;
    SectionAt(title, role, b, ctx, 1);
    SectionAt(title, role, b, ctx, k + 1);
    SectionAt(title, role, b, ctx, k + 2);
    SectionAt(title, role, b, ctx, k + 3);
    SectionAt(title, role, b, ctx, k + 4);
    JoinAt(ps, Gap, 1);
    JoinAt(ps, Gap, k + 1);
    JoinAt(ps, Gap, k + 2);
    JoinAt(ps, Gap, k + 3);
    if |role| == 1 {
      JoinAt(ps, Gap, 2);
    }
  }

  const ContextHeader: string := "The following specifications are available:\n\n"

  function SpecLine(s: Spec): string {
    "- **" + s.name + "**: " + s.summary + "\n"
  }

  /** The spec lines of the first specs, in order. */
  function SpecLines(specs: seq<Spec>): string {
    if specs == [] then "" else SpecLines(specs[..|specs| - 1]) + SpecLine(specs[|specs| - 1])
  }

  /** `generateProjectContext`: empty for no specs, else the header and one line per spec. */
  function ProjectContext(specs: seq<Spec>): (r: string)
    ensures r == "" <==> specs == []
    ensures specs != [] ==> ContextHeader <= r
  {
    if specs == [] then "" else ContextHeader + SpecLines(specs)
  }

  /** The lines of a prefix of the specs begin the lines of all of them. */
  lemma {:induction false} SpecLinesPrefix(specs: seq<Spec>, n: nat)
    requires n <= |specs|
    ensures SpecLines(specs[..n]) <= SpecLines(specs)
    decreases |specs| - n
  {
    if n < |specs| {
      var m := specs[..n + 1];
      assert m[..n] == specs[..n];
      SpecLinesPrefix(specs, n + 1);
    } else {
      assert specs[..n] == specs;
    }
  }

  /** Spec `i`'s line follows the lines of the specs before it: one line per spec, in input order. */
  lemma SpecLineAt(specs: seq<Spec>, i: nat)
    requires i < |specs|
    ensures At(ProjectContext(specs), |ContextHeader| + |SpecLines(specs[..i])|, SpecLine(specs[i]))
  {
    var pre := specs[..i + 1];
    assert pre[..i] == specs[..i] && pre[i] == specs[i];
    assert SpecLines(pre) == SpecLines(specs[..i]) + SpecLine(specs[i]);
    SpecLinesPrefix(specs, i + 1);
    var all := SpecLines(specs);
    assert all[..|SpecLines(pre)|] == SpecLines(pre);
    var o := |SpecLines(specs[..i])|;
    assert all[o..o + |SpecLine(specs[i])|] == SpecLine(specs[i]);
    AtShift(ContextHeader, all, [], o, SpecLine(specs[i]));
    assert ContextHeader + all + [] == ProjectContext(specs);
  }

  /** `generateProjectContext`, with its accumulating loop. */
  method GenerateProjectContext(specs: seq<Spec>) returns (context: string)
    ensures context == ProjectContext(specs)
  {
    if |specs| == 0 {
      return "";
    }
    context := ContextHeader;
    for i := 0 to |specs|
      invariant context == ContextHeader + SpecLines(specs[..i])
    {
      assert specs[..i + 1][..i] == specs[..i];
      context := context + SpecLine(specs[i]);
    }
    assert specs[..|specs|] == specs;
  }
}
