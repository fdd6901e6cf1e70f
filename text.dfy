/** String primitives with JavaScript's meaning: the white-space class of `\s` and `trim`,
    `includes`, `split` on one character, `join`, `startsWith`/`endsWith`, and the few
    regular-expression shapes the source uses (frontmatter, `key:\s*(.+)`, `^#\s+(.+)$` with the
    multi-line flag), each written out with the regex engine's backtracking behaviour. */
module Text {
  import opened Wrappers

  /** The characters at which `.` stops and multi-line `^`/`$` match. */
  predicate IsLineTerminator(c: char) {
    c == '\n' || c == '\r' || c == '\U{2028}' || c == '\U{2029}'
  }

  /** JavaScript's white space and line terminators: what `\s` matches and `trim` removes. */
  predicate IsSpace(c: char) {
    || IsLineTerminator(c)
    || c == ' ' || c == '\t' || c == '\U{B}' || c == '\U{C}' || c == '\U{A0}' || c == '\U{1680}'
    || ('\U{2000}' <= c <= '\U{200A}')
    || c == '\U{202F}' || c == '\U{205F}' || c == '\U{3000}' || c == '\U{FEFF}'
  }

  predicate AllSpace(s: string) {
    forall i :: 0 <= i < |s| ==> IsSpace(s[i])
  }

  predicate SingleLine(s: string) {
    forall i :: 0 <= i < |s| ==> !IsLineTerminator(s[i])
  }

  // ---------------------------------------------------------------- trim

  function TrimStart(s: string): (r: string)
    ensures |r| <= |s| && r == s[|s| - |r|..]
    ensures AllSpace(s[..|s| - |r|])
    ensures r == [] || !IsSpace(r[0])
  {
    if |s| > 0 && IsSpace(s[0]) then TrimStart(s[1..]) else s
  }

  function TrimEnd(s: string): (r: string)
    ensures |r| <= |s| && r == s[..|r|]
    ensures AllSpace(s[|r|..])
    ensures r == [] || !IsSpace(r[|r| - 1])
  {
    if |s| > 0 && IsSpace(s[|s| - 1]) then
      var r := TrimEnd(s[..|s| - 1]);
      assert s[|r|..] == s[..|s| - 1][|r|..] + [s[|s| - 1]];
      r
    else s
  }

  /** JavaScript's `trim`: the slice of `s` left after removing white space at both ends. */
  function Trim(s: string): (r: string)
    ensures |r| <= |s|
    ensures r == [] || (!IsSpace(r[0]) && !IsSpace(r[|r| - 1]))
  {
    TrimEnd(TrimStart(s))
  }

  /** The trim is a slice of `s` with only white space around it. */
  lemma TrimSlice(s: string)
    ensures exists i :: TrimmedAt(s, i, Trim(s))
  {
    var t := TrimStart(s);
    var r := TrimEnd(t);
    assert Trim(s) == r;
    assert TrimmedAt(s, |s| - |t|, r) by {
      assert s[|s| - |t|..|s| - |t| + |r|] == t[..|r|];
      assert s[|s| - |t| + |r|..] == t[|r|..];
    }
  }

  /** A string that starts and ends with non-space characters is its own trim. */
  lemma TrimSolid(s: string)
    requires s != [] && !IsSpace(s[0]) && !IsSpace(s[|s| - 1])
    ensures Trim(s) == s
  {
    assert TrimStart(s) == s;
  }

  /** `r` is `s[i..]` up to white space on both sides. */
  ghost predicate TrimmedAt(s: string, i: int, r: string) {
    0 <= i <= |s| - |r| && r == s[i..i + |r|] && AllSpace(s[..i]) && AllSpace(s[i + |r|..])
  }

  lemma {:induction false} TrimStartSkipsSpace(a: string, x: string)
    requires AllSpace(a)
    ensures TrimStart(a + x) == TrimStart(x)
  {
    if |a| > 0 {
      assert (a + x)[1..] == a[1..] + x;
      TrimStartSkipsSpace(a[1..], x);
    } else {
      assert a + x == x;
    }
  }

  lemma {:induction false} TrimEndSkipsSpace(x: string, b: string)
    requires AllSpace(b)
    ensures TrimEnd(x + b) == TrimEnd(x)
  {
    if |b| > 0 {
      assert (x + b)[..|x + b| - 1] == x + b[..|b| - 1];
      TrimEndSkipsSpace(x, b[..|b| - 1]);
    } else {
      assert x + b == x;
    }
  }

  lemma {:induction false} TrimStartAppend(x: string, b: string)
    requires TrimStart(x) != []
    ensures TrimStart(x + b) == TrimStart(x) + b
  {
    if IsSpace(x[0]) {
      assert (x + b)[1..] == x[1..] + b;
      TrimStartAppend(x[1..], b);
    }
  }

  /** Trimming a text that only white space surrounds gives the trimmed text. */
  lemma TrimPadded(a: string, x: string, b: string)
    requires AllSpace(a) && AllSpace(b)
    ensures Trim(a + x + b) == Trim(x)
  {
    var xb := x + b;
    assert a + x + b == a + xb;
    TrimStartSkipsSpace(a, xb);
    var t := TrimStart(x);
    if t == [] {
      assert x[..|x|] == x;
      AllSpaceConcat(x, b);
      TrimAllSpace(xb);
      TrimAllSpace(x);
    } else {
      TrimStartAppend(x, b);
      TrimEndSkipsSpace(t, b);
    }
  }

  lemma AllSpaceConcat(x: string, b: string)
    requires AllSpace(x) && AllSpace(b)
    ensures AllSpace(x + b)
  {
    forall i | 0 <= i < |x + b| ensures IsSpace((x + b)[i]) {
      if i < |x| {
        assert (x + b)[i] == x[i];
      } else {
        assert (x + b)[i] == b[i - |x|];
      }
    }
  }

  /** A text made only of white space trims to the empty string. */
  lemma TrimAllSpace(s: string)
    requires AllSpace(s)
    ensures Trim(s) == []
  {
    TrimStartSkipsSpace(s, []);
    assert s + [] == s;
  }

  // ---------------------------------------------------------------- searching

  /** `p` occurs in `s` at position `i`. */
  predicate At(s: string, i: nat, p: string) {
    i + |p| <= |s| && s[i..i + |p|] == p
  }

  /** JavaScript's `s.includes(p)`. */
  function Includes(s: string, p: string): (r: bool)
    ensures r <==> exists i: nat :: At(s, i, p)
    decreases |s|
  {
    if |p| <= |s| && s[..|p|] == p then
      assert At(s, 0, p);
      true
    else if |s| == 0 then
      false
    else
      var r := Includes(s[1..], p);
      assert forall i: nat :: At(s[1..], i, p) <==> At(s, i + 1, p) by {
        forall i: nat ensures At(s[1..], i, p) <==> At(s, i + 1, p) {
          if i + 1 + |p| <= |s| {
            assert s[1..][i..i + |p|] == s[i + 1..i + 1 + |p|];
          }
        }
      }
      assert !At(s, 0, p);
      assert forall i: nat :: At(s, i, p) ==> i > 0 && At(s[1..], i - 1, p);
      r
  }

  /** The first position at or after `from` where `p` occurs (`indexOf(p, from)`). */
  function FindFrom(s: string, p: string, from: nat): (r: Option<nat>)
    ensures r.Some? ==> from <= r.value && At(s, r.value, p)
    ensures r.Some? ==> forall k :: from <= k < r.value ==> !At(s, k, p)
    ensures r.None? ==> forall k: nat :: from <= k ==> !At(s, k, p)
    decreases |s| - from
  {
    if from + |p| > |s| then None
    else if At(s, from, p) then Some(from)
    else FindFrom(s, p, from + 1)
  }

  // ---------------------------------------------------------------- split and join

  /** JavaScript's `parts.join(sep)`. */
  function Join(parts: seq<string>, sep: string): string {
    if |parts| == 0 then ""
    else if |parts| == 1 then parts[0]
    else parts[0] + sep + Join(parts[1..], sep)
  }

  /** JavaScript's `s.endsWith(p)`. */
  predicate EndsWith(s: string, p: string) {
    |p| <= |s| && s[|s| - |p|..] == p
  }

  /** `p` occurs at `i` in `s`, so it occurs `|a|` further on in `a + s` and in `s + b`. */
  lemma AtShift(a: string, s: string, b: string, i: nat, p: string)
    requires At(s, i, p)
    ensures At(a + s + b, |a| + i, p)
  {
    assert (a + s + b)[|a| + i..|a| + i + |p|] == s[i..i + |p|];
  }

  /** Where the `i`-th piece starts in `Join(parts, sep)`. */
  function JoinOffset(parts: seq<string>, sep: string, i: nat): (o: nat)
    requires i < |parts|
    ensures o == 0 <== i == 0
  {
    if i == 0 then 0 else |parts[0]| + |sep| + JoinOffset(parts[1..], sep, i - 1)
  }

  /** Each piece sits at its offset in the join, and pieces follow one another in order. */
  lemma {:induction false} JoinAt(parts: seq<string>, sep: string, i: nat)
    requires i < |parts|
    ensures At(Join(parts, sep), JoinOffset(parts, sep, i), parts[i])
    ensures i + 1 < |parts| ==> JoinOffset(parts, sep, i) + |parts[i]| + |sep| == JoinOffset(parts, sep, i + 1)
  {
    if |parts| > 1 {
      var rest := Join(parts[1..], sep);
      assert Join(parts, sep) == parts[0] + sep + rest;
      if i == 0 {
        AtShift([], parts[0], sep + rest, 0, parts[0]);
        assert [] + parts[0] + (sep + rest) == Join(parts, sep);
      } else {
        JoinAt(parts[1..], sep, i - 1);
        AtShift(parts[0] + sep, rest, [], JoinOffset(parts[1..], sep, i - 1), parts[i]);
        assert parts[0] + sep + rest + [] == Join(parts, sep);
      }
    } else {
      assert At(parts[0], 0, parts[0]);
    }
  }

  /** JavaScript's `s.split(sep)` for a one-character separator: the maximal pieces between
      separators, empty pieces included, and `[""]` for the empty string. */
  function Split(s: string, sep: char): (r: seq<string>)
    ensures |r| >= 1
    ensures forall i :: 0 <= i < |r| ==> sep !in r[i]
  {
    if |s| == 0 then [""]
    else
      var rest := Split(s[1..], sep);
      if s[0] == sep then [""] + rest else [[s[0]] + rest[0]] + rest[1..]
  }

  /** Joining the pieces back with the separator gives the original string. */
  lemma {:induction false} JoinSplit(s: string, sep: char)
    ensures Join(Split(s, sep), [sep]) == s
  {
    if |s| > 0 {
      var rest := Split(s[1..], sep);
      JoinSplit(s[1..], sep);
      if s[0] == sep {
        assert Split(s, sep) == [""] + rest;
        assert ([""] + rest)[1..] == rest;
      } else {
        var r := Split(s, sep);
        assert r == [[s[0]] + rest[0]] + rest[1..];
        if |rest| == 1 {
          assert r == [[s[0]] + rest[0]];
        } else {
          assert r[1..] == rest[1..];
          assert Join(rest, [sep]) == rest[0] + [sep] + Join(rest[1..], [sep]);
        }
      }
    }
  }

  lemma {:induction false} SplitPrefix(a: string, t: string, sep: char)
    requires sep !in a
    ensures Split(a + t, sep) == [a + Split(t, sep)[0]] + Split(t, sep)[1..]
  {
    if |a| > 0 {
      assert (a + t)[1..] == a[1..] + t;
      SplitPrefix(a[1..], t, sep);
      var tt := Split(t, sep);
      var rr := Split(a[1..] + t, sep);
      assert rr[0] == a[1..] + tt[0] && rr[1..] == tt[1..];
      assert (a + t)[0] == a[0] != sep;
      assert Split(a + t, sep) == [[a[0]] + rr[0]] + rr[1..];
      assert [a[0]] + (a[1..] + tt[0]) == a + tt[0];
    } else {
      assert a + t == t;
      assert a + Split(t, sep)[0] == Split(t, sep)[0];
      assert Split(t, sep) == [Split(t, sep)[0]] + Split(t, sep)[1..];
    }
  }

  /** Splitting a join of separator-free pieces gives the pieces back. */
  lemma {:induction false} SplitJoin(parts: seq<string>, sep: char)
    requires |parts| >= 1
    requires forall i :: 0 <= i < |parts| ==> sep !in parts[i]
    ensures Split(Join(parts, [sep]), sep) == parts
  {
    if |parts| == 1 {
      SplitPrefix(parts[0], "", sep);
      assert parts[0] + "" == parts[0];
    } else {
      var rest := Join(parts[1..], [sep]);
      SplitJoin(parts[1..], sep);
      assert Join(parts, [sep]) == parts[0] + ([sep] + rest);
      SplitPrefix(parts[0], [sep] + rest, sep);
      assert ([sep] + rest)[1..] == rest;
      assert Split([sep] + rest, sep) == [""] + Split(rest, sep);
      assert parts[0] + "" == parts[0];
      assert parts == [parts[0]] + parts[1..];
    }
  }

  // ---------------------------------------------------------------- case

  /** `toLowerCase` on the ASCII letters. */
  function LowerChar(c: char): char {
    if 'A' <= c <= 'Z' then (c as int + 32) as char else c
  }

  function Lower(s: string): (r: string)
    ensures |r| == |s|
    ensures forall i :: 0 <= i < |s| ==> r[i] == LowerChar(s[i])
  {
    seq(|s|, i requires 0 <= i < |s| => LowerChar(s[i]))
  }

  // ---------------------------------------------------------------- regular-expression shapes

  /** Every character of `s[i..j]` is white space. */
  ghost predicate Spaces(s: string, i: nat, j: nat) {
    i <= j <= |s| && forall k :: i <= k < j ==> IsSpace(s[k])
  }

  /** Length of the white-space run starting at `i`. */
  function SpaceRun(s: string, i: nat): (n: nat)
    requires i <= |s|
    ensures Spaces(s, i, i + n)
    ensures i + n == |s| || !IsSpace(s[i + n])
    decreases |s| - i
  {
    if i < |s| && IsSpace(s[i]) then 1 + SpaceRun(s, i + 1) else 0
  }

  lemma SpaceRunIs(s: string, i: nat, n: nat)
    requires Spaces(s, i, i + n)
    requires i + n == |s| || !IsSpace(s[i + n])
    ensures SpaceRun(s, i) == n
  {
  }

  /** Position of the first line terminator at or after `j`, or the length of `s`. */
  function LineEnd(s: string, j: nat): (e: nat)
    requires j <= |s|
    ensures j <= e <= |s|
    ensures e == |s| || IsLineTerminator(s[e])
    ensures forall k :: j <= k < e ==> !IsLineTerminator(s[k])
    decreases |s| - j
  {
    if j == |s| || IsLineTerminator(s[j]) then j else LineEnd(s, j + 1)
  }

  lemma LineEndIs(s: string, j: nat, e: nat)
    requires j <= e <= |s|
    requires e == |s| || IsLineTerminator(s[e])
    requires forall k :: j <= k < e ==> !IsLineTerminator(s[k])
    ensures LineEnd(s, j) == e
  {
  }

  /** The last position at or after `lo` whose character is not a line terminator. */
  function LastNonTerminator(s: string, lo: nat): (r: Option<nat>)
    ensures r.Some? ==> lo <= r.value < |s| && !IsLineTerminator(s[r.value])
    ensures r.Some? ==> forall k :: r.value < k < |s| ==> IsLineTerminator(s[k])
    ensures r.None? ==> forall k :: lo <= k < |s| ==> IsLineTerminator(s[k])
    decreases |s|
  {
    if |s| <= lo then None
    else if !IsLineTerminator(s[|s| - 1]) then Some(|s| - 1)
    else LastNonTerminator(s[..|s| - 1], lo)
  }

  /** `v` is what `\s{m,}(.+)` captures when matched from `i` with its white space ending at `j`. */
  ghost predicate CapturedAt(s: string, i: nat, m: nat, j: nat, v: string) {
    && i + m <= j && j + |v| <= |s|
    && Spaces(s, i, j)
    && v == s[j..j + |v|] && v != []
    && (forall k :: j <= k < j + |v| ==> !IsLineTerminator(s[k]))
    && (j + |v| == |s| || IsLineTerminator(s[j + |v|]))
  }

  /** What `\s*(.+)` (m = 0) or `\s+(.+)` (m = 1) captures when matched at position `i`: the
      greedy white space, then the rest of the line; when the white space runs to the end of
      `s`, the engine gives characters back until `.` can match one. None when nothing matches,
      that is, when every place the white space could stop is a line terminator. */
  function CaptureRest(s: string, i: nat, m: nat): (r: Option<string>)
    requires i <= |s|
    ensures r.Some? ==> r.value != [] && SingleLine(r.value)
  {
    var n := SpaceRun(s, i);
    if i + n < |s| then
      if n >= m then Some(s[i + n..LineEnd(s, i + n)]) else None
    else
      match LastNonTerminator(s, i + m)
      case Some(j) => Some(s[j..LineEnd(s, j)])
      case None => None
  }

  /** A capture is a whole line remainder that follows at least `m` white-space characters. */
  lemma CaptureRestSome(s: string, i: nat, m: nat)
    requires i <= |s| && CaptureRest(s, i, m).Some?
    ensures exists j :: CapturedAt(s, i, m, j, CaptureRest(s, i, m).value)
  {
    var n := SpaceRun(s, i);
    if i + n < |s| {
      assert CapturedAt(s, i, m, i + n, s[i + n..LineEnd(s, i + n)]);
    } else {
      var j := LastNonTerminator(s, i + m).value;
      assert CapturedAt(s, i, m, j, s[j..LineEnd(s, j)]);
    }
  }

  /** The capture fails exactly when every place the white space could stop is a line terminator. */
  lemma CaptureRestNone(s: string, i: nat, m: nat)
    requires i <= |s|
    ensures CaptureRest(s, i, m).None? <==>
      forall j :: i + m <= j < |s| && Spaces(s, i, j) ==> IsLineTerminator(s[j])
  {
    var n := SpaceRun(s, i);
    if i + n < |s| && n < m {
      forall j | i + m <= j < |s| ensures !Spaces(s, i, j) {
        assert !IsSpace(s[i + n]);
      }
    } else if i + n < |s| {
      assert Spaces(s, i, i + n) && !IsLineTerminator(s[i + n]);
    } else if LastNonTerminator(s, i + m).Some? {
      var j := LastNonTerminator(s, i + m).value;
      assert Spaces(s, i, j) && !IsLineTerminator(s[j]);
    } else {
      forall j | i + m <= j < |s| && Spaces(s, i, j) ensures IsLineTerminator(s[j]) {}
    }
  }

  /** The white space of `s[i..]` stops at `i + n`, on a character that starts a line ending at `stop`. */
  lemma CaptureNonBlank(s: string, i: nat, n: nat, stop: nat)
    requires i + n < stop <= |s|
    requires Spaces(s, i, i + n) && !IsSpace(s[i + n])
    requires forall k :: i + n <= k < stop ==> !IsLineTerminator(s[k])
    requires stop == |s| || IsLineTerminator(s[stop])
    ensures CaptureRest(s, i, 0) == Some(s[i + n..stop])
  {
    SpaceRunIs(s, i, n);
    LineEndIs(s, i + n, stop);
  }

  /** When `s[i..]` is white space ending in a character `.` matches, the engine backtracks to
      capture that last character alone. */
  lemma CaptureBlank(s: string, i: nat)
    requires i < |s| && Spaces(s, i, |s|) && !IsLineTerminator(s[|s| - 1])
    ensures CaptureRest(s, i, 0) == Some([s[|s| - 1]])
  {
    SpaceRunIs(s, i, |s| - i);
    var j := LastNonTerminator(s, i);
    assert j == Some(|s| - 1);
    LineEndIs(s, |s| - 1, |s|);
    assert s[|s| - 1..|s|] == [s[|s| - 1]];
  }

  /** `key:\s*(.+)` (with `key` holding the colon) matches at position `q`. */
  predicate KeyMatch(s: string, q: nat, key: string) {
    At(s, q, key) && CaptureRest(s, q + |key|, 0).Some?
  }

  function KeyMatchFrom(s: string, key: string, from: nat): (r: Option<nat>)
    ensures r.Some? ==> from <= r.value && KeyMatch(s, r.value, key)
    ensures r.Some? ==> forall q :: from <= q < r.value ==> !KeyMatch(s, q, key)
    ensures r.None? ==> forall q: nat :: from <= q ==> !KeyMatch(s, q, key)
    decreases |s| - from
  {
    if from > |s| then None
    else if KeyMatch(s, from, key) then Some(from)
    else KeyMatchFrom(s, key, from + 1)
  }

  /** Group 1 of the first match of `key:\s*(.+)` in `s`, as `s.match(/key:\s*(.+)/)` gives it. */
  function KeyValue(s: string, key: string): (r: Option<string>)
    ensures r.Some? ==> r.value != [] && SingleLine(r.value)
  {
    match KeyMatchFrom(s, key, 0)
    case None => None
    case Some(q) => CaptureRest(s, q + |key|, 0)
  }

  /** The key's pattern yields a value exactly when it matches somewhere. */
  lemma KeyValueSome(s: string, key: string)
    ensures KeyValue(s, key).Some? <==> exists q: nat :: KeyMatch(s, q, key)
  {
    match KeyMatchFrom(s, key, 0)
    case None =>
    case Some(q) =>
      assert KeyMatch(s, q, key);
  }

  /** Multi-line `^` holds at `q`. */
  predicate LineStart(s: string, q: nat) {
    q == 0 || (q <= |s| && IsLineTerminator(s[q - 1]))
  }

  /** `^#\s+(.+)$` (multi-line) matches at position `q`. */
  predicate HeadingMatch(s: string, q: nat) {
    q < |s| && LineStart(s, q) && s[q] == '#' && CaptureRest(s, q + 1, 1).Some?
  }

  function HeadingFrom(s: string, from: nat): (r: Option<nat>)
    ensures r.Some? ==> from <= r.value && HeadingMatch(s, r.value)
    ensures r.Some? ==> forall q :: from <= q < r.value ==> !HeadingMatch(s, q)
    ensures r.None? ==> forall q: nat :: from <= q ==> !HeadingMatch(s, q)
    decreases |s| - from
  {
    if from >= |s| then None
    else if HeadingMatch(s, from) then Some(from)
    else HeadingFrom(s, from + 1)
  }

  /** Group 1 of `s.match(/^#\s+(.+)$/m)`. */
  function Heading(s: string): (r: Option<string>)
    ensures r.Some? <==> exists q: nat :: HeadingMatch(s, q)
    ensures r.Some? ==> r.value != [] && SingleLine(r.value)
  {
    match HeadingFrom(s, 0)
    case None => None
    case Some(q) => CaptureRest(s, q + 1, 1)
  }

  const FrontmatterOpen: string := "---\n"
  const FrontmatterClose: string := "\n---\n"

  /** Groups 1 and 2 of `s.match(/^---\n([\s\S]*?)\n---\n([\s\S]*)$/)`: the text between the
      opening line and the first closing delimiter, and everything after that delimiter. */
  function SplitFrontmatter(s: string): (r: Option<(string, string)>)
    ensures r.Some? ==> s == FrontmatterOpen + r.value.0 + FrontmatterClose + r.value.1
    ensures r.Some? ==> forall k :: 4 <= k < 4 + |r.value.0| ==> !At(s, k, FrontmatterClose)
    ensures r.None? <==> !(FrontmatterOpen <= s) || forall k: nat :: 4 <= k ==> !At(s, k, FrontmatterClose)
  {
    if !(FrontmatterOpen <= s) then None
    else match FindFrom(s, FrontmatterClose, 4)
      case None => None
      case Some(k) =>
        assert s == s[..4] + s[4..k] + s[k..k + 5] + s[k + 5..];
        Some((s[4..k], s[k + 5..]))
  }

  /** Every newline of `s` is followed, inside `s`, by something other than `-`; such a text
      cannot contain the closing delimiter or end half-way into one. */
  predicate NoDashAfterNewline(s: string) {
    forall k :: 0 <= k < |s| && s[k] == '\n' ==> k + 1 < |s| && s[k + 1] != '-'
  }

  /** A frontmatter block written as `---\n` + fm + `\n---\n` + rest reads back as (fm, rest). */
  lemma FrontmatterRoundTrip(fm: string, rest: string)
    requires NoDashAfterNewline(fm)
    ensures SplitFrontmatter(FrontmatterOpen + fm + FrontmatterClose + rest) == Some((fm, rest))
  {
    var s := FrontmatterOpen + fm + FrontmatterClose + rest;
    assert FrontmatterOpen <= s;
    forall k | 4 <= k < 4 + |fm| ensures !At(s, k, FrontmatterClose) {
      assert s[k] == fm[k - 4];
      if fm[k - 4] == '\n' {
        assert s[k + 1] == fm[k - 3];
      }
    }
    assert At(s, 4 + |fm|, FrontmatterClose) by {
      assert s[4 + |fm|..4 + |fm| + 5] == FrontmatterClose;
    }
    var k := FindFrom(s, FrontmatterClose, 4);
    assert k == Some(4 + |fm|);
    assert s[4..4 + |fm|] == fm;
    assert s[4 + |fm| + 5..] == rest;
  }

  /** A key with no `c` in it cannot occur across a `c`: an occurrence in `a + [c] + b`
      starting at or before the `c` lies inside `a`. */
  lemma NoMatchBeforeSep(a: string, c: char, b: string, key: string)
    requires !Includes(a, key) && c !in key
    ensures forall q: nat :: q <= |a| ==> !At(a + [c] + b, q, key)
  {
    var s := a + [c] + b;
    forall q: nat | q <= |a| ensures !At(s, q, key) {
      if q + |key| <= |a| {
        assert s[q..q + |key|] == a[q..q + |key|];
        assert !At(a, q, key);
      } else if q + |key| <= |s| {
        assert s[q..q + |key|][|a| - q] == s[|a|] == c;
      }
    }
  }

  /** Two key-free texts joined by a character the key lacks stay key-free. */
  lemma SepNoInclude(a: string, c: char, b: string, key: string)
    requires !Includes(a, key) && !Includes(b, key) && c !in key
    ensures !Includes(a + [c] + b, key)
  {
    var s := a + [c] + b;
    NoMatchBeforeSep(a, c, b, key);
    forall q: nat | q > |a| ensures !At(s, q, key) {
      if q + |key| <= |s| {
        assert s[q..q + |key|] == b[q - |a| - 1..q - |a| - 1 + |key|];
        assert !At(b, q - |a| - 1, key);
      }
    }
  }

  /** A character missing from the pieces and the separator is missing from the join. */
  lemma {:induction false} JoinAvoids(parts: seq<string>, sep: string, c: char)
    requires c !in sep
    requires forall i :: 0 <= i < |parts| ==> c !in parts[i]
    ensures c !in Join(parts, sep)
  {
    if |parts| > 1 {
      JoinAvoids(parts[1..], sep, c);
    }
  }

  /** Appending a newline and a line that does not start with `-` keeps newlines dash-free. */
  lemma NoDashAppendLine(a: string, b: string)
    requires NoDashAfterNewline(a)
    requires '\n' !in b && |b| > 0 && b[0] != '-'
    ensures NoDashAfterNewline(a + "\n" + b)
  {
    var s := a + "\n" + b;
    assert forall k :: 0 <= k < |a| ==> s[k] == a[k];
    assert s[|a|] == '\n' && s[|a| + 1] == b[0];
    forall k | |a| < k < |s| ensures s[k] != '\n' {
      assert s[k] == b[k - |a| - 1];
      assert b[k - |a| - 1] in b;
    }
  }

  /** A text without newlines has none to follow. */
  lemma NoDashSingleLine(a: string)
    requires '\n' !in a
    ensures NoDashAfterNewline(a)
  {
    forall k | 0 <= k < |a| ensures a[k] != '\n' {
      assert a[k] in a;
    }
  }

  /** `v` is written at `s[i + 1..]` after a space, and its line ends right after it. */
  ghost predicate SpacedAt(s: string, i: nat, v: string) {
    && i + 1 + |v| <= |s| && s[i] == ' '
    && (forall k :: 0 <= k < |v| ==> s[i + 1 + k] == v[k])
    && (i + 1 + |v| == |s| || IsLineTerminator(s[i + 1 + |v|]))
  }

  /** The white space `v` starts with, after the space at `i`, is white space of `s`. */
  lemma SpacedLead(s: string, i: nat, v: string, f: nat)
    requires SpacedAt(s, i, v) && f <= |v| && AllSpace(v[..f])
    ensures Spaces(s, i, i + 1 + f)
  {
    forall k | i <= k < i + 1 + f ensures IsSpace(s[k]) {
      if k > i {
        assert s[k] == v[k - i - 1] == v[..f][k - i - 1];
      }
    }
  }

  /** `v` written after the space at `i` is the slice of `s` that follows it. */
  lemma SpacedSlice(s: string, i: nat, v: string)
    requires SpacedAt(s, i, v)
    ensures s[i + 1..i + 1 + |v|] == v
  {
    forall k | 0 <= k < |v| ensures s[i + 1..i + 1 + |v|][k] == v[k] {
      assert s[i + 1 + k] == v[k];
    }
  }

  /** After white space from `i` to `g`, a single-line `t` that starts with a non-space
      character and fills its line is what `\s*(.+)` captures. */
  lemma CaptureAfterLead(s: string, i: nat, g: nat, t: string)
    requires Spaces(s, i, g) && g + |t| <= |s| && s[g..g + |t|] == t
    requires t != [] && !IsSpace(t[0]) && SingleLine(t)
    requires g + |t| == |s| || IsLineTerminator(s[g + |t|])
    ensures CaptureRest(s, i, 0) == Some(t)
  {
    var stop := g + |t|;
    forall k | g <= k < stop ensures !IsLineTerminator(s[k]) {
      assert s[k] == t[k - g];
    }
    CaptureNonBlank(s, i, g - i, stop);
  }

  /** A suffix of a slice is a slice. */
  lemma SuffixAt(s: string, lo: nat, v: string, f: nat)
    requires lo + |v| <= |s| && s[lo..lo + |v|] == v && f <= |v|
    ensures s[lo + f..lo + |v|] == v[f..]
  {
    forall k | 0 <= k < |v| - f ensures s[lo + f..lo + |v|][k] == v[f..][k] {
      assert s[lo + f + k] == v[f + k];
    }
  }

  /** `v` filling the line at `i + 1`, after white space and then `t`, captures as `t`. */
  lemma CaptureSuffix(s: string, i: nat, v: string, f: nat, t: string)
    requires i + 1 + |v| <= |s| && s[i + 1..i + 1 + |v|] == v && SingleLine(v)
    requires i + 1 + |v| == |s| || IsLineTerminator(s[i + 1 + |v|])
    requires f + |t| == |v| && v[f..] == t && t != [] && !IsSpace(t[0])
    requires Spaces(s, i, i + 1 + f)
    ensures CaptureRest(s, i, 0) == Some(t)
  {
    var g := i + 1 + f;
    var e := i + 1 + |v|;
    SuffixAt(s, i + 1, v, f);
    assert s[g..e] == t;
    assert SingleLine(t) by {
      forall k | 0 <= k < |t| ensures !IsLineTerminator(t[k]) {
        assert t[k] == v[f + k];
      }
    }
    CaptureAfterLead(s, i, g, t);
  }

  lemma CaptureLineNonBlank(s: string, i: nat, v: string)
    requires SpacedAt(s, i, v) && SingleLine(v) && TrimStart(v) != []
    ensures CaptureRest(s, i, 0) == Some(TrimStart(v))
  {
    var t := TrimStart(v);
    var f := |v| - |t|;
    SpacedLead(s, i, v, f);
    SpacedSlice(s, i, v);
    CaptureSuffix(s, i, v, f, t);
  }

  /** A blank single-line `v` that ends the text after the space at `i` leaves only white
      space from `i`, ending in a character `.` matches. */
  lemma BlankTail(s: string, i: nat, v: string)
    requires i + 1 + |v| == |s| && s[i] == ' ' && s[i + 1..] == v && SingleLine(v) && AllSpace(v)
    ensures Spaces(s, i, |s|) && !IsLineTerminator(s[|s| - 1])
  {
    forall k | i < k < |s| ensures IsSpace(s[k]) {
      assert s[k] == v[k - i - 1];
    }
    if |v| > 0 {
      assert s[|s| - 1] == v[|v| - 1];
    }
  }

  lemma CaptureLineBlank(s: string, i: nat, v: string)
    requires SpacedAt(s, i, v) && SingleLine(v) && TrimStart(v) == [] && i + 1 + |v| == |s|
    ensures CaptureRest(s, i, 0).Some?
    ensures Trim(CaptureRest(s, i, 0).value) == []
  {
    assert AllSpace(v) by {
      assert v[..|v|] == v;
    }
    SpacedSlice(s, i, v);
    assert s[i + 1..] == v;
    BlankTail(s, i, v);
    CaptureBlank(s, i);
    TrimAllSpace([s[|s| - 1]]);
  }

  /** `\s*(.+)` matched on ` v` ending its line (or the text, when `v` is blank) captures `v`
      up to white space. */
  lemma CaptureLine(s: string, i: nat, v: string)
    requires SpacedAt(s, i, v) && SingleLine(v)
    requires i + 1 + |v| == |s| || Trim(v) != []
    ensures CaptureRest(s, i, 0).Some?
    ensures Trim(CaptureRest(s, i, 0).value) == Trim(v)
  {
    var t := TrimStart(v);
    if t != [] {
      CaptureLineNonBlank(s, i, v);
      assert TrimStart(t) == t by {
        assert !IsSpace(t[0]);
      }
    } else {
      TrimAllSpace(v);
      CaptureLineBlank(s, i, v);
    }
  }

  /** The first match of `key:\s*(.+)` is at `p` when it matches there and the key occurs nowhere earlier. */
  lemma KeyMatchFirst(s: string, key: string, p: nat, i: nat)
    requires i == p + |key| && At(s, p, key) && CaptureRest(s, i, 0).Some?
    requires forall q: nat :: q < p ==> !At(s, q, key)
    ensures KeyValue(s, key) == CaptureRest(s, i, 0)
  {
    assert KeyMatch(s, p, key);
    var r := KeyMatchFrom(s, key, 0);
    assert r.Some?;
    var q := r.value;
    assert At(s, q, key);
    assert q <= p;
    assert p <= q;
    assert q + |key| == i;
  }

  lemma Regroup<T>(a: seq<T>, b: seq<T>, c: seq<T>, d: seq<T>)
    ensures a + b + c + d == a + (b + c + d)
  {
  }

  /** A piece sits right after whatever precedes it. */
  lemma AtJoined(a: string, k: string, b: string)
    ensures At(a + k + b, |a|, k)
  {
    var s := a + k + b;
    assert s[|a|..|a| + |k|] == k;
  }

  /** A value written after a space and followed by a line ending (or nothing) is spaced at the space. */
  lemma SpacedJoined(a: string, v: string, after: string)
    requires after == [] || IsLineTerminator(after[0])
    ensures SpacedAt(a + " " + v + after, |a|, v)
  {
    var s := a + " " + v + after;
    assert s[|a|] == ' ';
    forall k | 0 <= k < |v| ensures s[|a| + 1 + k] == v[k] {
    }
    if after != [] {
      assert s[|a| + 1 + |v|] == after[0];
    }
  }

  /** `key:\s*(.+)` reads back the value of a key line at `p` when the key occurs nowhere earlier. */
  lemma KeyLineAt(s: string, p: nat, key: string, i: nat, v: string)
    requires i == p + |key| && At(s, p, key) && SpacedAt(s, i, v) && SingleLine(v)
    requires i + 1 + |v| == |s| || Trim(v) != []
    requires forall q: nat :: q < p ==> !At(s, q, key)
    ensures KeyValue(s, key).Some?
    ensures Trim(KeyValue(s, key).value) == Trim(v)
  {
    CaptureLine(s, i, v);
    assert CaptureRest(s, i, 0).Some? && Trim(CaptureRest(s, i, 0).value) == Trim(v);
    KeyMatchFirst(s, key, p, i);
  }

  /** In a text whose lines before the key line do not mention the key, `key:\s*(.+)` reads
      back the value written after `key` and a space. */
  lemma KeyLineValue(before: string, key: string, v: string, after: string)
    requires |key| > 0 && '\n' !in key && !Includes(before, key)
    requires SingleLine(v)
    requires after == [] || (IsLineTerminator(after[0]) && Trim(v) != [])
    ensures KeyValue(before + "\n" + key + " " + v + after, key).Some?
    ensures Trim(KeyValue(before + "\n" + key + " " + v + after, key).value) == Trim(v)
  {
    var line := before + "\n";
    var head := line + key;
    var tail := " " + v + after;
    var rest := key + " " + v + after;
    var s := head + " " + v + after;
    Regroup(head, " ", v, after);
    Regroup(key, " ", v, after);
    assert s == line + key + tail;
    assert s == before + ['\n'] + rest;
    var p, i := |line|, |head|;
    assert i == p + |key|;
    AtJoined(line, key, tail);
    assert At(s, p, key);
    SpacedJoined(head, v, after);
    assert SpacedAt(s, i, v);
    NoMatchBeforeSep(before, '\n', rest, key);
    assert forall q: nat :: q < p ==> !At(s, q, key);
    assert |s| == i + 1 + |v| + |after|;
    KeyLineAt(s, p, key, i, v);
  }
}
