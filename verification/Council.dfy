/** Council artifacts: splitting a text at its headings, and marking it up with the accepted findings. */
module Council {
  import opened Wrappers
  import opened Text

  const MAX_ARTIFACT_SECTIONS: nat := 16
  const MAX_ARTIFACT_SECTION_CHARS: nat := 12_000

  // ---------- headings ----------

  function LeadingHashes(s: string): (n: nat)
    ensures n <= |s|
  {
    if s != "" && s[0] == '#' then 1 + LeadingHashes(s[1..]) else 0
  }

  /** One to six hashes, a space, and a title that is not blank. */
  function MarkdownHeading(line: string): (title: Option<string>)
    ensures title.Some? ==> title.value != "" && !IsBlank(line)
  {
    var trimmed := TrimStart(line);
    var hashes := LeadingHashes(trimmed);
    if hashes == 0 || hashes > 6 || hashes == |trimmed| || trimmed[hashes] != ' ' then None
    else
      var title := Trim(trimmed[hashes..]);
      TrimStartBlank(line);
      assert !IsWhitespace(trimmed[0]);
      if title != "" then Some(title) else None
  }

  function Hashes(n: nat): string {
    if n == 0 then "" else "#" + Hashes(n - 1)
  }

  lemma {:induction false} TrimStartDrops(indent: string, rest: string)
    requires IsBlank(indent) && rest != "" && !IsWhitespace(rest[0])
    ensures TrimStart(indent + rest) == rest
  {
    if indent == "" {
      assert indent + rest == rest;
    } else {
      assert (indent + rest)[1..] == indent[1..] + rest;
      TrimStartDrops(indent[1..], rest);
    }
  }

  lemma {:induction false} HashesCounted(n: nat, rest: string)
    requires rest == "" || rest[0] != '#'
    ensures LeadingHashes(Hashes(n) + rest) == n && |Hashes(n)| == n
  {
    if n == 0 {
      assert "" + rest == rest;
    } else {
      HashesCounted(n - 1, rest);
      assert (Hashes(n) + rest)[1..] == Hashes(n - 1) + rest;
    }
  }

  lemma {:induction false} HashesFound(s: string)
    ensures s == Hashes(LeadingHashes(s)) + s[LeadingHashes(s)..]
  {
    if s != "" && s[0] == '#' {
      HashesFound(s[1..]);
      assert s == "#" + s[1..];
      assert s[1..][LeadingHashes(s[1..])..] == s[LeadingHashes(s)..];
    }
  }

  lemma {:induction false} TrimStartFound(s: string) returns (indent: string)
    ensures IsBlank(indent) && s == indent + TrimStart(s)
  {
    if s != "" && IsWhitespace(s[0]) {
      var rest := TrimStartFound(s[1..]);
      indent := [s[0]] + rest;
    } else {
      indent := "";
    }
  }

  ghost predicate WrittenAs(line: string, indent: string, level: nat, title: string) {
    && IsBlank(indent) && 1 <= level <= 6 && Trim(" " + title) != ""
    && line == indent + (Hashes(level) + (" " + title))
  }

  lemma WrittenIsHeading(line: string, indent: string, level: nat, title: string)
    requires WrittenAs(line, indent, level, title)
    ensures MarkdownHeading(line) == Some(Trim(" " + title))
  {
    var marked := Hashes(level) + (" " + title);
    TrimStartDrops(indent, marked);
    HashesCounted(level, " " + title);
    assert marked[level..] == " " + title;
  }

  lemma HeadingIsWritten(line: string) returns (indent: string, level: nat, title: string)
    requires MarkdownHeading(line).Some?
    ensures WrittenAs(line, indent, level, title)
  {
    indent := TrimStartFound(line);
    var trimmed := TrimStart(line);
    HashesFound(trimmed);
    level := LeadingHashes(trimmed);
    title := trimmed[level + 1..];
    assert trimmed[level..] == " " + title;
  }

  /** A heading is exactly blank space, one to six hashes, a space and a title that is not blank. */
  lemma HeadingExactly(line: string, heading: string)
    ensures MarkdownHeading(line) == Some(heading) <==>
            exists indent, level, title :: WrittenAs(line, indent, level, title) && heading == Trim(" " + title)
  {
    if MarkdownHeading(line).Some? {
      var indent, level, title := HeadingIsWritten(line);
      WrittenIsHeading(line, indent, level, title);
    }
    if indent, level, title :| WrittenAs(line, indent, level, title) && heading == Trim(" " + title) {
      WrittenIsHeading(line, indent, level, title);
    }
  }

  // ---------- sections ----------

  datatype CouncilArtifactSection = CouncilArtifactSection(title: string, text: string)

  /** The lines, each ended by a line feed. */
  function Rendered(lines: seq<string>): string {
    if lines == [] then "" else lines[0] + "\n" + Rendered(lines[1..])
  }

  lemma {:induction false} RenderedConcat(a: seq<string>, b: seq<string>)
    ensures Rendered(a + b) == Rendered(a) + Rendered(b)
  {
    if a == [] {
      assert a + b == b;
    } else {
      RenderedConcat(a[1..], b);
      assert (a + b)[1..] == a[1..] + b;
      Regroup(a[0] + "\n", Rendered(a[1..]), Rendered(b));
    }
  }

  lemma RenderedSnoc(lines: seq<string>, line: string)
    ensures Rendered(lines + [line]) == Rendered(lines) + line + "\n"
  {
    RenderedConcat(lines, [line]);
    assert [line][1..] == [];
    assert line + "\n" + "" == line + "\n";
  }

  lemma {:induction false} FindSkips(line: string, rest: string)
    requires '\n' !in line
    ensures Find(line + "\n" + rest, '\n') == |line|
  {
    var s := line + "\n" + rest;
    if line != "" {
      assert s[1..] == line[1..] + "\n" + rest;
      FindSkips(line[1..], rest);
    }
  }

  /** Reading lines undoes writing them, for lines without a line feed inside or a carriage return at the end. */
  lemma {:induction false} LinesOfRendered(lines: seq<string>)
    requires forall i :: 0 <= i < |lines| ==> '\n' !in lines[i] && StripCarriageReturn(lines[i]) == lines[i]
    ensures Lines(Rendered(lines)) == lines
  {
    if lines != [] {
      var text := Rendered(lines);
      var rest := Rendered(lines[1..]);
      FindSkips(lines[0], rest);
      LinesOfRendered(lines[1..]);
      assert text[..|lines[0]|] == lines[0] && text[|lines[0]| + 1..] == rest;
    }
  }

  ghost predicate NoPair(text: string) {
    forall n: nat :: !PairAt(text, '\r', '\n', n)
  }

  /** Empty or ended by a line feed, and without a carriage return before any line feed. */
  ghost predicate Verbatim(text: string) {
    (text == "" || text[|text| - 1] == '\n') && NoPair(text)
  }

  lemma PairShifts(text: string, n: nat, k: nat)
    requires n < |text|
    ensures PairAt(text[n + 1..], '\r', '\n', k) <==> PairAt(text, '\r', '\n', n + 1 + k)
  {
  }

  /** In the first line and its end a pair can only stand at the very end. */
  lemma FirstPair(text: string, n: nat, k: nat)
    requires n < |text| && text[n] == '\n' && forall i :: 0 <= i < n ==> text[i] != '\n'
    requires k <= n
    ensures PairAt(text, '\r', '\n', k) <==> k + 1 == n && StripCarriageReturn(text[..n]) != text[..n]
  {
  }

  lemma NoPairRest(text: string, n: nat)
    requires n < |text| && n == Find(text, '\n')
    ensures NoPair(text) <==> NoPair(text[n + 1..]) && StripCarriageReturn(text[..n]) == text[..n]
  {
    hide Find, PairAt, StripCarriageReturn;
    var rest := text[n + 1..];
    forall k: nat | k <= n
      ensures PairAt(text, '\r', '\n', k) <==> k + 1 == n && StripCarriageReturn(text[..n]) != text[..n]
    {
      FirstPair(text, n, k);
    }
    if StripCarriageReturn(text[..n]) != text[..n] {
      EmptyKeeps(text[..n]);
      assert PairAt(text, '\r', '\n', n - 1);
    }
    if NoPair(text) {
      forall k: nat ensures !PairAt(rest, '\r', '\n', k) { PairShifts(text, n, k); }
    }
    if NoPair(rest) && StripCarriageReturn(text[..n]) == text[..n] {
      forall k: nat ensures !PairAt(text, '\r', '\n', k) {
        if k > n { PairShifts(text, n, k - n - 1); }
      }
    }
  }

  lemma EmptyKeeps(line: string)
    ensures StripCarriageReturn(line) != line ==> |line| > 0
  {
  }

  lemma VerbatimRest(text: string, n: nat)
    requires n < |text| && n == Find(text, '\n')
    ensures Verbatim(text) <==> Verbatim(text[n + 1..]) && StripCarriageReturn(text[..n]) == text[..n]
  {
    hide Find, StripCarriageReturn, NoPair;
    NoPairRest(text, n);
  }

  lemma SameAfter(line: string, a: string, b: string)
    ensures line + "\n" + a == line + "\n" + b <==> a == b
  {
    assert (line + "\n" + a)[|line| + 1..] == a && (line + "\n" + b)[|line| + 1..] == b;
  }

  lemma StrippedDiffers(line: string, a: string, b: string)
    requires StripCarriageReturn(line) != line
    ensures StripCarriageReturn(line) + "\n" + a != line + "\n" + b
  {
    var n := |line| - 1;
    assert (StripCarriageReturn(line) + "\n" + a)[n] == '\n' && (line + "\n" + b)[n] == '\r';
  }

  lemma LineAgrees(line: string, a: string, b: string)
    ensures StripCarriageReturn(line) + "\n" + a == line + "\n" + b <==> StripCarriageReturn(line) == line && a == b
  {
    if StripCarriageReturn(line) == line {
      SameAfter(line, a, b);
    } else {
      StrippedDiffers(line, a, b);
    }
  }

  lemma FirstLine(text: string, n: nat)
    requires n < |text| && n == Find(text, '\n')
    ensures Rendered(Lines(text)) == StripCarriageReturn(text[..n]) + "\n" + Rendered(Lines(text[n + 1..]))
  {
    LinesFirst(text, n);
    hide *;
    RenderedCons(StripCarriageReturn(text[..n]), Lines(text[n + 1..]));
  }

  lemma LinesFirst(text: string, n: nat)
    requires n < |text| && n == Find(text, '\n')
    ensures Lines(text) == [StripCarriageReturn(text[..n])] + Lines(text[n + 1..])
  {
    hide Find, StripCarriageReturn;
  }

  lemma RenderedCons(line: string, rest: seq<string>)
    ensures Rendered([line] + rest) == line + "\n" + Rendered(rest)
  {
    assert ([line] + rest)[1..] == rest;
  }

  lemma SplitAtFeed(text: string, n: nat)
    requires n < |text| && text[n] == '\n'
    ensures text == text[..n] + "\n" + text[n + 1..]
  {
  }

  /** Writing the lines back gives the text exactly when it is verbatim in this sense. */
  lemma {:induction false} RenderedExactly(text: string)
    ensures Rendered(Lines(text)) == text <==> Verbatim(text)
    decreases |text|
  {
    if text != "" {
      var n := Find(text, '\n');
      if n == |text| {
        assert [text][1..] == [] && |Rendered([text])| == |text| + 1;
      } else {
        FirstLine(text, n);
        SplitAtFeed(text, n);
        LineAgrees(text[..n], Rendered(Lines(text[n + 1..])), text[n + 1..]);
        VerbatimRest(text, n);
        RenderedExactly(text[n + 1..]);
      }
    }
  }

  /** What is written from clean lines is verbatim. */
  lemma RenderedIsVerbatim(lines: seq<string>)
    requires forall i :: 0 <= i < |lines| ==> '\n' !in lines[i] && StripCarriageReturn(lines[i]) == lines[i]
    ensures Verbatim(Rendered(lines))
  {
    LinesOfRendered(lines);
    RenderedExactly(Rendered(lines));
  }

  /** A carriage return before a line feed is dropped, and a missing last line feed is added. */
  lemma LineEndsAreRewritten()
    ensures Rendered(Lines("a\r\n")) == "a\n" && Rendered(Lines("a")) == "a\n"
  {
    assert "a\r\n"[..2] == "a\r" && "a\r"[..1] == "a" && "a\r\n"[3..] == "";
    assert Lines("a\r\n") == ["a"] && Lines("a") == ["a"] && ["a"][1..] == [];
  }

  function Bounded(text: string): string {
    if |text| <= MAX_ARTIFACT_SECTION_CHARS then text else text[..MAX_ARTIFACT_SECTION_CHARS]
  }

  predicate BlankLines(lines: seq<string>) {
    forall i :: 0 <= i < |lines| ==> IsBlank(lines[i])
  }

  lemma BlankConcat(a: string, b: string)
    ensures IsBlank(a + b) <==> IsBlank(a) && IsBlank(b)
  {
    assert forall i :: 0 <= i < |a| ==> a[i] == (a + b)[i];
    assert forall i :: 0 <= i < |b| ==> b[i] == (a + b)[|a| + i];
  }

  lemma {:induction false} BlankRendered(lines: seq<string>)
    ensures IsBlank(Rendered(lines)) <==> BlankLines(lines)
  {
    if lines != [] {
      BlankRendered(lines[1..]);
      BlankConcat(lines[0] + "\n", Rendered(lines[1..]));
      BlankConcat(lines[0], "\n");
      assert lines == [lines[0]] + lines[1..];
    }
  }

  /** The line is a heading with something other than blank lines above it in the section. */
  predicate InnerHeading(body: seq<string>, j: nat)
    requires j < |body|
  {
    MarkdownHeading(body[j]).Some? && !BlankLines(body[..j])
  }

  /** The line is the heading that opens the section. */
  predicate OpeningHeading(body: seq<string>, j: nat)
    requires j < |body|
  {
    MarkdownHeading(body[j]).Some? && BlankLines(body[..j])
  }

  const REMAINDER_TITLE: string := "Additional sections (bounded)"
  const UNTITLED: string := "Artifact"

  ghost predicate HasInnerHeading(body: seq<string>) {
    exists j: nat :: j < |body| && InnerHeading(body, j)
  }

  /** An opening heading names the section, and without one it is the untitled artifact. */
  ghost predicate TitledByOpening(body: seq<string>, title: string) {
    && (forall j: nat :: j < |body| && OpeningHeading(body, j) ==> Some(title) == MarkdownHeading(body[j]))
    && ((forall j: nat :: j < |body| ==> !OpeningHeading(body, j)) ==> title == UNTITLED)
  }

  /** The title a section's lines give it: a later heading makes it the remainder. */
  ghost predicate Titled(body: seq<string>, title: string) {
    if HasInnerHeading(body) then title == REMAINDER_TITLE else TitledByOpening(body, title)
  }

  /** What section k must be for the lines it covers. */
  ghost predicate Covers(section: CouncilArtifactSection, body: seq<string>, k: nat) {
    && section.text == Bounded(Rendered(body))
    && Titled(body, section.title)
    && (k > 0 ==> body != [] && MarkdownHeading(body[0]).Some?)
    && (k < MAX_ARTIFACT_SECTIONS - 1 ==> forall j: nat :: j < |body| ==> !InnerHeading(body, j))
  }

  function Flatten(bodies: seq<seq<string>>): seq<string> {
    if bodies == [] then [] else Flatten(bodies[..|bodies| - 1]) + bodies[|bodies| - 1]
  }

  /** The sections cover the lines in order, each closed one with some text in it. */
  ghost predicate SplitInto(lines: seq<string>, sections: seq<CouncilArtifactSection>, bodies: seq<seq<string>>) {
    && |sections| == |bodies|
    && 1 <= |sections| <= MAX_ARTIFACT_SECTIONS
    && Flatten(bodies) == lines
    && (forall k: nat {:trigger Covers(sections[k], bodies[k], k)} ::
          k < |sections| ==> Covers(sections[k], bodies[k], k))
    && (forall k :: 0 <= k < |sections| - 1 ==> !BlankLines(bodies[k]))
  }

  /** The loop state: the closed sections, and the lines and title of the open one. */
  ghost predicate Splitting(lines: seq<string>, sections: seq<CouncilArtifactSection>, bodies: seq<seq<string>>,
                            title: string, open: seq<string>) {
    && |sections| == |bodies| < MAX_ARTIFACT_SECTIONS
    && Flatten(bodies) + open == lines
    && (forall k: nat {:trigger Covers(sections[k], bodies[k], k)} ::
          k < |sections| ==> Covers(sections[k], bodies[k], k))
    && (forall k :: 0 <= k < |sections| ==> !BlankLines(bodies[k]))
    && Titled(open, title)
    && (sections != [] ==> open != [] && MarkdownHeading(open[0]).Some?)
    && (|sections| < MAX_ARTIFACT_SECTIONS - 1 ==> forall j: nat :: j < |open| ==> !InnerHeading(open, j))
  }

  lemma BlankNoHeadings(body: seq<string>)
    requires BlankLines(body)
    ensures forall j: nat :: j < |body| ==> !InnerHeading(body, j) && !OpeningHeading(body, j)
  {
  }

  /** A line that joins the open section leaves the headings above it what they were. */
  lemma HeadingsAbove(open: seq<string>, line: string, j: nat)
    requires j < |open|
    ensures InnerHeading(open + [line], j) == InnerHeading(open, j)
    ensures OpeningHeading(open + [line], j) == OpeningHeading(open, j)
  {
    assert (open + [line])[..j] == open[..j];
  }

  lemma HeadingBelow(open: seq<string>, line: string)
    ensures InnerHeading(open + [line], |open|) <==> MarkdownHeading(line).Some? && !BlankLines(open)
    ensures OpeningHeading(open + [line], |open|) <==> MarkdownHeading(line).Some? && BlankLines(open)
  {
    assert (open + [line])[..|open|] == open;
  }

  lemma InnerJoins(open: seq<string>, line: string)
    ensures HasInnerHeading(open + [line]) <==>
            HasInnerHeading(open) || (MarkdownHeading(line).Some? && !BlankLines(open))
  {
    HeadingBelow(open, line);
    if j: nat :| j < |open| && InnerHeading(open, j) {
      HeadingsAbove(open, line, j);
    }
    if j: nat :| j < |open| && InnerHeading(open + [line], j) {
      HeadingsAbove(open, line, j);
    }
  }

  lemma OpeningJoins(open: seq<string>, title: string, line: string)
    requires TitledByOpening(open, title) && MarkdownHeading(line).None?
    ensures TitledByOpening(open + [line], title)
  {
    HeadingBelow(open, line);
    forall j: nat | j < |open| ensures OpeningHeading(open + [line], j) == OpeningHeading(open, j) {
      HeadingsAbove(open, line, j);
    }
  }

  lemma HeadingNames(open: seq<string>, line: string, heading: string)
    requires BlankLines(open) && MarkdownHeading(line) == Some(heading)
    ensures TitledByOpening(open + [line], heading)
  {
    HeadingBelow(open, line);
    BlankNoHeadings(open);
    forall j: nat | j < |open| ensures !OpeningHeading(open + [line], j) {
      HeadingsAbove(open, line, j);
    }
  }

  /** A line joins the open section; the title changes as the loop changes it. */
  lemma LineJoins(open: seq<string>, title: string, line: string, next: string)
    requires Titled(open, title)
    requires next == match MarkdownHeading(line)
                     case None => title
                     case Some(heading) => if BlankLines(open) then heading else REMAINDER_TITLE
    ensures Titled(open + [line], next)
  {
    InnerJoins(open, line);
    if MarkdownHeading(line).None? {
      if !HasInnerHeading(open) {
        OpeningJoins(open, title, line);
      }
    } else if BlankLines(open) {
      BlankNoHeadings(open);
      HeadingNames(open, line, next);
    }
  }

  function Section(title: string, body: string): CouncilArtifactSection {
    CouncilArtifactSection(title, Bounded(body))
  }

  lemma SectionCloses(lines: seq<string>, sections: seq<CouncilArtifactSection>, bodies: seq<seq<string>>,
                      title: string, open: seq<string>)
    requires Splitting(lines, sections, bodies, title, open)
    ensures Covers(Section(title, Rendered(open)), open, |sections|)
    ensures Flatten(bodies + [open]) == lines
  {
    assert (bodies + [open])[..|bodies|] == bodies;
  }

  /** A heading below some text closes the section while fewer than fifteen are closed. */
  lemma HeadingSplits(lines: seq<string>, sections: seq<CouncilArtifactSection>, bodies: seq<seq<string>>,
                      title: string, open: seq<string>, line: string, heading: string)
    requires Splitting(lines, sections, bodies, title, open)
    requires MarkdownHeading(line) == Some(heading) && !BlankLines(open)
    requires |sections| < MAX_ARTIFACT_SECTIONS - 1
    ensures Splitting(lines + [line], sections + [Section(title, Rendered(open))], bodies + [open], heading, [line])
  {
    SectionCloses(lines, sections, bodies, title, open);
    HeadingOpens(line, heading);
  }

  /** Any other line joins the open section. */
  lemma LineStays(lines: seq<string>, sections: seq<CouncilArtifactSection>, bodies: seq<seq<string>>,
                  title: string, open: seq<string>, line: string, next: string)
    requires Splitting(lines, sections, bodies, title, open)
    requires MarkdownHeading(line).None? || BlankLines(open) || |sections| == MAX_ARTIFACT_SECTIONS - 1
    requires next == match MarkdownHeading(line)
                     case None => title
                     case Some(heading) => if BlankLines(open) then heading else REMAINDER_TITLE
    ensures Splitting(lines + [line], sections, bodies, next, open + [line])
  {
    hide MarkdownHeading, Titled, Covers, Flatten;
    LineJoins(open, title, line, next);
    HeadingBelow(open, line);
    forall j: nat | j < |open| ensures InnerHeading(open + [line], j) == InnerHeading(open, j) {
      HeadingsAbove(open, line, j);
    }
    assert Flatten(bodies) + (open + [line]) == Flatten(bodies) + open + [line];
  }

  lemma HeadingOpens(line: string, heading: string)
    requires MarkdownHeading(line) == Some(heading)
    ensures Titled([line], heading) && !InnerHeading([line], 0)
  {
    assert [line][..0] == [];
    assert OpeningHeading([line], 0);
  }

  /** The last section closes; once one is closed, the open one has its heading and is never blank. */
  lemma LastCloses(lines: seq<string>, sections: seq<CouncilArtifactSection>, bodies: seq<seq<string>>,
                   title: string, open: seq<string>)
    requires Splitting(lines, sections, bodies, title, open)
    ensures BlankLines(open) ==> sections == []
    ensures SplitInto(lines, sections + [Section(title, Rendered(open))], bodies + [open])
  {
    SectionCloses(lines, sections, bodies, title, open);
    if sections != [] {
      assert !IsBlank(open[0]);
    }
  }

  lemma TakeNext<T>(s: seq<T>, i: nat)
    requires i < |s|
    ensures s[..i + 1] == s[..i] + [s[i]]
  {
  }

  lemma NothingSplit()
    ensures Splitting([], [], [], UNTITLED, [])
  {
  }

  ghost predicate IsSplit(text: string, sections: seq<CouncilArtifactSection>) {
    exists bodies :: SplitInto(Lines(text), sections, bodies)
  }

  /** The text kept for the open section is blank exactly when its lines are. */
  lemma BodyBlank(open: seq<string>)
    ensures Trim(Rendered(open)) == "" <==> BlankLines(open)
  {
    BlankRendered(open);
    BlankTrims(Rendered(open));
  }

  lemma BodyGrows(open: seq<string>, line: string)
    ensures Rendered(open) + line + "\n" == Rendered(open + [line])
    ensures "" + line + "\n" == Rendered([line])
  {
    RenderedSnoc(open, line);
    RenderedSnoc([], line);
    assert [] + [line] == [line];
  }

  /** Splits at the headings; the sixteenth section takes whatever is left. */
  method SplitArtifactSections(text: string) returns (sections: seq<CouncilArtifactSection>)
    ensures IsSplit(text, sections)
  {
    hide Covers, Titled, Flatten, Trim, MarkdownHeading, Section, Lines;
    sections := [];
    ghost var bodies: seq<seq<string>> := [];
    var title := UNTITLED;
    var body := "";
    ghost var open: seq<string> := [];
    var lines := Lines(text);
    ghost var done: seq<string> := [];
    NothingSplit();
    for i := 0 to |lines|
      invariant done == lines[..i]
      invariant Splitting(done, sections, bodies, title, open)
      invariant body == Rendered(open)
    {
      var line := lines[i];
      TakeNext(lines, i);
      var heading := MarkdownHeading(line);
      BodyBlank(open);
      BodyGrows(open, line);
      if heading.Some? && Trim(body) != "" && |sections| < MAX_ARTIFACT_SECTIONS - 1 {
        HeadingSplits(done, sections, bodies, title, open, line, heading.value);
        sections := sections + [Section(title, body)];
        title := heading.value;
        body := "";
        bodies, open := bodies + [open], [line];
      } else {
        ghost var before := title;
        if heading.Some? {
          title := if Trim(body) == "" then heading.value else REMAINDER_TITLE;
        }
        LineStays(done, sections, bodies, before, open, line, title);
        open := open + [line];
      }
      body := body + line + "\n";
      done := done + [line];
    }
    assert done == lines;
    BodyBlank(open);
    LastCloses(lines, sections, bodies, title, open);
    if Trim(body) != "" || sections == [] {
      sections := sections + [Section(title, body)];
      bodies := bodies + [open];
    }
  }

  // ---------- what the split means ----------

  lemma FlattenSnoc(bodies: seq<seq<string>>, last: seq<string>)
    ensures Flatten(bodies + [last]) == Flatten(bodies) + last
    ensures Flatten([]) == []
  {
    assert (bodies + [last])[..|bodies|] == bodies;
  }

  lemma {:induction false} FlattenConcat(a: seq<seq<string>>, b: seq<seq<string>>)
    ensures Flatten(a + b) == Flatten(a) + Flatten(b)
    decreases |b|
  {
    hide Flatten;
    if b == [] {
      FlattenSnoc(a, []);
      assert a + b == a && Flatten(a) + [] == Flatten(a);
    } else {
      var front, last := b[..|b| - 1], b[|b| - 1];
      FlattenConcat(a, front);
      FlattenSnoc(front, last);
      FlattenSnoc(a + front, last);
      assert b == front + [last] && a + b == a + front + [last];
    }
  }

  /** Body k lies in the lines right after the bodies before it. */
  lemma BodyInLines(lines: seq<string>, bodies: seq<seq<string>>, k: nat)
    requires Flatten(bodies) == lines && k < |bodies|
    ensures var from := |Flatten(bodies[..k])|;
            && from + |bodies[k]| <= |lines|
            && lines[from..from + |bodies[k]|] == bodies[k]
            && Flatten(bodies[..k + 1]) == Flatten(bodies[..k]) + bodies[k]
  {
    var upTo := bodies[..k + 1];
    assert upTo[..|upTo| - 1] == bodies[..k];
    assert bodies == upTo + bodies[k + 1..];
    FlattenConcat(upTo, bodies[k + 1..]);
  }

  lemma NextBodyStarts(lines: seq<string>, a: seq<seq<string>>, k: nat)
    requires Flatten(a) == lines && k + 1 < |a| && a[k + 1] != []
    ensures var next := |Flatten(a[..k])| + |a[k]|;
            next < |lines| && lines[next] == a[k + 1][0]
  {
    BodyInLines(lines, a, k);
    BodyInLines(lines, a, k + 1);
    var next := |Flatten(a[..k + 1])|;
    assert lines[next..next + |a[k + 1]|][0] == lines[next];
  }

  lemma LineInBody(lines: seq<string>, b: seq<seq<string>>, k: nat, n: nat)
    requires Flatten(b) == lines && k < |b| && n < |b[k]|
    ensures var from := |Flatten(b[..k])|;
            from + n < |lines| && lines[from + n] == b[k][n] && lines[from..from + n] == b[k][..n]
  {
    BodyInLines(lines, b, k);
    var from := |Flatten(b[..k])|;
    var body := lines[from..from + |b[k]|];
    assert body[n] == lines[from + n] && body[..n] == lines[from..from + n];
  }

  lemma HeadingAfter(lines: seq<string>, s: seq<CouncilArtifactSection>, a: seq<seq<string>>, k: nat)
    requires SplitInto(lines, s, a) && k + 1 < |a|
    ensures var next := |Flatten(a[..k])| + |a[k]|;
            next < |lines| && MarkdownHeading(lines[next]).Some? && !BlankLines(a[k]) && k < MAX_ARTIFACT_SECTIONS - 1
  {
    assert Covers(s[k + 1], a[k + 1], k + 1);
    NextBodyStarts(lines, a, k);
  }

  lemma NoHeadingInside(lines: seq<string>, t: seq<CouncilArtifactSection>, b: seq<seq<string>>, k: nat, n: nat)
    requires SplitInto(lines, t, b) && k < |b| && k < MAX_ARTIFACT_SECTIONS - 1 && n < |b[k]|
    ensures var from := |Flatten(b[..k])|;
            from + n < |lines| && (MarkdownHeading(lines[from + n]).Some? ==> BlankLines(lines[from..from + n]))
  {
    LineInBody(lines, b, k, n);
    assert Covers(t[k], b[k], k) && !InnerHeading(b[k], n);
  }

  lemma NoLonger(lines: seq<string>, s: seq<CouncilArtifactSection>, a: seq<seq<string>>,
                 t: seq<CouncilArtifactSection>, b: seq<seq<string>>, k: nat)
    requires SplitInto(lines, s, a) && SplitInto(lines, t, b)
    requires k < |a| && k < |b| && a[..k] == b[..k]
    ensures |b[k]| <= |a[k]|
  {
    BodyInLines(lines, a, k);
    BodyInLines(lines, b, k);
    if k + 1 == |a| {
      assert a[..k + 1] == a;
    } else {
      HeadingAfter(lines, s, a, k);
      if |a[k]| < |b[k]| {
        NoHeadingInside(lines, t, b, k, |a[k]|);
      }
    }
  }

  lemma SameNextBody(lines: seq<string>, a: seq<seq<string>>, b: seq<seq<string>>, k: nat)
    requires Flatten(a) == lines && Flatten(b) == lines && k < |a| && k < |b|
    requires a[..k] == b[..k] && |a[k]| == |b[k]|
    ensures a[..k + 1] == b[..k + 1]
  {
    BodyInLines(lines, a, k);
    BodyInLines(lines, b, k);
    assert a[k] == b[k];
    TakeNext(a, k);
    TakeNext(b, k);
  }

  lemma {:induction false} SameBodies(lines: seq<string>, s: seq<CouncilArtifactSection>, a: seq<seq<string>>,
                                      t: seq<CouncilArtifactSection>, b: seq<seq<string>>, k: nat)
    requires SplitInto(lines, s, a) && SplitInto(lines, t, b)
    requires k <= |a| && k <= |b|
    ensures a[..k] == b[..k]
  {
    if k > 0 {
      SameBodies(lines, s, a, t, b, k - 1);
      NoLonger(lines, s, a, t, b, k - 1);
      NoLonger(lines, t, b, s, a, k - 1);
      SameNextBody(lines, a, b, k - 1);
    }
  }

  lemma NoFewer(lines: seq<string>, s: seq<CouncilArtifactSection>, a: seq<seq<string>>,
                t: seq<CouncilArtifactSection>, b: seq<seq<string>>)
    requires SplitInto(lines, s, a) && SplitInto(lines, t, b)
    ensures |b| <= |a|
  {
    if |a| < |b| {
      SameBodies(lines, s, a, t, b, |a|);
      assert a[..|a|] == a;
      HeadingAfter(lines, t, b, |a| - 1);
      BodyInLines(lines, b, |a| - 1);
    }
  }

  lemma TitleIsDetermined(body: seq<string>, s: string, t: string)
    requires Titled(body, s) && Titled(body, t)
    ensures s == t
  {
    if !HasInnerHeading(body) {
      if j: nat :| j < |body| && OpeningHeading(body, j) {
        assert Some(s) == Some(t);
      }
    }
  }

  lemma SplitsAgree(lines: seq<string>, s: seq<CouncilArtifactSection>, a: seq<seq<string>>,
                    t: seq<CouncilArtifactSection>, b: seq<seq<string>>)
    requires SplitInto(lines, s, a) && SplitInto(lines, t, b)
    ensures s == t && a == b
  {
    NoFewer(lines, s, a, t, b);
    NoFewer(lines, t, b, s, a);
    SameBodies(lines, s, a, t, b, |a|);
    assert a[..|a|] == a && b[..|b|] == b;
    forall k | 0 <= k < |s| ensures s[k] == t[k] {
      assert Covers(s[k], a[k], k) && Covers(t[k], b[k], k);
      TitleIsDetermined(a[k], s[k].title, t[k].title);
    }
  }

  /** There is one way to split a text: the description above leaves no choice. */
  lemma SplitIsDetermined(text: string, s: seq<CouncilArtifactSection>, t: seq<CouncilArtifactSection>)
    requires IsSplit(text, s) && IsSplit(text, t)
    ensures s == t
  {
    var a :| SplitInto(Lines(text), s, a);
    var b :| SplitInto(Lines(text), t, b);
    SplitsAgree(Lines(text), s, a, t, b);
  }

  function Texts(bodies: seq<seq<string>>): seq<string> {
    seq(|bodies|, k requires 0 <= k < |bodies| => Rendered(bodies[k]))
  }

  lemma {:induction false} TextsJoin(bodies: seq<seq<string>>)
    ensures Concat(Texts(bodies)) == Rendered(Flatten(bodies))
    decreases |bodies|
  {
    if bodies != [] {
      var n := |bodies| - 1;
      TextsJoin(bodies[..n]);
      RenderedConcat(Flatten(bodies[..n]), bodies[n]);
      assert Texts(bodies) == Texts(bodies[..n]) + [Rendered(bodies[n])];
      ConcatSnoc(Texts(bodies[..n]), Rendered(bodies[n]));
    }
  }

  lemma TextIsPrefix(lines: seq<string>, sections: seq<CouncilArtifactSection>, bodies: seq<seq<string>>, k: nat)
    requires SplitInto(lines, sections, bodies) && k < |sections|
    ensures sections[k].text <= Rendered(bodies[k]) && |sections[k].text| <= MAX_ARTIFACT_SECTION_CHARS
  {
    assert Covers(sections[k], bodies[k], k);
  }

  /**
   * Nothing is lost but line ends: the sections' untruncated texts together are the text's lines, each
   * ended, and the text itself exactly when it is verbatim.
   */
  lemma SplitLosesNothing(text: string, sections: seq<CouncilArtifactSection>, bodies: seq<seq<string>>)
    requires SplitInto(Lines(text), sections, bodies)
    ensures Concat(Texts(bodies)) == Rendered(Lines(text))
    ensures Concat(Texts(bodies)) == text <==> Verbatim(text)
    ensures forall k :: 0 <= k < |sections| ==>
              sections[k].text <= Rendered(bodies[k]) && |sections[k].text| <= MAX_ARTIFACT_SECTION_CHARS
  {
    TextsJoin(bodies);
    RenderedExactly(text);
    forall k | 0 <= k < |sections|
      ensures sections[k].text <= Rendered(bodies[k]) && |sections[k].text| <= MAX_ARTIFACT_SECTION_CHARS
    {
      TextIsPrefix(Lines(text), sections, bodies, k);
    }
  }

  /** A section's text is all of its lines, or the first twelve thousand characters of them when there are more. */
  lemma SectionTextExactly(text: string, sections: seq<CouncilArtifactSection>, bodies: seq<seq<string>>, k: nat)
    requires SplitInto(Lines(text), sections, bodies) && k < |sections|
    ensures var whole := Rendered(bodies[k]);
            if |whole| <= 12_000 then sections[k].text == whole else sections[k].text == whole[..12_000]
  {
    hide Titled, MarkdownHeading, Lines, Flatten, Rendered;
    assert Covers(sections[k], bodies[k], k);
  }

  function SectionTexts(sections: seq<CouncilArtifactSection>): seq<string> {
    seq(|sections|, k requires 0 <= k < |sections| => sections[k].text)
  }

  /** When every section fits, their texts together are the text's lines, and the text itself when it is verbatim. */
  lemma SectionsThatFitAreTheText(text: string, sections: seq<CouncilArtifactSection>, bodies: seq<seq<string>>)
    requires SplitInto(Lines(text), sections, bodies)
    requires forall k :: 0 <= k < |bodies| ==> |Rendered(bodies[k])| <= 12_000
    ensures Concat(SectionTexts(sections)) == Rendered(Lines(text))
    ensures Verbatim(text) ==> Concat(SectionTexts(sections)) == text
  {
    hide Rendered, Lines, Flatten, Concat, Verbatim, Covers;
    forall k | 0 <= k < |sections| ensures sections[k].text == Rendered(bodies[k]) {
      SectionTextExactly(text, sections, bodies, k);
    }
    assert SectionTexts(sections) == Texts(bodies);
    SplitLosesNothing(text, sections, bodies);
  }

  ghost predicate IsHeadingAt(body: seq<string>, j: nat, title: string) {
    j < |body| && MarkdownHeading(body[j]) == Some(title)
  }

  ghost predicate OnlyBlankAbove(body: seq<string>, j: nat) {
    forall i :: 0 <= i < j && i < |body| ==> Trim(body[i]) == ""
  }

  /** A heading below some text: only the sixteenth section may hold one, and is then the bounded rest. */
  ghost predicate HasLaterHeading(body: seq<string>) {
    exists j: nat, title :: IsHeadingAt(body, j, title) && !OnlyBlankAbove(body, j)
  }

  lemma BlankAbove(body: seq<string>, j: nat)
    requires j < |body|
    ensures OnlyBlankAbove(body, j) <==> BlankLines(body[..j])
  {
    forall i | 0 <= i < j ensures IsBlank(body[i]) <==> Trim(body[i]) == "" {
      BlankTrims(body[i]);
    }
    assert forall i :: 0 <= i < j ==> body[..j][i] == body[i];
  }

  lemma LaterIsInner(body: seq<string>)
    ensures HasLaterHeading(body) <==> HasInnerHeading(body)
  {
    hide BlankLines, OnlyBlankAbove, MarkdownHeading;
    if j: nat, title :| IsHeadingAt(body, j, title) && !OnlyBlankAbove(body, j) {
      BlankAbove(body, j);
      assert InnerHeading(body, j);
    }
    if j: nat :| j < |body| && InnerHeading(body, j) {
      BlankAbove(body, j);
      assert IsHeadingAt(body, j, MarkdownHeading(body[j]).value);
    }
  }

  /**
   * At least one and at most sixteen sections. One with a heading below some text is the sixteenth and is
   * called the bounded rest; any other has the title of its heading, or none and the name of the artifact.
   */
  lemma SectionTitleExactly(text: string, sections: seq<CouncilArtifactSection>, bodies: seq<seq<string>>, k: nat)
    requires SplitInto(Lines(text), sections, bodies) && k < |sections|
    ensures 1 <= |sections| <= 16
    ensures HasLaterHeading(bodies[k]) ==> k == 15 && sections[k].title == "Additional sections (bounded)"
    ensures !HasLaterHeading(bodies[k]) ==>
              forall j: nat, title :: IsHeadingAt(bodies[k], j, title) ==> sections[k].title == title
    ensures (forall j: nat, title :: !IsHeadingAt(bodies[k], j, title)) ==> sections[k].title == "Artifact"
  {
    hide MarkdownHeading, Lines, Flatten, Rendered, BlankLines, HasLaterHeading;
    var body := bodies[k];
    assert Covers(sections[k], body, k);
    LaterIsInner(body);
    TitleByHeading(body, sections[k].title);
  }

  lemma TitleByHeading(body: seq<string>, title: string)
    requires Titled(body, title)
    ensures !HasInnerHeading(body) ==> forall j: nat, other :: IsHeadingAt(body, j, other) ==> title == other
    ensures (forall j: nat, other :: !IsHeadingAt(body, j, other)) ==> title == UNTITLED
  {
    hide MarkdownHeading, BlankLines;
    forall j: nat, other | IsHeadingAt(body, j, other) && !HasInnerHeading(body) ensures title == other {
      assert !InnerHeading(body, j) && OpeningHeading(body, j);
    }
    forall j: nat | j < |body| && MarkdownHeading(body[j]).Some? ensures exists other :: IsHeadingAt(body, j, other) {
      assert IsHeadingAt(body, j, MarkdownHeading(body[j]).value);
    }
  }
}
