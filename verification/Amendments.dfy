/** The amendment proposal: the original text with each section's accepted findings marked up below it. */
module Amendments {
  import opened Wrappers
  import opened Text
  import opened Council

  datatype CouncilMemberPosition = CouncilMemberPosition(role: string, response: string, critique: Option<string>)

  datatype CouncilDisposition = Accept | Reject | Defer

  datatype CouncilFindingDisposition = CouncilFindingDisposition(
    reviewId: int, findingId: int, disposition: CouncilDisposition, note: Option<string>, decidedAt: int)

  datatype CouncilFinding = CouncilFinding(
    id: int, section: string, title: string, positions: seq<CouncilMemberPosition>,
    disposition: Option<CouncilFindingDisposition>)

  // ---------- one finding's block ----------

  function Prefixed(prefix: string, lines: seq<string>): string {
    if lines == [] then "" else prefix + lines[0] + "\n" + Prefixed(prefix, lines[1..])
  }

  function PositionText(position: CouncilMemberPosition): string {
    ">\n> *[" + position.role + "]*\n" + Prefixed("> ", Lines(position.response))
    + match position.critique
      case Some(critique) =>
        ">\n> *[" + position.role + " — dissent preserved]*\n" + Prefixed("> ", Lines(critique))
      case None => ""
  }

  function PositionTexts(positions: seq<CouncilMemberPosition>): string {
    if positions == [] then "" else PositionText(positions[0]) + PositionTexts(positions[1..])
  }

  function NoteText(finding: CouncilFinding): string {
    match finding.disposition
    case Some(CouncilFindingDisposition(_, _, _, Some(note), _)) =>
      if IsBlank(note) then "" else Prefixed("> Human note: ", Lines(note))
    case _ => ""
  }

  /** Text without a line feed in it. */
  type Unbroken = s: string | '\n' !in s

  const AMENDMENT_MARKER: Unbroken := "<!-- mjolnr:council-amendment -->"
  const DISCLAIMER: Unbroken := "> mjolnr marked this up; it did not "
  const NO_REWRITE: Unbroken := "rewrite the section. Edit this block "
  const SAVE_YOURSELF: Unbroken := "into the document and save it yourself."

  function BlockText(finding: CouncilFinding): string {
    "\n" + AMENDMENT_MARKER + "\n"
    + ("> **Accepted finding — " + finding.title + "**\n")
    + NoteText(finding)
    + PositionTexts(finding.positions)
    + "> \n"
    + (DISCLAIMER + NO_REWRITE + SAVE_YOURSELF + "\n")
  }

  const UNMATCHED_HEADING: string := "\n## Council amendments (unmatched sections)\n"

  // ---------- tagged output ----------

  /** A line of the artifact with the heading title read off it, if any; titles are never empty. */
  datatype AnyLine = AnyLine(text: string, heading: Option<string>)

  type Line = l: AnyLine | l.heading != Some("") witness AnyLine("", None)

  function ReadLine(text: string): Line {
    AnyLine(text, MarkdownHeading(text))
  }

  function Read(text: string): (lines: seq<Line>)
    ensures |lines| == |Lines(text)|
    ensures forall i :: 0 <= i < |lines| ==> lines[i] == ReadLine(Lines(text)[i])
  {
    var lines := Lines(text);
    seq(|lines|, i requires 0 <= i < |lines| => ReadLine(lines[i]))
  }

  /** What a stretch of the output is: a line of the original, or an inserted part. */
  datatype Piece =
    | Original(line: Line)
    | Block(finding: CouncilFinding)
    | UnmatchedTitle
    | UnmatchedBlock(finding: CouncilFinding)

  function PieceText(piece: Piece): string {
    match piece
    case Original(line) => line.text + "\n"
    case Block(finding) => BlockText(finding)
    case UnmatchedTitle => UNMATCHED_HEADING
    case UnmatchedBlock(finding) => BlockText(finding)
  }

  function Output(pieces: seq<Piece>): string {
    if pieces == [] then "" else Output(pieces[..|pieces| - 1]) + PieceText(pieces[|pieces| - 1])
  }

  /** The original lines among the output, in order. */
  function Originals(pieces: seq<Piece>): seq<Line> {
    if pieces == [] then [] else
      var last := pieces[|pieces| - 1];
      Originals(pieces[..|pieces| - 1]) + if last.Original? then [last.line] else []
  }

  function Count<T(==)>(s: seq<T>, x: T): nat {
    if s == [] then 0 else Count(s[..|s| - 1], x) + if s[|s| - 1] == x then 1 else 0
  }

  lemma CountSnoc<T>(s: seq<T>, last: T, x: T)
    ensures Count(s + [last], x) == Count(s, x) + if last == x then 1 else 0
  {
    assert (s + [last])[..|s|] == s;
  }

  lemma {:induction false} CountConcat<T>(a: seq<T>, b: seq<T>, x: T)
    ensures Count(a + b, x) == Count(a, x) + Count(b, x)
    decreases |b|
  {
    if b == [] {
      assert a + b == a;
    } else {
      var n := |b| - 1;
      CountConcat(a, b[..n], x);
      assert a + b == a + b[..n] + [b[n]];
      CountSnoc(a + b[..n], b[n], x);
    }
  }

  lemma {:induction false} CountMember<T>(s: seq<T>, x: T)
    ensures x in s <==> Count(s, x) > 0
  {
    if s != [] {
      CountMember(s[..|s| - 1], x);
      assert s == s[..|s| - 1] + [s[|s| - 1]];
    }
  }

  /** How many headings of the text carry the title. */
  function Headings(lines: seq<Line>, title: string): nat {
    if lines == [] then 0 else
      Headings(lines[..|lines| - 1], title)
      + if lines[|lines| - 1].heading == Some(title) then 1 else 0
  }

  lemma OutputSnoc(pieces: seq<Piece>, last: Piece)
    ensures Output(pieces + [last]) == Output(pieces) + PieceText(last)
  {
    assert (pieces + [last])[..|pieces|] == pieces;
  }

  lemma OriginalsSnoc(pieces: seq<Piece>, last: Piece)
    ensures Originals(pieces + [last]) == Originals(pieces) + if last.Original? then [last.line] else []
  {
    assert (pieces + [last])[..|pieces|] == pieces;
  }

  lemma OriginalsNothing()
    ensures Originals([]) == []
  {
  }

  lemma {:induction false} OriginalsConcat(a: seq<Piece>, b: seq<Piece>)
    ensures Originals(a + b) == Originals(a) + Originals(b)
    decreases |b|
  {
    hide *;
    if b == [] {
      OriginalsNothing();
      assert a + b == a && Originals(a) + [] == Originals(a);
    } else {
      var front, last := b[..|b| - 1], b[|b| - 1];
      OriginalsConcat(a, front);
      OriginalsSnoc(a + front, last);
      OriginalsSnoc(front, last);
      assert b == front + [last] && a + b == a + front + [last];
    }
  }

  // ---------- the specification ----------

  /** The blocks that close a section: its accepted findings, in order; none before the first heading. */
  function SectionBlocks(accepted: seq<CouncilFinding>, section: string): seq<Piece> {
    if accepted == [] || section == "" then [] else
      var last := accepted[|accepted| - 1];
      SectionBlocks(accepted[..|accepted| - 1], section) + if last.section == section then [Block(last)] else []
  }

  /** The section open after the lines. */
  function SectionAfter(lines: seq<Line>): string {
    if lines == [] then ""
    else match lines[|lines| - 1].heading
      case Some(title) => title
      case None => SectionAfter(lines[..|lines| - 1])
  }

  /** The blocks that a line closes, none when it is no heading. */
  function Closing(before: seq<Line>, line: Line, accepted: seq<CouncilFinding>): seq<Piece> {
    if line.heading.Some? then SectionBlocks(accepted, SectionAfter(before)) else []
  }

  /** The lines with every closed section's blocks before the heading that closes it. */
  function Marked(lines: seq<Line>, accepted: seq<CouncilFinding>): seq<Piece> {
    if lines == [] then [] else
      var before, line := lines[..|lines| - 1], lines[|lines| - 1];
      Marked(before, accepted) + Closing(before, line, accepted) + [Original(line)]
  }

  function Body(lines: seq<Line>, accepted: seq<CouncilFinding>): seq<Piece> {
    Marked(lines, accepted) + SectionBlocks(accepted, SectionAfter(lines))
  }

  function BlockIds(pieces: seq<Piece>): set<int> {
    set p | p in pieces && p.Block? :: p.finding.id
  }

  /** The findings whose id was not emitted below any section. */
  function Unmatched(accepted: seq<CouncilFinding>, emitted: set<int>): seq<CouncilFinding> {
    if accepted == [] then [] else
      var last := accepted[|accepted| - 1];
      Unmatched(accepted[..|accepted| - 1], emitted) + if last.id !in emitted then [last] else []
  }

  function UnmatchedBlocks(findings: seq<CouncilFinding>): seq<Piece> {
    if findings == [] then []
    else UnmatchedBlocks(findings[..|findings| - 1]) + [UnmatchedBlock(findings[|findings| - 1])]
  }

  function Trailer(unmatched: seq<CouncilFinding>): seq<Piece> {
    if unmatched == [] then [] else [UnmatchedTitle] + UnmatchedBlocks(unmatched)
  }

  function Amended(lines: seq<Line>, accepted: seq<CouncilFinding>): seq<Piece> {
    var body := Body(lines, accepted);
    body + Trailer(Unmatched(accepted, BlockIds(body)))
  }

  function BlockTexts(findings: seq<CouncilFinding>): seq<string> {
    seq(|findings|, i requires 0 <= i < |findings| => BlockText(findings[i]))
  }

  lemma BlockTextsSnoc(findings: seq<CouncilFinding>)
    requires findings != []
    ensures var fewer, last := findings[..|findings| - 1], findings[|findings| - 1];
            && UnmatchedBlocks(findings) == UnmatchedBlocks(fewer) + [UnmatchedBlock(last)]
            && Concat(BlockTexts(findings)) == Concat(BlockTexts(fewer)) + BlockText(last)
  {
    hide BlockText, Concat;
    var fewer, last := findings[..|findings| - 1], findings[|findings| - 1];
    assert BlockTexts(findings) == BlockTexts(fewer) + [BlockText(last)];
    ConcatSnoc(BlockTexts(fewer), BlockText(last));
  }

  lemma PiecesRegroup(a: seq<Piece>, b: seq<Piece>, c: seq<Piece>)
    ensures a + (b + c) == a + b + c
  {
  }

  lemma NoneToAdd(pieces: seq<Piece>)
    ensures pieces + UnmatchedBlocks([]) == pieces && pieces + Trailer([]) == pieces
    ensures BlockTexts([]) == [] && Output(pieces) + "" == Output(pieces)
  {
  }

  lemma {:induction false} BlocksSpelled(pieces: seq<Piece>, findings: seq<CouncilFinding>)
    ensures Output(pieces + UnmatchedBlocks(findings)) == Output(pieces) + Concat(BlockTexts(findings))
  {
    hide Output, BlockText, BlockTexts, UnmatchedBlocks;
    if findings == [] {
      NoneToAdd(pieces);
    } else {
      var fewer, last := findings[..|findings| - 1], findings[|findings| - 1];
      hide Concat;
      BlocksSpelled(pieces, fewer);
      BlockTextsSnoc(findings);
      PiecesRegroup(pieces, UnmatchedBlocks(fewer), [UnmatchedBlock(last)]);
      OutputSnoc(pieces + UnmatchedBlocks(fewer), UnmatchedBlock(last));
      Regroup(Output(pieces), Concat(BlockTexts(fewer)), BlockText(last));
    }
  }

  /** The unmatched findings come last, below one title line, and with none of them nothing is added. */
  lemma UnmatchedSpelled(lines: seq<Line>, accepted: seq<CouncilFinding>)
    ensures var body := Body(lines, accepted);
            var unmatched := Unmatched(accepted, BlockIds(body));
            Output(Amended(lines, accepted)) == Output(body) +
              if unmatched == [] then ""
              else "\n## Council amendments (unmatched sections)\n" + Concat(BlockTexts(unmatched))
  {
    hide Output, Body, Unmatched, BlockIds, BlockTexts, BlockText, UnmatchedBlocks, Concat;
    var body := Body(lines, accepted);
    var unmatched := Unmatched(accepted, BlockIds(body));
    if unmatched == [] {
      NoneToAdd(body);
    } else {
      PiecesRegroup(body, [UnmatchedTitle], UnmatchedBlocks(unmatched));
      BlocksSpelled(body + [UnmatchedTitle], unmatched);
      OutputSnoc(body, UnmatchedTitle);
      Regroup(Output(body), UNMATCHED_HEADING, Concat(BlockTexts(unmatched)));
    }
  }

  // ---------- the loops ----------

  method AppendSectionAmendments(before: string, accepted: seq<CouncilFinding>, section: string,
                                 emittedBefore: set<int>, ghost pieces: seq<Piece>)
    returns (out: string, emitted: set<int>)
    requires before == Output(pieces) && emittedBefore == BlockIds(pieces)
    ensures out == Output(pieces + SectionBlocks(accepted, section))
    ensures emitted == BlockIds(pieces + SectionBlocks(accepted, section))
  {
    hide BlockText, Output;
    out, emitted := before, emittedBefore;
    ghost var now := pieces;
    assert pieces + [] == pieces;
    if section == "" {
      return;
    }
    for i := 0 to |accepted|
      invariant now == pieces + SectionBlocks(accepted[..i], section)
      invariant out == Output(now) && emitted == BlockIds(now)
    {
      var finding := accepted[i];
      SectionBlocksTake(pieces, accepted, section, i);
      if finding.section == section {
        OutputSnoc(now, Block(finding));
        BlockIdsSnoc(now, finding);
        now := now + [Block(finding)];
        out := out + BlockText(finding);
        emitted := emitted + {finding.id};
      }
    }
    assert accepted[..|accepted|] == accepted;
  }

  lemma SectionBlocksTake(pieces: seq<Piece>, accepted: seq<CouncilFinding>, section: string, i: nat)
    requires i < |accepted| && section != ""
    ensures pieces + SectionBlocks(accepted[..i + 1], section)
            == pieces + SectionBlocks(accepted[..i], section)
               + if accepted[i].section == section then [Block(accepted[i])] else []
  {
    assert accepted[..i + 1][..i] == accepted[..i];
  }

  lemma BlockIdsSnoc(pieces: seq<Piece>, finding: CouncilFinding)
    ensures BlockIds(pieces + [Block(finding)]) == BlockIds(pieces) + {finding.id}
  {
    assert Block(finding) in pieces + [Block(finding)];
  }

  lemma UnmatchedTake(pieces: seq<Piece>, unmatched: seq<CouncilFinding>, i: nat)
    requires i < |unmatched|
    ensures pieces + UnmatchedBlocks(unmatched[..i + 1])
            == pieces + UnmatchedBlocks(unmatched[..i]) + [UnmatchedBlock(unmatched[i])]
  {
    assert unmatched[..i + 1][..i] == unmatched[..i];
  }

  lemma TrailerJoins(body: seq<Piece>, unmatched: seq<CouncilFinding>)
    requires unmatched != []
    ensures body + [UnmatchedTitle] + UnmatchedBlocks(unmatched) == body + Trailer(unmatched)
  {
  }

  method AppendUnmatched(before: string, unmatched: seq<CouncilFinding>, ghost body: seq<Piece>)
    returns (out: string)
    requires before == Output(body)
    ensures out == Output(body + Trailer(unmatched))
  {
    hide BlockText, Output;
    out := before;
    if unmatched == [] {
      assert body + [] == body;
      return;
    }
    out := out + UNMATCHED_HEADING;
    OutputSnoc(body, UnmatchedTitle);
    ghost var start := body + [UnmatchedTitle];
    ghost var pieces := start;
    assert start + [] == start;
    for i := 0 to |unmatched|
      invariant pieces == start + UnmatchedBlocks(unmatched[..i])
      invariant out == Output(pieces)
    {
      UnmatchedTake(start, unmatched, i);
      OutputSnoc(pieces, UnmatchedBlock(unmatched[i]));
      pieces := pieces + [UnmatchedBlock(unmatched[i])];
      out := out + BlockText(unmatched[i]);
    }
    assert unmatched[..|unmatched|] == unmatched;
    TrailerJoins(body, unmatched);
  }

  lemma MarkedTake(lines: seq<Line>, accepted: seq<CouncilFinding>, i: nat)
    requires i < |lines|
    ensures Marked(lines[..i + 1], accepted)
            == Marked(lines[..i], accepted) + Closing(lines[..i], lines[i], accepted) + [Original(lines[i])]
    ensures SectionAfter(lines[..i + 1])
            == match lines[i].heading case Some(title) => title case None => SectionAfter(lines[..i])
  {
    assert lines[..i + 1][..i] == lines[..i];
  }

  lemma LineOutput(pieces: seq<Piece>, line: Line)
    ensures Output(pieces + [Original(line)]) == Output(pieces) + line.text + "\n"
    ensures BlockIds(pieces + [Original(line)]) == BlockIds(pieces)
  {
    OutputSnoc(pieces, Original(line));
    assert Output(pieces) + (line.text + "\n") == Output(pieces) + line.text + "\n";
  }

  method RenderAmendment(text: string, accepted: seq<CouncilFinding>) returns (out: string)
    ensures out == Output(Amended(Read(text), accepted))
  {
    out := "";
    var emitted: set<int> := {};
    var section := "";
    var lines := Read(text);
    ghost var pieces: seq<Piece> := [];
    for i := 0 to |lines|
      invariant section == SectionAfter(lines[..i])
      invariant pieces == Marked(lines[..i], accepted)
      invariant out == Output(pieces) && emitted == BlockIds(pieces)
    {
      MarkedTake(lines, accepted, i);
      assert pieces + [] == pieces;
      if lines[i].heading.Some? {
        out, emitted := AppendSectionAmendments(out, accepted, section, emitted, pieces);
        section := lines[i].heading.value;
      }
      pieces := pieces + Closing(lines[..i], lines[i], accepted);
      LineOutput(pieces, lines[i]);
      pieces := pieces + [Original(lines[i])];
      out := out + lines[i].text + "\n";
    }
    assert lines[..|lines|] == lines;
    out, emitted := AppendSectionAmendments(out, accepted, section, emitted, pieces);
    var unmatched := Unmatched(accepted, emitted);
    out := AppendUnmatched(out, unmatched, Body(lines, accepted));
  }

  // ---------- what the markup keeps and covers ----------

  lemma {:induction false} SectionBlocksCount(accepted: seq<CouncilFinding>, section: string, finding: CouncilFinding)
    ensures var blocks := SectionBlocks(accepted, section);
            && Originals(blocks) == []
            && Count(blocks, UnmatchedBlock(finding)) == 0
            && Count(blocks, Block(finding))
                 == if section != "" && finding.section == section then Count(accepted, finding) else 0
  {
    if accepted != [] && section != "" {
      var n := |accepted| - 1;
      var blocks := SectionBlocks(accepted[..n], section);
      SectionBlocksCount(accepted[..n], section, finding);
      if accepted[n].section == section {
        assert (blocks + [Block(accepted[n])])[..|blocks|] == blocks;
      } else {
        assert blocks + [] == blocks;
      }
    }
  }

  lemma MarkedSnoc(before: seq<Line>, line: Line, accepted: seq<CouncilFinding>, x: Piece)
    ensures var marked := Marked(before + [line], accepted);
            && Originals(marked) == Originals(Marked(before, accepted))
                                    + Originals(Closing(before, line, accepted)) + [line]
            && Count(marked, x) == Count(Marked(before, accepted), x) + Count(Closing(before, line, accepted), x)
                                   + if x == Original(line) then 1 else 0
  {
    assert (before + [line])[..|before|] == before;
    var marked, closing := Marked(before, accepted), Closing(before, line, accepted);
    OriginalsConcat(marked, closing);
    OriginalsConcat(marked + closing, [Original(line)]);
    assert [Original(line)][..0] == [];
    CountConcat(marked, closing, x);
    CountSnoc(marked + closing, Original(line), x);
  }

  lemma NothingMarked(accepted: seq<CouncilFinding>, x: Piece)
    ensures Originals(Marked([], accepted)) == [] && Count(Marked([], accepted), x) == 0
  {
  }

  lemma ClosingKeeps(before: seq<Line>, line: Line, accepted: seq<CouncilFinding>, finding: CouncilFinding)
    ensures Originals(Closing(before, line, accepted)) == []
    ensures Count(Closing(before, line, accepted), UnmatchedBlock(finding)) == 0
  {
    SectionBlocksCount(accepted, SectionAfter(before), finding);
  }

  /** Taking the inserted parts away leaves every line of the text, in order. */
  lemma {:induction false} MarkedKeepsLines(lines: seq<Line>, accepted: seq<CouncilFinding>, finding: CouncilFinding)
    ensures Originals(Marked(lines, accepted)) == lines
    ensures Count(Marked(lines, accepted), UnmatchedBlock(finding)) == 0
    decreases |lines|
  {
    hide *;
    if lines == [] {
      NothingMarked(accepted, UnmatchedBlock(finding));
    } else {
      var before, line := lines[..|lines| - 1], lines[|lines| - 1];
      MarkedKeepsLines(before, accepted, finding);
      ClosingKeeps(before, line, accepted, finding);
      MarkedSnoc(before, line, accepted, UnmatchedBlock(finding));
      assert lines == before + [line] && before + [] == before;
    }
  }

  function Pending(lines: seq<Line>, finding: CouncilFinding): nat {
    if finding.section != "" && SectionAfter(lines) == finding.section then 1 else 0
  }

  /** The sections with the finding's title that a line closes: one or none. */
  function Closes(before: seq<Line>, line: Line, finding: CouncilFinding): nat {
    if line.heading.Some? then Pending(before, finding) else 0
  }

  lemma NothingCounted<T>(x: T)
    ensures Count([], x) == 0
  {
  }

  lemma ClosingCount(before: seq<Line>, line: Line, accepted: seq<CouncilFinding>, finding: CouncilFinding)
    ensures Count(Closing(before, line, accepted), Block(finding))
            == Count(accepted, finding) * Closes(before, line, finding)
  {
    hide Count, SectionBlocks, SectionAfter;
    SectionBlocksCount(accepted, SectionAfter(before), finding);
    NothingCounted(Block(finding));
  }

  /** The matching sections already closed. */
  function Closed(lines: seq<Line>, finding: CouncilFinding): int {
    Headings(lines, finding.section) - Pending(lines, finding)
  }

  lemma {:induction false} PendingIsHeading(lines: seq<Line>, finding: CouncilFinding)
    ensures Closed(lines, finding) >= 0
    ensures lines != [] ==> var n := |lines| - 1;
              Closed(lines, finding) == Closed(lines[..n], finding) + Closes(lines[..n], lines[n], finding)
  {
    if lines != [] {
      PendingIsHeading(lines[..|lines| - 1], finding);
    }
  }

  lemma NoHeadings(finding: CouncilFinding)
    ensures Closed([], finding) == 0
  {
  }

  lemma CountStep(each: nat, closed: int, closes: nat, marked: int, closing: int)
    requires marked == each * closed && closing == each * closes
    ensures marked + closing == each * (closed + closes)
  {
  }

  /** How often a finding has been emitted, the still open section aside. */
  lemma {:induction false} MarkedCount(lines: seq<Line>, accepted: seq<CouncilFinding>, finding: CouncilFinding,
                                       each: nat)
    requires each == Count(accepted, finding)
    ensures Count(Marked(lines, accepted), Block(finding)) == each * Closed(lines, finding)
    decreases |lines|
  {
    hide *;
    if lines == [] {
      NothingMarked(accepted, Block(finding));
      NoHeadings(finding);
    } else {
      var before, line := lines[..|lines| - 1], lines[|lines| - 1];
      MarkedCount(before, accepted, finding, each);
      ClosingCount(before, line, accepted, finding);
      PendingIsHeading(lines, finding);
      MarkedSnoc(before, line, accepted, Block(finding));
      assert lines == before + [line];
      CountStep(each, Closed(before, finding), Closes(before, line, finding),
                Count(Marked(before, accepted), Block(finding)),
                Count(Closing(before, line, accepted), Block(finding)));
    }
  }

  /** Below the sections, a finding is emitted once for each heading with its section's title. */
  lemma BodyCount(lines: seq<Line>, accepted: seq<CouncilFinding>, finding: CouncilFinding)
    ensures var body := Body(lines, accepted);
            && Count(body, Block(finding)) == Count(accepted, finding) * Headings(lines, finding.section)
            && Count(body, UnmatchedBlock(finding)) == 0
            && Originals(body) == lines
  {
    var marked, blocks := Marked(lines, accepted), SectionBlocks(accepted, SectionAfter(lines));
    var each := Count(accepted, finding);
    MarkedCount(lines, accepted, finding, each);
    MarkedKeepsLines(lines, accepted, finding);
    SectionBlocksCount(accepted, SectionAfter(lines), finding);
    CountConcat(marked, blocks, Block(finding));
    CountConcat(marked, blocks, UnmatchedBlock(finding));
    OriginalsConcat(marked, blocks);
    assert lines + [] == lines;
    CountStep(each, Closed(lines, finding), Pending(lines, finding),
              Count(marked, Block(finding)), Count(blocks, Block(finding)));
  }

  ghost predicate Matched(lines: seq<Line>, accepted: seq<CouncilFinding>, id: int) {
    exists g :: g in accepted && g.id == id && Headings(lines, g.section) > 0
  }

  lemma BlockInBody(lines: seq<Line>, accepted: seq<CouncilFinding>, g: CouncilFinding)
    ensures Block(g) in Body(lines, accepted) <==> g in accepted && Headings(lines, g.section) > 0
  {
    BodyCount(lines, accepted, g);
    CountMember(Body(lines, accepted), Block(g));
    CountMember(accepted, g);
    ProductPositive(Count(accepted, g), Headings(lines, g.section));
  }

  lemma ProductPositive(a: nat, b: nat)
    ensures a * b > 0 <==> a > 0 && b > 0
  {
    if a > 0 && b > 0 {
      assert a * b >= b;
    }
  }

  /** An id counts as emitted exactly when some accepted finding with it has a matching heading. */
  lemma EmittedExactly(lines: seq<Line>, accepted: seq<CouncilFinding>, id: int)
    ensures id in BlockIds(Body(lines, accepted)) <==> Matched(lines, accepted, id)
  {
    var body := Body(lines, accepted);
    if id in BlockIds(body) {
      var p :| p in body && p.Block? && p.finding.id == id;
      assert p == Block(p.finding);
      BlockInBody(lines, accepted, p.finding);
    }
    if g :| g in accepted && g.id == id && Headings(lines, g.section) > 0 {
      BlockInBody(lines, accepted, g);
      assert Block(g) in body;
    }
  }

  lemma UnmatchedSnoc(accepted: seq<CouncilFinding>, emitted: set<int>, last: CouncilFinding)
    ensures Unmatched(accepted + [last], emitted) ==
            if last.id in emitted then Unmatched(accepted, emitted) else Unmatched(accepted, emitted) + [last]
  {
    assert (accepted + [last])[..|accepted|] == accepted;
    assert Unmatched(accepted, emitted) + [] == Unmatched(accepted, emitted);
  }

  lemma NothingUnmatched(emitted: set<int>, finding: CouncilFinding)
    ensures Count(Unmatched([], emitted), finding) == 0 && Count([], finding) == 0
  {
  }

  lemma {:induction false} TrailerCount(accepted: seq<CouncilFinding>, emitted: set<int>, finding: CouncilFinding)
    ensures Count(Unmatched(accepted, emitted), finding)
            == if finding.id in emitted then 0 else Count(accepted, finding)
  {
    hide *;
    if accepted == [] {
      NothingUnmatched(emitted, finding);
    } else {
      UnmatchedStep(accepted[..|accepted| - 1], emitted, accepted[|accepted| - 1], finding);
      TrailerCount(accepted[..|accepted| - 1], emitted, finding);
      assert accepted == accepted[..|accepted| - 1] + [accepted[|accepted| - 1]];
    }
  }

  lemma UnmatchedStep(before: seq<CouncilFinding>, emitted: set<int>, last: CouncilFinding, finding: CouncilFinding)
    ensures Count(Unmatched(before + [last], emitted), finding) ==
            Count(Unmatched(before, emitted), finding) + if last.id !in emitted && last == finding then 1 else 0
    ensures Count(before + [last], finding) == Count(before, finding) + if last == finding then 1 else 0
  {
    hide *;
    UnmatchedSnoc(before, emitted, last);
    CountSnoc(Unmatched(before, emitted), last, finding);
    CountSnoc(before, last, finding);
  }

  lemma {:induction false} UnmatchedBlocksCount(findings: seq<CouncilFinding>, finding: CouncilFinding)
    ensures var blocks := UnmatchedBlocks(findings);
            && Originals(blocks) == []
            && Count(blocks, Block(finding)) == 0
            && Count(blocks, UnmatchedBlock(finding)) == Count(findings, finding)
  {
    if findings != [] {
      var n := |findings| - 1;
      var blocks := UnmatchedBlocks(findings[..n]);
      UnmatchedBlocksCount(findings[..n], finding);
      assert (blocks + [UnmatchedBlock(findings[n])])[..|blocks|] == blocks;
    }
  }

  lemma TrailerPieces(unmatched: seq<CouncilFinding>, finding: CouncilFinding)
    ensures var trailer := Trailer(unmatched);
            && Originals(trailer) == []
            && Count(trailer, Block(finding)) == 0
            && Count(trailer, UnmatchedBlock(finding)) == Count(unmatched, finding)
  {
    var blocks := UnmatchedBlocks(unmatched);
    UnmatchedBlocksCount(unmatched, finding);
    OriginalsConcat([UnmatchedTitle], blocks);
    CountConcat([UnmatchedTitle], blocks, Block(finding));
    CountConcat([UnmatchedTitle], blocks, UnmatchedBlock(finding));
    assert [UnmatchedTitle][..0] == [];
  }

  /**
   * The markup keeps every line, and emits a finding once for each heading that carries its section's
   * title, or among the unmatched ones when nothing with its id had a heading. What was not accepted
   * is emitted nowhere.
   */
  lemma AmendmentCovers(lines: seq<Line>, accepted: seq<CouncilFinding>, finding: CouncilFinding)
    ensures var pieces := Amended(lines, accepted);
            && Originals(pieces) == lines
            && Count(pieces, Block(finding)) == Count(accepted, finding) * Headings(lines, finding.section)
            && Count(pieces, UnmatchedBlock(finding))
                 == if Matched(lines, accepted, finding.id) then 0 else Count(accepted, finding)
  {
    var body := Body(lines, accepted);
    var unmatched := Unmatched(accepted, BlockIds(body));
    BodyCount(lines, accepted, finding);
    EmittedExactly(lines, accepted, finding.id);
    TrailerCount(accepted, BlockIds(body), finding);
    TrailerPieces(unmatched, finding);
    OriginalsConcat(body, Trailer(unmatched));
    CountConcat(body, Trailer(unmatched), Block(finding));
    CountConcat(body, Trailer(unmatched), UnmatchedBlock(finding));
    assert lines + [] == lines;
  }

  /** What is left of the output when the inserted parts are taken out. */
  function Unmarked(pieces: seq<Piece>): string {
    if pieces == [] then "" else
      var last := pieces[|pieces| - 1];
      Unmarked(pieces[..|pieces| - 1]) + if last.Original? then PieceText(last) else ""
  }

  function LineTexts(lines: seq<Line>): seq<string> {
    seq(|lines|, i requires 0 <= i < |lines| => lines[i].text)
  }

  lemma LineTextsSnoc(lines: seq<Line>, line: Line)
    ensures LineTexts(lines + [line]) == LineTexts(lines) + [line.text]
  {
  }

  lemma {:induction false} UnmarkedIsRendered(pieces: seq<Piece>)
    ensures Unmarked(pieces) == Rendered(LineTexts(Originals(pieces)))
  {
    if pieces == [] {
    } else {
      var before, last := pieces[..|pieces| - 1], pieces[|pieces| - 1];
      UnmarkedIsRendered(before);
      if last.Original? {
        LineTextsSnoc(Originals(before), last.line);
        RenderedSnoc(LineTexts(Originals(before)), last.line.text);
        Regroup(Unmarked(before), last.line.text, "\n");
      } else {
        assert Originals(before) + [] == Originals(before);
      }
    }
  }

  /**
   * The artifact's own text is what was read, line by line, and its very characters exactly when it ends
   * its last line and holds no carriage return before a line feed.
   */
  lemma AmendmentKeepsText(text: string, accepted: seq<CouncilFinding>)
    ensures Unmarked(Amended(Read(text), accepted)) == Rendered(Lines(text))
    ensures Unmarked(Amended(Read(text), accepted)) == text <==> Verbatim(text)
  {
    var pieces := Amended(Read(text), accepted);
    AmendmentKeepsLines(Read(text), accepted);
    UnmarkedIsRendered(pieces);
    assert LineTexts(Read(text)) == Lines(text);
    RenderedExactly(text);
  }

  lemma AmendmentKeepsLines(lines: seq<Line>, accepted: seq<CouncilFinding>)
    ensures Originals(Amended(lines, accepted)) == lines
  {
    AmendmentCovers(lines, accepted, CouncilFinding(0, "", "", [], None));
  }

  lemma {:induction false} HeadingCounted(lines: seq<Line>, i: nat, title: string)
    requires i < |lines| && lines[i].heading == Some(title)
    ensures Headings(lines, title) > 0
  {
    if i < |lines| - 1 {
      HeadingCounted(lines[..|lines| - 1], i, title);
    }
  }

  lemma ReadHeading(text: string, i: nat, title: string)
    requires i < |Lines(text)| && MarkdownHeading(Lines(text)[i]) == Some(title)
    ensures Headings(Read(text), title) > 0
  {
    hide Lines, MarkdownHeading, Headings;
    HeadingCounted(Read(text), i, title);
  }

  /** The title of section k is that of a heading among the lines it covers. */
  ghost predicate NamedByHeading(text: string, sections: seq<CouncilArtifactSection>, k: nat) {
    k < |sections| &&
    exists bodies, j: nat ::
      SplitInto(Lines(text), sections, bodies) && TitleAt(bodies[k], j, sections[k].title)
  }

  ghost predicate TitleAt(body: seq<string>, j: nat, title: string) {
    j < |body| && MarkdownHeading(body[j]) == Some(title)
  }

  lemma TitleIsRead(text: string, bodies: seq<seq<string>>, k: nat, j: nat, title: string)
    requires Flatten(bodies) == Lines(text) && k < |bodies| && TitleAt(bodies[k], j, title)
    ensures Headings(Read(text), title) > 0
  {
    hide MarkdownHeading, Lines, Headings, Flatten;
    LineInBody(Lines(text), bodies, k, j);
    ReadHeading(text, |Flatten(bodies[..k])| + j, title);
  }

  /** A title that the split took from a heading is read again as a heading by the markup. */
  lemma SplitTitleIsHeading(text: string, sections: seq<CouncilArtifactSection>, k: nat)
    requires NamedByHeading(text, sections, k)
    ensures Headings(Read(text), sections[k].title) > 0
  {
    hide MarkdownHeading, Lines, Headings, Flatten, TitleAt, Covers;
    var bodies, j: nat :| SplitInto(Lines(text), sections, bodies) && TitleAt(bodies[k], j, sections[k].title);
    TitleIsRead(text, bodies, k, j, sections[k].title);
  }

  /** Every section after the first and before the last that may be opened is named by its heading. */
  lemma LaterSectionIsNamed(text: string, sections: seq<CouncilArtifactSection>, k: nat)
    requires IsSplit(text, sections) && 0 < k < |sections| && k < MAX_ARTIFACT_SECTIONS - 1
    ensures NamedByHeading(text, sections, k)
  {
    hide MarkdownHeading, Lines, Flatten;
    var bodies :| SplitInto(Lines(text), sections, bodies);
    assert Covers(sections[k], bodies[k], k);
    OpenedIsNamed(bodies[k], sections[k].title);
  }

  /** A section that opens with a heading and holds no later one is named by it. */
  lemma OpenedIsNamed(body: seq<string>, title: string)
    requires Titled(body, title) && !HasInnerHeading(body) && body != [] && MarkdownHeading(body[0]).Some?
    ensures TitleAt(body, 0, title)
  {
    assert body[..0] == [];
    assert OpeningHeading(body, 0);
  }

  /**
   * So an accepted finding on such a section is marked up below a heading with its title, and not among
   * the unmatched ones.
   */
  lemma SectionFindingsAreMarked(text: string, sections: seq<CouncilArtifactSection>, k: nat,
                                 accepted: seq<CouncilFinding>, finding: CouncilFinding)
    requires NamedByHeading(text, sections, k) && finding in accepted
    requires finding.section == sections[k].title
    ensures var pieces := Amended(Read(text), accepted);
            Block(finding) in pieces && UnmatchedBlock(finding) !in pieces
  {
    hide NamedByHeading, Amended;
    var pieces := Amended(Read(text), accepted);
    SplitTitleIsHeading(text, sections, k);
    AmendmentCovers(Read(text), accepted, finding);
    CountMember(accepted, finding);
    CountMember(pieces, Block(finding));
    CountMember(pieces, UnmatchedBlock(finding));
    ProductPositive(Count(accepted, finding), Headings(Read(text), finding.section));
  }

  ghost predicate DistinctIds(accepted: seq<CouncilFinding>) {
    forall i, j :: 0 <= i < j < |accepted| ==> accepted[i].id != accepted[j].id
  }

  lemma LastIsDistinct(before: seq<CouncilFinding>, last: CouncilFinding, g: CouncilFinding)
    requires DistinctIds(before + [last]) && g in before
    ensures g.id != last.id && DistinctIds(before)
  {
    var all := before + [last];
    assert forall i :: 0 <= i < |before| ==> all[i] == before[i];
    var i :| 0 <= i < |before| && before[i] == g;
    assert all[i].id != all[|before|].id;
  }

  lemma {:induction false} DistinctOnce(accepted: seq<CouncilFinding>, finding: CouncilFinding)
    requires DistinctIds(accepted) && finding in accepted
    ensures Count(accepted, finding) == 1
    ensures forall g :: g in accepted && g.id == finding.id ==> g == finding
  {
    hide *;
    var before, last := accepted[..|accepted| - 1], accepted[|accepted| - 1];
    assert accepted == before + [last];
    forall g | g in before ensures g.id != last.id {
      LastIsDistinct(before, last, g);
    }
    CountSnoc(before, last, finding);
    CountMember(before, finding);
    if last != finding {
      LastIsDistinct(before, last, finding);
      DistinctOnce(before, finding);
    }
  }

  /** With distinct ids each accepted finding appears once per matching heading, or exactly once at the end. */
  lemma DistinctFindingsAppear(lines: seq<Line>, accepted: seq<CouncilFinding>, finding: CouncilFinding)
    requires DistinctIds(accepted) && finding in accepted
    ensures var pieces := Amended(lines, accepted);
            var headings := Headings(lines, finding.section);
            && Count(pieces, Block(finding)) == headings
            && Count(pieces, UnmatchedBlock(finding)) == if headings == 0 then 1 else 0
  {
    AmendmentCovers(lines, accepted, finding);
    DistinctOnce(accepted, finding);
    assert Matched(lines, accepted, finding.id) <==> Headings(lines, finding.section) > 0;
  }

  ghost predicate Emitted(pieces: seq<Piece>, finding: CouncilFinding) {
    Block(finding) in pieces || UnmatchedBlock(finding) in pieces
  }

  /** In general an accepted finding is lost exactly when only others with its id have a matching heading. */
  lemma EmittedUnlessShadowed(lines: seq<Line>, accepted: seq<CouncilFinding>, finding: CouncilFinding)
    requires finding in accepted
    ensures Emitted(Amended(lines, accepted), finding) <==>
            Headings(lines, finding.section) > 0 || !Matched(lines, accepted, finding.id)
  {
    var pieces := Amended(lines, accepted);
    AmendmentCovers(lines, accepted, finding);
    CountMember(accepted, finding);
    CountMember(pieces, Block(finding));
    CountMember(pieces, UnmatchedBlock(finding));
    ProductPositive(Count(accepted, finding), Headings(lines, finding.section));
  }

  lemma OneLine(text: string)
    requires text != "" && '\n' !in text
    ensures Lines(text) == [text] && Read(text) == [ReadLine(text)]
  {
  }

  /** Such a loss happens: of two accepted findings with one id, the one without a heading is emitted nowhere. */
  lemma SharedIdIsLost(shown: CouncilFinding, lost: CouncilFinding)
    requires shown.id == lost.id && shown.section == "A" && lost.section == "B"
    ensures !Emitted(Amended(Read("# A"), [shown, lost]), lost)
  {
    var text := "# A";
    OneLine(text);
    assert TrimStart(text) == text && LeadingHashes(text[1..]) == 0;
    assert text[1..] == " A" && TrimStart(" A") == " A"[1..] == "A" && TrimEnd("A") == "A";
    var lines := Read(text);
    assert lines[0].heading == Some("A") && lines[..0] == [];
    assert Headings(lines, shown.section) == 1 && Headings(lines, lost.section) == 0;
    assert shown in [shown, lost] && lost in [shown, lost];
    EmittedUnlessShadowed(lines, [shown, lost], lost);
  }
}
