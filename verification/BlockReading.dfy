/**
 * What an amendment block tells its reader: the finding's title, the lines of a note that is not blank, and
 * for each position its role, its response and its preserved dissent, line by line and in order.
 */
module BlockReading {
  import opened Wrappers
  import opened Text
  import opened Council
  import opened Amendments

  // ---------- lines as they stand ----------

  /** The stretches that line feeds end, and nothing dropped from them. */
  function Feeds(text: string): seq<string>
    decreases |text|
  {
    if text == "" then []
    else
      var n := Find(text, '\n');
      if n == |text| then [text] else [text[..n]] + Feeds(text[n + 1..])
  }

  ghost predicate NoFeeds(lines: seq<string>) {
    forall i :: 0 <= i < |lines| ==> '\n' !in lines[i]
  }

  lemma FeedsFirst(line: string, rest: string)
    requires '\n' !in line
    ensures Feeds(line + "\n" + rest) == [line] + Feeds(rest)
  {
    var text := line + "\n" + rest;
    FindSkips(line, rest);
    assert text[..|line|] == line && text[|line| + 1..] == rest;
  }

  lemma {:induction false} FeedsRendered(lines: seq<string>)
    requires NoFeeds(lines)
    ensures Feeds(Rendered(lines)) == lines
  {
    if lines != [] {
      hide Find;
      FeedsRendered(lines[1..]);
      FeedsFirst(lines[0], Rendered(lines[1..]));
      assert lines == [lines[0]] + lines[1..];
    }
  }

  lemma {:induction false} FeedsAreUnbroken(text: string)
    ensures NoFeeds(Feeds(text))
    decreases |text|
  {
    if text != "" {
      var n := Find(text, '\n');
      if n < |text| {
        FeedsAreUnbroken(text[n + 1..]);
      }
    }
  }

  lemma StrippedIsUnbroken(line: string)
    requires '\n' !in line
    ensures NoFeeds([StripCarriageReturn(line)])
  {
  }

  lemma BeforeFeed(text: string, n: nat)
    requires n == Find(text, '\n')
    ensures '\n' !in text[..n]
  {
  }

  lemma LinesStep(text: string, n: nat)
    requires n == Find(text, '\n') < |text|
    ensures Lines(text) == [StripCarriageReturn(text[..n])] + Lines(text[n + 1..])
  {
    hide Find, StripCarriageReturn;
  }

  lemma NoFeedsConcat(a: seq<string>, b: seq<string>)
    requires NoFeeds(a) && NoFeeds(b)
    ensures NoFeeds(a + b)
  {
  }

  lemma LastIsUnbroken(text: string)
    requires Find(text, '\n') == |text|
    ensures NoFeeds(Lines(text))
  {
  }

  lemma {:induction false} LinesAreUnbroken(text: string)
    ensures NoFeeds(Lines(text))
    decreases |text|
  {
    hide *;
    var n := Find(text, '\n');
    if n < |text| {
      BeforeFeed(text, n);
      StrippedIsUnbroken(text[..n]);
      LinesStep(text, n);
      LinesAreUnbroken(text[n + 1..]);
      NoFeedsConcat([StripCarriageReturn(text[..n])], Lines(text[n + 1..]));
    } else {
      LastIsUnbroken(text);
    }
  }

  // ---------- what a finding has to tell ----------

  /** Lines under a heading: a role, or a role whose dissent is preserved. */
  datatype Speech = Speech(heading: string, lines: seq<string>)

  datatype Told = Told(title: string, note: seq<string>, speeches: seq<Speech>)

  function NoteOf(finding: CouncilFinding): seq<string> {
    match finding.disposition
    case Some(d) =>
      (match d.note
       case Some(note) => if Trim(note) == "" then [] else Lines(note)
       case None => [])
    case None => []
  }

  function SpeechesOf(positions: seq<CouncilMemberPosition>): seq<Speech> {
    if positions == [] then []
    else
      var position := positions[0];
      [Speech(position.role, Lines(position.response))]
      + (match position.critique
         case Some(critique) => [Speech(position.role + " — dissent preserved", Lines(critique))]
         case None => [])
      + SpeechesOf(positions[1..])
  }

  function TellsOf(finding: CouncilFinding): Told {
    Told(finding.title, NoteOf(finding), SpeechesOf(finding.positions))
  }

  // ---------- the reader ----------

  /** The line without so many characters at either end. */
  function Cut(line: string, before: nat, after: nat): string {
    if before + after <= |line| then line[before..|line| - after] else line
  }

  /** The lines up to the first that is a bare quote mark. */
  function UpToBare(lines: seq<string>): (head: seq<string>)
    ensures |head| <= |lines|
  {
    if lines == [] || lines[0] == ">" then [] else [lines[0]] + UpToBare(lines[1..])
  }

  function CutAll(lines: seq<string>, before: nat): seq<string> {
    seq(|lines|, i requires 0 <= i < |lines| => Cut(lines[i], before, 0))
  }

  /** Each speech is a bare quote mark, a heading, and lines up to the next bare quote mark. */
  function ReadSpeeches(lines: seq<string>): seq<Speech>
    decreases |lines|
  {
    if |lines| < 2 then []
    else
      var said := UpToBare(lines[2..]);
      [Speech(Cut(lines[1], |"> *["|, |"]*"|), CutAll(said, |"> "|))] + ReadSpeeches(lines[2 + |said|..])
  }

  /** Reads a block: an empty line, the marker, the title, the note, the speeches, and two closing lines. */
  function ReadBlock(block: string): Told {
    var lines := Feeds(block);
    if |lines| < 5 then Told("", [], [])
    else
      var middle := lines[3..|lines| - 2];
      var note := UpToBare(middle);
      Told(Cut(lines[2], |"> **Accepted finding — "|, |"**"|), CutAll(note, |"> Human note: "|),
           ReadSpeeches(middle[|note|..]))
  }

  // ---------- the block as lines ----------

  function Marked(prefix: string, lines: seq<string>): seq<string> {
    seq(|lines|, i requires 0 <= i < |lines| => prefix + lines[i])
  }

  function SpeechLines(speech: Speech): seq<string> {
    [">", "> *[" + speech.heading + "]*"] + Marked("> ", speech.lines)
  }

  function SpeechesLines(speeches: seq<Speech>): seq<string> {
    if speeches == [] then [] else SpeechLines(speeches[0]) + SpeechesLines(speeches[1..])
  }

  function TitleLine(title: string): string {
    "> **Accepted finding — " + title + "**"
  }

  function Closing(): string {
    DISCLAIMER + NO_REWRITE + SAVE_YOURSELF
  }

  function ToldLines(told: Told): seq<string> {
    ["", AMENDMENT_MARKER, TitleLine(told.title)]
    + Marked("> Human note: ", told.note) + SpeechesLines(told.speeches)
    + ["> ", Closing()]
  }

  lemma {:induction false} PrefixedIsMarked(prefix: string, lines: seq<string>)
    ensures Prefixed(prefix, lines) == Rendered(Marked(prefix, lines))
  {
    if lines != [] {
      PrefixedIsMarked(prefix, lines[1..]);
      assert Marked(prefix, lines) == [prefix + lines[0]] + Marked(prefix, lines[1..]);
      RenderedCons(prefix + lines[0], Marked(prefix, lines[1..]));
    }
  }

  lemma SpeechRendered(speech: Speech)
    ensures Rendered(SpeechLines(speech)) ==
            ">\n> *[" + speech.heading + "]*\n" + Prefixed("> ", speech.lines)
  {
    var lines := Marked("> ", speech.lines);
    var heading := "> *[" + speech.heading + "]*";
    PrefixedIsMarked("> ", speech.lines);
    RenderedCons(heading, lines);
    RenderedCons(">", [heading] + lines);
    assert SpeechLines(speech) == [">"] + ([heading] + lines);
    assert ">" + "\n" + (heading + "\n" + Rendered(lines)) == ">\n> *[" + speech.heading + "]*\n" + Rendered(lines);
  }

  lemma SpeechesOfOne(position: CouncilMemberPosition)
    ensures SpeechesOf([position]) ==
            [Speech(position.role, Lines(position.response))]
            + match position.critique
              case Some(critique) => [Speech(position.role + " — dissent preserved", Lines(critique))]
              case None => []
  {
    assert [position][1..] == [];
  }

  lemma PositionRendered(position: CouncilMemberPosition)
    ensures PositionText(position) == Rendered(SpeechesLines(SpeechesOf([position])))
  {
    hide Prefixed, Rendered, Lines, SpeechLines, SpeechesLines, SpeechesOf;
    var first := Speech(position.role, Lines(position.response));
    SpeechRendered(first);
    SpeechesOfOne(position);
    match position.critique
    case None =>
      assert [first] + [] == [first];
      OneSpeech(first);
    case Some(critique) =>
      var second := Speech(position.role + " — dissent preserved", Lines(critique));
      SpeechRendered(second);
      assert [first] + [second] == [first, second];
      OneSpeech(second);
      SpeechesFirst(first, [second]);
      RenderedConcat(SpeechLines(first), SpeechesLines([second]));
      DissentHeading(position.role);
  }

  lemma DissentHeading(role: string)
    ensures ">\n> *[" + (role + " — dissent preserved") + "]*\n" == ">\n> *[" + role + " — dissent preserved]*\n"
  {
  }

  lemma SpeechesFirst(first: Speech, rest: seq<Speech>)
    ensures SpeechesLines([first] + rest) == SpeechLines(first) + SpeechesLines(rest)
  {
    assert ([first] + rest)[1..] == rest;
  }

  lemma OneSpeech(speech: Speech)
    ensures SpeechesLines([speech]) == SpeechLines(speech)
  {
    SpeechesFirst(speech, []);
    assert [speech] + [] == [speech] && SpeechLines(speech) + [] == SpeechLines(speech);
  }

  lemma LinesRegroup(a: seq<string>, b: seq<string>, c: seq<string>)
    ensures a + (b + c) == a + b + c
  {
  }

  lemma NoSpeech(rest: seq<Speech>)
    ensures SpeechesLines([] + rest) == SpeechesLines([]) + SpeechesLines(rest)
  {
    assert [] + rest == rest;
  }

  lemma {:induction false} SpeechesConcat(a: seq<Speech>, b: seq<Speech>)
    ensures SpeechesLines(a + b) == SpeechesLines(a) + SpeechesLines(b)
  {
    hide *;
    if a == [] {
      NoSpeech(b);
    } else {
      SpeechesConcat(a[1..], b);
      SpeechesFirst(a[0], a[1..]);
      SpeechesFirst(a[0], a[1..] + b);
      assert [a[0]] + a[1..] == a && [a[0]] + (a[1..] + b) == a + b;
      LinesRegroup(SpeechLines(a[0]), SpeechesLines(a[1..]), SpeechesLines(b));
    }
  }

  lemma {:induction false} PositionsRendered(positions: seq<CouncilMemberPosition>)
    ensures PositionTexts(positions) == Rendered(SpeechesLines(SpeechesOf(positions)))
  {
    hide PositionText, SpeechesLines, Rendered, Lines;
    if positions == [] {
      NothingSaid();
    } else {
      PositionRendered(positions[0]);
      PositionsRendered(positions[1..]);
      assert [positions[0]][1..] == [];
      assert SpeechesOf([positions[0]]) + SpeechesOf(positions[1..]) == SpeechesOf(positions);
      SpeechesConcat(SpeechesOf([positions[0]]), SpeechesOf(positions[1..]));
      RenderedConcat(SpeechesLines(SpeechesOf([positions[0]])), SpeechesLines(SpeechesOf(positions[1..])));
    }
  }

  lemma NothingSaid()
    ensures SpeechesLines([]) == [] && Rendered([]) == ""
  {
  }

  lemma NoteRendered(finding: CouncilFinding)
    ensures NoteText(finding) == Rendered(Marked("> Human note: ", NoteOf(finding)))
  {
    PrefixedIsMarked("> Human note: ", NoteOf(finding));
    match finding.disposition
    case Some(CouncilFindingDisposition(_, _, _, Some(note), _)) => BlankTrims(note);
    case _ =>
  }

  /** A block's text is those lines, whatever the title and the roles. */
  lemma BlockIsLines(finding: CouncilFinding)
    ensures BlockText(finding) == Rendered(ToldLines(TellsOf(finding)))
  {
    hide NoteText, PositionTexts, SpeechesLines, Marked, Rendered, NoteOf, SpeechesOf, TitleLine, Closing;
    var told := TellsOf(finding);
    var note, speeches := Marked("> Human note: ", told.note), SpeechesLines(told.speeches);
    NoteRendered(finding);
    PositionsRendered(finding.positions);
    LinesRendered("", AMENDMENT_MARKER, TitleLine(told.title), note, speeches, "> ", Closing());
    ClosingSpelled();
    BlockSpelled(finding.title, NoteText(finding), PositionTexts(finding.positions), AMENDMENT_MARKER, Closing());
  }

  lemma ClosingSpelled()
    ensures Closing() + "\n" == DISCLAIMER + NO_REWRITE + SAVE_YOURSELF + "\n"
  {
  }

  lemma LinesRendered(a: string, b: string, c: string, note: seq<string>, speeches: seq<string>, d: string, e: string)
    ensures Rendered([a, b, c] + note + speeches + [d, e]) ==
            a + "\n" + b + "\n" + c + "\n" + Rendered(note) + Rendered(speeches) + d + "\n" + e + "\n"
  {
    hide Rendered;
    RenderedThree(a, b, c);
    RenderedConcat([a, b, c], note);
    RenderedConcat([a, b, c] + note, speeches);
    RenderedSnoc([a, b, c] + note + speeches, d);
    RenderedSnoc([a, b, c] + note + speeches + [d], e);
    assert [a, b, c] + note + speeches + [d, e] == [a, b, c] + note + speeches + [d] + [e];
  }

  lemma RenderedThree(a: string, b: string, c: string)
    ensures Rendered([a, b, c]) == a + "\n" + b + "\n" + c + "\n"
  {
    RenderedSnoc([], a);
    RenderedSnoc([a], b);
    RenderedSnoc([a, b], c);
    assert [] + [a] == [a] && [a] + [b] == [a, b] && [a, b] + [c] == [a, b, c];
  }

  lemma TitleEnded(title: string)
    ensures TitleLine(title) + "\n" == "> **Accepted finding — " + title + "**\n"
  {
  }

  lemma Glued(x: string, line: string, ended: string)
    requires line + "\n" == ended
    ensures x + line + "\n" == x + ended
  {
    Regroup(x, line, "\n");
  }

  lemma BlockSpelled(title: string, note: string, positions: string, marker: string, closing: string)
    ensures "" + "\n" + marker + "\n" + TitleLine(title) + "\n" + note + positions + "> " + "\n" + closing + "\n"
            == "\n" + marker + "\n" + ("> **Accepted finding — " + title + "**\n") + note + positions
               + "> \n" + (closing + "\n")
  {
    hide *;
    TitleEnded(title);
    assert "" + "\n" == "\n" && "> " + "\n" == "> \n";
    Glued("\n" + marker + "\n", TitleLine(title), "> **Accepted finding — " + title + "**\n");
    var upTo := "\n" + marker + "\n" + ("> **Accepted finding — " + title + "**\n") + note + positions;
    Glued(upTo, "> ", "> \n");
    Glued(upTo + "> \n", closing, closing + "\n");
  }

  // ---------- reading back ----------

  lemma CutMarked(prefix: string, line: string)
    ensures Cut(prefix + line, |prefix|, 0) == line
  {
  }

  lemma CutAround(before: string, line: string, after: string)
    ensures Cut(before + line + after, |before|, |after|) == line
  {
  }

  lemma CutAllMarked(prefix: string, lines: seq<string>)
    ensures CutAll(Marked(prefix, lines), |prefix|) == lines
  {
    forall i | 0 <= i < |lines| ensures CutAll(Marked(prefix, lines), |prefix|)[i] == lines[i] {
      CutMarked(prefix, lines[i]);
    }
  }

  lemma MarkedFirst(prefix: string, lines: seq<string>)
    requires lines != []
    ensures Marked(prefix, lines) == [prefix + lines[0]] + Marked(prefix, lines[1..])
  {
  }

  /** A marked line is no bare quote mark, so the lines up to one are found again. */
  lemma {:induction false} MarkedAreFound(prefix: string, lines: seq<string>, rest: seq<string>)
    requires |prefix| > 1 && (rest != [] ==> rest[0] == ">")
    ensures UpToBare(Marked(prefix, lines) + rest) == Marked(prefix, lines)
    decreases |lines|
  {
    var marked := Marked(prefix, lines);
    if lines == [] {
      assert marked == [] && marked + rest == rest;
    } else {
      MarkedFirst(prefix, lines);
      MarkedAreFound(prefix, lines[1..], rest);
      assert (marked + rest)[1..] == Marked(prefix, lines[1..]) + rest;
      assert |(marked + rest)[0]| > 1;
    }
  }

  lemma SpeechesStart(speeches: seq<Speech>)
    ensures SpeechesLines(speeches) != [] ==> SpeechesLines(speeches)[0] == ">"
  {
  }

  lemma ReadFirst(speech: Speech, rest: seq<string>)
    requires rest != [] ==> rest[0] == ">"
    ensures ReadSpeeches(SpeechLines(speech) + rest) == [speech] + ReadSpeeches(rest)
  {
    var lines, said := SpeechLines(speech) + rest, Marked("> ", speech.lines);
    assert lines[2..] == said + rest;
    MarkedAreFound("> ", speech.lines, rest);
    CutAllMarked("> ", speech.lines);
    CutAround("> *[", speech.heading, "]*");
    assert lines[2 + |said|..] == rest;
  }

  lemma {:induction false} SpeechesAreRead(speeches: seq<Speech>)
    ensures ReadSpeeches(SpeechesLines(speeches)) == speeches
  {
    if speeches != [] {
      hide SpeechLines, ReadSpeeches;
      SpeechesAreRead(speeches[1..]);
      SpeechesStart(speeches[1..]);
      ReadFirst(speeches[0], SpeechesLines(speeches[1..]));
      assert speeches == [speeches[0]] + speeches[1..];
    }
  }

  lemma ToldIsRead(told: Told, block: string)
    requires Feeds(block) == ToldLines(told)
    ensures ReadBlock(block) == told
  {
    hide Feeds, Marked, SpeechesLines, ReadSpeeches, UpToBare, CutAll, Closing, TitleLine;
    var lines, note, speeches := ToldLines(told), Marked("> Human note: ", told.note), SpeechesLines(told.speeches);
    assert lines[3..|lines| - 2] == note + speeches;
    SpeechesStart(told.speeches);
    MarkedAreFound("> Human note: ", told.note, speeches);
    assert (note + speeches)[|note|..] == speeches;
    CutAllMarked("> Human note: ", told.note);
    SpeechesAreRead(told.speeches);
    CutTitle(told.title);
  }

  lemma CutTitle(title: string)
    ensures Cut(TitleLine(title), |"> **Accepted finding — "|, |"**"|) == title
  {
    CutAround("> **Accepted finding — ", title, "**");
  }

  // ---------- when a block can be read ----------

  /** The title and the roles are single lines, as the source makes them. */
  ghost predicate SingleLines(finding: CouncilFinding) {
    '\n' !in finding.title && forall i :: 0 <= i < |finding.positions| ==> '\n' !in finding.positions[i].role
  }

  ghost predicate Unmixed(speeches: seq<Speech>) {
    forall i :: 0 <= i < |speeches| ==> '\n' !in speeches[i].heading
  }

  ghost predicate UnbrokenSpeeches(speeches: seq<Speech>) {
    forall i :: 0 <= i < |speeches| ==> NoFeeds(speeches[i].lines)
  }

  lemma DissentUnbroken(role: string)
    ensures '\n' in role + " — dissent preserved" <==> '\n' in role
  {
    assert '\n' !in " — dissent preserved";
  }

  lemma UnmixedConcat(a: seq<Speech>, b: seq<Speech>)
    ensures Unmixed(a + b) <==> Unmixed(a) && Unmixed(b)
  {
    var c := a + b;
    assert forall i :: 0 <= i < |a| ==> c[i] == a[i];
    assert forall i :: 0 <= i < |b| ==> c[|a| + i] == b[i];
  }

  lemma UnbrokenConcat(a: seq<Speech>, b: seq<Speech>)
    requires UnbrokenSpeeches(a) && UnbrokenSpeeches(b)
    ensures UnbrokenSpeeches(a + b)
  {
  }

  lemma OneSpeaks(position: CouncilMemberPosition)
    ensures Unmixed(SpeechesOf([position])) <==> '\n' !in position.role
    ensures UnbrokenSpeeches(SpeechesOf([position]))
  {
    hide Lines;
    SpeechesOfOne(position);
    DissentUnbroken(position.role);
    LinesAreUnbroken(position.response);
    var speeches := SpeechesOf([position]);
    assert speeches[0].heading == position.role;
    if position.critique.Some? {
      LinesAreUnbroken(position.critique.value);
      assert speeches[1].heading == position.role + " — dissent preserved";
    }
  }

  lemma {:induction false} AllSpeak(positions: seq<CouncilMemberPosition>)
    ensures Unmixed(SpeechesOf(positions)) <==> forall i :: 0 <= i < |positions| ==> '\n' !in positions[i].role
    ensures UnbrokenSpeeches(SpeechesOf(positions))
  {
    if positions != [] {
      hide Unmixed, UnbrokenSpeeches, Lines;
      var first, rest := SpeechesOf([positions[0]]), SpeechesOf(positions[1..]);
      AllSpeak(positions[1..]);
      OneSpeaks(positions[0]);
      SpeechesOfOne(positions[0]);
      assert SpeechesOf(positions) == first + rest;
      UnmixedConcat(first, rest);
      UnbrokenConcat(first, rest);
      assert positions == [positions[0]] + positions[1..];
    } else {
      assert SpeechesOf(positions) == [];
    }
  }

  lemma MarkedUnbroken(prefix: Unbroken, lines: seq<string>)
    requires NoFeeds(lines)
    ensures NoFeeds(Marked(prefix, lines))
  {
  }

  lemma {:induction false} SpeechesUnbroken(speeches: seq<Speech>)
    requires Unmixed(speeches) && UnbrokenSpeeches(speeches)
    ensures NoFeeds(SpeechesLines(speeches))
  {
    if speeches != [] {
      SpeechesUnbroken(speeches[1..]);
      MarkedUnbroken("> ", speeches[0].lines);
      NoFeedsConcat([">", "> *[" + speeches[0].heading + "]*"], Marked("> ", speeches[0].lines));
      NoFeedsConcat(SpeechLines(speeches[0]), SpeechesLines(speeches[1..]));
    }
  }

  lemma TitleUnbroken(title: string)
    requires '\n' !in title
    ensures '\n' !in TitleLine(title)
  {
    assert '\n' !in "> **Accepted finding — ";
  }

  lemma NoteUnbroken(finding: CouncilFinding)
    ensures NoFeeds(NoteOf(finding))
  {
    match finding.disposition
    case Some(CouncilFindingDisposition(_, _, _, Some(note), _)) => LinesAreUnbroken(note);
    case _ =>
  }

  lemma ToldUnbroken(finding: CouncilFinding)
    requires SingleLines(finding)
    ensures NoFeeds(ToldLines(TellsOf(finding)))
  {
    hide SpeechesLines, Marked, NoteOf, SpeechesOf, TitleLine;
    var told := TellsOf(finding);
    var note, speeches := Marked("> Human note: ", told.note), SpeechesLines(told.speeches);
    TitleUnbroken(told.title);
    NoteUnbroken(finding);
    MarkedUnbroken("> Human note: ", told.note);
    AllSpeak(finding.positions);
    SpeechesUnbroken(told.speeches);
    NoFeedsConcat(["", AMENDMENT_MARKER, TitleLine(told.title)], note);
    NoFeedsConcat(["", AMENDMENT_MARKER, TitleLine(told.title)] + note, speeches);
    NoFeedsConcat(["", AMENDMENT_MARKER, TitleLine(told.title)] + note + speeches, ["> ", Closing()]);
  }

  lemma {:induction false} ReadUnmixed(lines: seq<string>)
    requires NoFeeds(lines)
    ensures Unmixed(ReadSpeeches(lines))
    decreases |lines|
  {
    if |lines| >= 2 {
      hide UpToBare;
      ReadUnmixed(lines[2 + |UpToBare(lines[2..])|..]);
    }
  }

  lemma ReadIsSingle(block: string)
    ensures '\n' !in ReadBlock(block).title && Unmixed(ReadBlock(block).speeches)
  {
    hide ReadSpeeches, UpToBare, Feeds;
    FeedsAreUnbroken(block);
    var lines := Feeds(block);
    if |lines| >= 5 {
      var middle := lines[3..|lines| - 2];
      ReadUnmixed(middle[|UpToBare(middle)|..]);
    }
  }

  /**
   * A block can be read back, title, note, responses and dissents, exactly when its title and its roles are
   * single lines.
   */
  lemma BlockTellsExactly(finding: CouncilFinding)
    ensures ReadBlock(BlockText(finding)) == TellsOf(finding) <==> SingleLines(finding)
  {
    hide *;
    BlockIsLines(finding);
    ReadIsSingle(BlockText(finding));
    SingleExactly(finding);
    if SingleLines(finding) {
      ToldUnbroken(finding);
      FeedsRendered(ToldLines(TellsOf(finding)));
      ToldIsRead(TellsOf(finding), BlockText(finding));
    }
  }

  lemma SingleExactly(finding: CouncilFinding)
    ensures SingleLines(finding) <==> '\n' !in TellsOf(finding).title && Unmixed(TellsOf(finding).speeches)
  {
    hide SpeechesOf, Unmixed;
    AllSpeak(finding.positions);
  }

  lemma FramedRegroup(marker: string, title: string, note: string, positions: string, rule: string, closing: string)
    ensures marker + title + note + positions + rule + closing == marker + title + (note + positions) + (rule + closing)
  {
  }

  /** A block opens with the marker and its title and ends with the disclaimer, whatever it says between. */
  lemma BlockFramed(finding: CouncilFinding) returns (said: string)
    ensures BlockText(finding) ==
            ("\n" + "<!-- mjolnr:council-amendment -->" + "\n") + ("> **Accepted finding — " + finding.title + "**\n")
            + said
            + ("> \n" + ("> mjolnr marked this up; it did not " + "rewrite the section. Edit this block "
                         + "into the document and save it yourself." + "\n"))
  {
    hide NoteText, PositionTexts;
    said := NoteText(finding) + PositionTexts(finding.positions);
    FramedRegroup("\n" + AMENDMENT_MARKER + "\n", "> **Accepted finding — " + finding.title + "**\n",
                  NoteText(finding), PositionTexts(finding.positions), "> \n",
                  DISCLAIMER + NO_REWRITE + SAVE_YOURSELF + "\n");
  }

  // ---------- what stands in the output ----------

  predicate AtLineStart(before: string) {
    before == "" || before[|before| - 1] == '\n'
  }

  ghost predicate StandsBetween(text: string, before: string, part: string, after: string) {
    text == before + part + after && AtLineStart(before)
  }

  /** The part stands in the text, from the start of a line. */
  ghost predicate StandsIn(text: string, part: string) {
    exists before, after :: StandsBetween(text, before, part, after)
  }

  lemma StandsWithin(text: string, middle: string, part: string)
    requires StandsIn(text, middle) && StandsIn(middle, part)
    ensures StandsIn(text, part)
  {
    var a, b :| StandsBetween(text, a, middle, b);
    var c, d :| StandsBetween(middle, c, part, d);
    Nested(a, c, part, d, b);
    assert AtLineStart(a + c);
    assert StandsBetween(text, a + c, part, d + b);
  }

  lemma Nested(a: string, c: string, part: string, d: string, b: string)
    ensures a + (c + part + d) + b == (a + c) + part + (d + b)
  {
  }

  lemma {:induction false} RenderedEnds(lines: seq<string>)
    ensures AtLineStart(Rendered(lines))
  {
    if lines != [] {
      var before, last := lines[..|lines| - 1], lines[|lines| - 1];
      RenderedSnoc(before, last);
      assert lines == before + [last];
    }
  }

  lemma LineStands(lines: seq<string>, line: string)
    requires line in lines
    ensures StandsIn(Rendered(lines), line + "\n")
  {
    var i :| 0 <= i < |lines| && lines[i] == line;
    hide Rendered;
    RenderedEnds(lines[..i]);
    RenderedSnoc(lines[..i], line);
    RenderedConcat(lines[..i] + [line], lines[i + 1..]);
    assert lines == lines[..i] + [line] + lines[i + 1..];
    Regroup(Rendered(lines[..i]), line, "\n");
    assert StandsBetween(Rendered(lines), Rendered(lines[..i]), line + "\n", Rendered(lines[i + 1..]));
  }

  lemma BlockEnds(finding: CouncilFinding)
    ensures BlockText(finding) != "" && AtLineStart(BlockText(finding))
  {
    hide NoteText, PositionTexts;
  }

  lemma PieceEnds(piece: Piece)
    ensures PieceText(piece) != "" && AtLineStart(PieceText(piece))
  {
    hide BlockText;
    if piece.Block? || piece.UnmatchedBlock? {
      BlockEnds(piece.finding);
    }
  }

  lemma {:induction false} OutputEnds(pieces: seq<Piece>)
    ensures AtLineStart(Output(pieces))
  {
    if pieces != [] {
      hide PieceText;
      PieceEnds(pieces[|pieces| - 1]);
    }
  }

  lemma {:induction false} PieceStands(pieces: seq<Piece>, piece: Piece)
    requires piece in pieces
    ensures StandsIn(Output(pieces), PieceText(piece))
  {
    hide PieceText, AtLineStart;
    var before, last := pieces[..|pieces| - 1], pieces[|pieces| - 1];
    assert pieces == before + [last];
    if piece in before {
      PieceStands(before, piece);
      var a, b :| StandsBetween(Output(before), a, PieceText(piece), b);
      Regroup(a + PieceText(piece), b, PieceText(last));
      assert StandsBetween(Output(pieces), a, PieceText(piece), b + PieceText(last));
    } else {
      OutputEnds(before);
      assert Output(before) + PieceText(piece) + "" == Output(pieces);
      assert StandsBetween(Output(pieces), Output(before), PieceText(piece), "");
    }
  }

  /** An emitted finding's block stands in the output as it is. */
  lemma EmittedStands(pieces: seq<Piece>, finding: CouncilFinding)
    requires Emitted(pieces, finding)
    ensures StandsIn(Output(pieces), BlockText(finding))
  {
    hide BlockText, StandsIn, Output;
    if Block(finding) in pieces {
      PieceStands(pieces, Block(finding));
    } else {
      PieceStands(pieces, UnmatchedBlock(finding));
    }
  }

  lemma ToldLineStands(finding: CouncilFinding, line: string)
    requires line in ToldLines(TellsOf(finding))
    ensures StandsIn(BlockText(finding), line + "\n")
  {
    hide *;
    BlockIsLines(finding);
    LineStands(ToldLines(TellsOf(finding)), line);
  }

  lemma {:induction false} SpeechLineIn(speeches: seq<Speech>, i: nat, line: string)
    requires i < |speeches| && line in speeches[i].lines
    ensures "> " + line in SpeechesLines(speeches)
  {
    if i == 0 {
      var j :| 0 <= j < |speeches[0].lines| && speeches[0].lines[j] == line;
      assert Marked("> ", speeches[0].lines)[j] == "> " + line;
    } else {
      SpeechLineIn(speeches[1..], i - 1, line);
    }
  }

  lemma {:induction false} PositionSpeaks(positions: seq<CouncilMemberPosition>, position: CouncilMemberPosition)
    returns (i: nat)
    requires position in positions
    ensures i < |SpeechesOf(positions)|
    ensures SpeechesOf(positions)[i] == Speech(position.role, Lines(position.response))
    ensures position.critique.Some? ==>
              && i + 1 < |SpeechesOf(positions)|
              && SpeechesOf(positions)[i + 1]
                 == Speech(position.role + " — dissent preserved", Lines(position.critique.value))
  {
    hide Lines;
    if positions[0] == position {
      i := 0;
    } else {
      var j := PositionSpeaks(positions[1..], position);
      i := j + if positions[0].critique.Some? then 2 else 1;
    }
  }

  /** The lines a finding has to tell: its note, and what each member answered and held against it. */
  ghost predicate HasToTell(finding: CouncilFinding, line: string) {
    || (exists l :: l in NoteOf(finding) && line == "> Human note: " + l)
    || (exists p, l :: p in finding.positions && l in Lines(p.response) && line == "> " + l)
    || (exists p, l :: p in finding.positions && p.critique.Some? && l in Lines(p.critique.value) && line == "> " + l)
  }

  lemma HasToTellIsTold(finding: CouncilFinding, line: string)
    requires HasToTell(finding, line)
    ensures line in ToldLines(TellsOf(finding))
  {
    hide Lines, SpeechesLines, SpeechesOf, NoteOf, TitleLine, Closing;
    var told := TellsOf(finding);
    if l :| l in NoteOf(finding) && line == "> Human note: " + l {
      var j :| 0 <= j < |told.note| && told.note[j] == l;
      assert Marked("> Human note: ", told.note)[j] == line;
    } else if p, l :| p in finding.positions && l in Lines(p.response) && line == "> " + l {
      var i := PositionSpeaks(finding.positions, p);
      SpeechLineIn(told.speeches, i, l);
    } else {
      var p, l :| p in finding.positions && p.critique.Some? && l in Lines(p.critique.value) && line == "> " + l;
      var i := PositionSpeaks(finding.positions, p);
      SpeechLineIn(told.speeches, i + 1, l);
    }
  }

  /** Whatever an emitted finding has to tell stands in the output as a line of its own. */
  lemma EmittedIsTold(pieces: seq<Piece>, finding: CouncilFinding, line: string)
    requires Emitted(pieces, finding) && HasToTell(finding, line)
    ensures StandsIn(Output(pieces), line + "\n")
  {
    hide *;
    HasToTellIsTold(finding, line);
    ToldLineStands(finding, line);
    EmittedStands(pieces, finding);
    StandsWithin(Output(pieces), BlockText(finding), line + "\n");
  }
}
