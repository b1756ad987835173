/** Tool extensions: an argv template with `${name}` placeholders, checked once and filled per call. */
module Extensions {
  import opened Wrappers
  import opened Text

  const MAX_PARAMETERS: nat := 64
  const MAX_ARGUMENTS: nat := 256

  // ---------- templates ----------

  datatype Piece = Literal(text: string) | Placeholder(name: string)

  /** A template text taken apart; `closed` is false when the last placeholder is unterminated. */
  datatype Template = Template(pieces: seq<Piece>, closed: bool)

  function Parsed(text: string): Template
    decreases |text|
  {
    var start := FindPair(text, '$', '{');
    if start == |text| then Template([Literal(text)], true)
    else
      var after := text[start + 2..];
      var end := Find(after, '}');
      if end == |after| then Template([Literal(text[..start])], false)
      else
        var rest := Parsed(after[end + 1..]);
        Template([Literal(text[..start]), Placeholder(after[..end])] + rest.pieces, rest.closed)
  }

  datatype TemplateError = Unterminated | EmptyPlaceholder | NoValue(name: string)

  function Prepend(text: string, r: Result<string, TemplateError>): Result<string, TemplateError> {
    match r
    case Success(rest) => Success(text + rest)
    case Failure(error) => Failure(error)
  }

  /** Filling in values from left to right; a value that was put in is never looked at again. */
  function Filled(pieces: seq<Piece>, closed: bool, values: map<string, string>): Result<string, TemplateError> {
    if pieces == [] then if closed then Success("") else Failure(Unterminated)
    else match pieces[0]
      case Literal(text) => Prepend(text, Filled(pieces[1..], closed, values))
      case Placeholder(name) =>
        if name in values then Prepend(values[name], Filled(pieces[1..], closed, values))
        else Failure(NoValue(name))
  }

  function Substituted(text: string, values: map<string, string>): Result<string, TemplateError> {
    Filled(Parsed(text).pieces, Parsed(text).closed, values)
  }

  /** The placeholder names in order; an empty one or a missing end is an error. */
  function Names(pieces: seq<Piece>, closed: bool): Result<seq<string>, TemplateError> {
    if pieces == [] then if closed then Success([]) else Failure(Unterminated)
    else match pieces[0]
      case Literal(_) => Names(pieces[1..], closed)
      case Placeholder(name) =>
        if name == "" then Failure(EmptyPlaceholder)
        else match Names(pieces[1..], closed)
          case Success(names) => Success([name] + names)
          case Failure(error) => Failure(error)
  }

  function Scanned(text: string): Result<seq<string>, TemplateError> {
    Names(Parsed(text).pieces, Parsed(text).closed)
  }

  function PrependNames(names: seq<string>, r: Result<seq<string>, TemplateError>): Result<seq<string>, TemplateError> {
    match r
    case Success(rest) => Success(names + rest)
    case Failure(error) => Failure(error)
  }

  lemma FilledTwo(text: string, name: string, rest: seq<Piece>, closed: bool, values: map<string, string>)
    ensures Filled([Literal(text), Placeholder(name)] + rest, closed, values) ==
            if name in values then Prepend(text + values[name], Filled(rest, closed, values))
            else Failure(NoValue(name))
  {
    var pieces := [Literal(text), Placeholder(name)] + rest;
    assert pieces[1..] == [Placeholder(name)] + rest && pieces[1..][1..] == rest;
    if name in values && Filled(rest, closed, values).Success? {
      var tail := Filled(rest, closed, values).value;
      assert text + (values[name] + tail) == text + values[name] + tail;
    }
  }

  lemma NamesTwo(text: string, name: string, rest: seq<Piece>, closed: bool)
    ensures Names([Literal(text), Placeholder(name)] + rest, closed) ==
            if name == "" then Failure(EmptyPlaceholder) else PrependNames([name], Names(rest, closed))
  {
    var pieces := [Literal(text), Placeholder(name)] + rest;
    assert pieces[1..] == [Placeholder(name)] + rest && pieces[1..][1..] == rest;
  }

  lemma OnlyLiteral(text: string, closed: bool, values: map<string, string>)
    ensures Filled([Literal(text)], closed, values) == if closed then Success(text) else Failure(Unterminated)
    ensures Names([Literal(text)], closed) == if closed then Success([]) else Failure(Unterminated)
  {
    assert [Literal(text)][1..] == [];
    assert text + "" == text;
  }

  /** One round of either loop: the text up to a placeholder, its name, and what is left. */
  ghost predicate Opens(text: string, start: nat, name: string, rest: string) {
    && start == FindPair(text, '$', '{') < |text|
    && var after := text[start + 2..];
       var end := Find(after, '}');
       end < |after| && name == after[..end] && rest == after[end + 1..]
  }

  lemma ParsedStep(text: string, start: nat, name: string, rest: string)
    requires Opens(text, start, name, rest)
    ensures Parsed(text) ==
            Template([Literal(text[..start]), Placeholder(name)] + Parsed(rest).pieces, Parsed(rest).closed)
  {
  }

  lemma SubstitutedStep(text: string, start: nat, name: string, rest: string, values: map<string, string>)
    requires Opens(text, start, name, rest)
    ensures Substituted(text, values) ==
            if name in values then Prepend(text[..start] + values[name], Substituted(rest, values))
            else Failure(NoValue(name))
  {
    var t := Parsed(rest);
    ParsedStep(text, start, name, rest);
    FilledTwo(text[..start], name, t.pieces, t.closed, values);
  }

  lemma ScannedStep(text: string, start: nat, name: string, rest: string)
    requires Opens(text, start, name, rest)
    ensures Scanned(text) ==
            if name == "" then Failure(EmptyPlaceholder) else PrependNames([name], Scanned(rest))
  {
    var t := Parsed(rest);
    ParsedStep(text, start, name, rest);
    NamesTwo(text[..start], name, t.pieces, t.closed);
  }

  lemma LastPiece(text: string, values: map<string, string>)
    ensures var start := FindPair(text, '$', '{');
            && (start == |text| ==> Substituted(text, values) == Success(text) && Scanned(text) == Success([]))
            && (start < |text| && Find(text[start + 2..], '}') == |text[start + 2..]| ==>
                  Substituted(text, values) == Failure(Unterminated) && Scanned(text) == Failure(Unterminated))
  {
    var start := FindPair(text, '$', '{');
    OnlyLiteral(text, true, values);
    OnlyLiteral(text[..start], false, values);
  }

  lemma Bracketed(before: string, opening: string, name: string, closing: string, rest: string)
    ensures before + opening + name + closing + rest == before + opening + (name + closing + rest)
  {
  }

  lemma OpensAt(text: string, after: string, start: nat, name: string, rest: string)
    requires start + 2 <= |text| && start == FindPair(text, '$', '{') && text[start + 2..] == after
    requires |name| < |after| && Find(after, '}') == |name| && after[..|name|] == name && after[|name| + 1..] == rest
    ensures Opens(text, start, name, rest)
  {
    hide FindPair, Find;
  }

  lemma PlaceholderOpens(before: string, name: string, rest: string)
    requires FindPair(before, '$', '{') == |before| && '}' !in name
    ensures var text := before + "${" + name + "}" + rest;
            Opens(text, |before|, name, rest) && text[..|before|] == before
  {
    hide *;
    var text, after := before + "${" + name + "}" + rest, name + "}" + rest;
    Bracketed(before, "${", name, "}", rest);
    assert text == before + "${" + after;
    OpeningFound(before, after);
    NameCut(name, rest);
    OpensAt(text, after, |before|, name, rest);
    assert |text| >= |before| && text[..|before|] == before;
  }

  lemma NameCut(name: string, rest: string)
    requires '}' !in name
    ensures var after := name + "}" + rest;
            Find(after, '}') == |name| && after[..|name|] == name && after[|name| + 1..] == rest
  {
    var after := name + "}" + rest;
    assert after[|name|] == '}';
    assert forall i :: 0 <= i < |name| ==> after[i] == name[i];
  }

  lemma OpeningFound(before: string, after: string)
    requires FindPair(before, '$', '{') == |before|
    ensures var text := before + "${" + after;
            FindPair(text, '$', '{') == |before| && text[|before| + 2..] == after
  {
    var text := before + "${" + after;
    assert PairAt(text, '$', '{', |before|);
    forall i: nat | i < |before| ensures !PairAt(text, '$', '{', i) {
      assert !PairAt(before, '$', '{', i);
      assert text[i] == before[i] && (i + 1 < |before| ==> text[i + 1] == before[i + 1]);
    }
  }

  /** A placeholder becomes its value and what follows is filled on its own; without a value it is the error. */
  lemma PlaceholderTakesItsValue(before: string, name: string, rest: string, values: map<string, string>)
    requires FindPair(before, '$', '{') == |before| && '}' !in name
    ensures var filled, tail := Substituted(before + "${" + name + "}" + rest, values), Substituted(rest, values);
            && (name !in values ==> filled == Failure(NoValue(name)))
            && (name in values && tail.Success? ==> filled == Success(before + values[name] + tail.value))
            && (name in values && tail.Failure? ==> filled == tail)
  {
    PlaceholderOpens(before, name, rest);
    hide Substituted, Opens, FindPair;
    SubstitutedStep(before + "${" + name + "}" + rest, |before|, name, rest, values);
  }

  /** Its name is read first, unless there is none. */
  lemma PlaceholderIsRead(before: string, name: string, rest: string)
    requires FindPair(before, '$', '{') == |before| && '}' !in name
    ensures var names, tail := Scanned(before + "${" + name + "}" + rest), Scanned(rest);
            && (name == "" ==> names == Failure(EmptyPlaceholder))
            && (name != "" && tail.Success? ==> names == Success([name] + tail.value))
            && (name != "" && tail.Failure? ==> names == tail)
  {
    PlaceholderOpens(before, name, rest);
    hide Scanned, Opens, FindPair;
    ScannedStep(before + "${" + name + "}" + rest, |before|, name, rest);
  }

  /** A text without an opening is put out as it is; one whose first opening is never closed is an error. */
  lemma LastTextExactly(before: string, after: string, values: map<string, string>)
    requires FindPair(before, '$', '{') == |before| && '}' !in after
    ensures Substituted(before, values) == Success(before) && Scanned(before) == Success([])
    ensures Substituted(before + "${" + after, values) == Failure(Unterminated)
    ensures Scanned(before + "${" + after) == Failure(Unterminated)
  {
    LastPiece(before, values);
    OpeningFound(before, after);
    LastPiece(before + "${" + after, values);
  }

  lemma PrependNothing(r: Result<string, TemplateError>, names: Result<seq<string>, TemplateError>)
    ensures Prepend("", r) == r && PrependNames([], names) == names
  {
    if r.Success? { assert "" + r.value == r.value; }
    if names.Success? { assert [] + names.value == names.value; }
  }

  /** With `out` and `names` already read, no further placeholder or an unterminated one decides the result. */
  lemma RoundEnds(out: string, names: seq<string>, rest: string, values: map<string, string>)
    ensures var start := FindPair(rest, '$', '{');
            && (start == |rest| ==> Prepend(out, Substituted(rest, values)) == Success(out + rest)
                                    && PrependNames(names, Scanned(rest)) == Success(names))
            && (start < |rest| && Find(rest[start + 2..], '}') == |rest[start + 2..]| ==>
                  && Prepend(out, Substituted(rest, values)) == Failure(Unterminated)
                  && PrependNames(names, Scanned(rest)) == Failure(Unterminated))
  {
    LastPiece(rest, values);
    assert names + [] == names;
  }

  lemma FillRound(out: string, text: string, start: nat, name: string, rest: string, values: map<string, string>)
    requires Opens(text, start, name, rest)
    ensures Prepend(out, Substituted(text, values)) ==
            if name in values then Prepend(out + text[..start] + values[name], Substituted(rest, values))
            else Failure(NoValue(name))
  {
    SubstitutedStep(text, start, name, rest, values);
    if name in values {
      PrependTwice(out, text[..start], values[name], Substituted(rest, values));
    }
  }

  lemma ScanRound(names: seq<string>, text: string, start: nat, name: string, rest: string)
    requires Opens(text, start, name, rest)
    ensures PrependNames(names, Scanned(text)) ==
            if name == "" then Failure(EmptyPlaceholder) else PrependNames(names + [name], Scanned(rest))
  {
    ScannedStep(text, start, name, rest);
    PrependNamesTwice(names, name, Scanned(rest));
  }

  lemma PrependTwice(out: string, literal: string, value: string, r: Result<string, TemplateError>)
    ensures Prepend(out, Prepend(literal + value, r)) == Prepend(out + literal + value, r)
  {
    if r.Success? {
      assert out + (literal + value + r.value) == out + literal + value + r.value;
    }
  }

  lemma PrependNamesTwice(names: seq<string>, name: string, r: Result<seq<string>, TemplateError>)
    ensures PrependNames(names, PrependNames([name], r)) == PrependNames(names + [name], r)
  {
    if r.Success? {
      assert names + ([name] + r.value) == names + [name] + r.value;
    }
  }

  method Substitute(template: string, values: map<string, string>) returns (r: Result<string, TemplateError>)
    ensures r == Substituted(template, values)
  {
    hide Substituted, Scanned, Prepend, FindPair, Find;
    var out := "";
    var rest := template;
    PrependNothing(Substituted(template, values), Scanned(template));
    var start := FindPair(rest, '$', '{');
    while start < |rest|
      invariant start == FindPair(rest, '$', '{')
      invariant Substituted(template, values) == Prepend(out, Substituted(rest, values))
      decreases |rest|
    {
      RoundEnds(out, [], rest, values);
      ghost var before := out;
      out := out + rest[..start];
      var after := rest[start + 2..];
      var end := Find(after, '}');
      if end == |after| {
        return Failure(Unterminated);
      }
      var name := after[..end];
      FillRound(before, rest, start, name, after[end + 1..], values);
      if name !in values {
        return Failure(NoValue(name));
      }
      out := out + values[name];
      rest := after[end + 1..];
      start := FindPair(rest, '$', '{');
    }
    RoundEnds(out, [], rest, values);
    return Success(out + rest);
  }

  method ScanPlaceholders(text: string) returns (r: Result<seq<string>, TemplateError>)
    ensures r == Scanned(text)
  {
    hide Substituted, Scanned, PrependNames, FindPair, Find;
    var names: seq<string> := [];
    var rest := text;
    PrependNothing(Substituted(text, map[]), Scanned(text));
    var start := FindPair(rest, '$', '{');
    while start < |rest|
      invariant start == FindPair(rest, '$', '{')
      invariant Scanned(text) == PrependNames(names, Scanned(rest))
      decreases |rest|
    {
      RoundEnds("", names, rest, map[]);
      var after := rest[start + 2..];
      var end := Find(after, '}');
      if end == |after| {
        return Failure(Unterminated);
      }
      var name := after[..end];
      ScanRound(names, rest, start, name, after[end + 1..]);
      if name == "" {
        return Failure(EmptyPlaceholder);
      }
      names := names + [name];
      rest := after[end + 1..];
      start := FindPair(rest, '$', '{');
    }
    RoundEnds("", names, rest, map[]);
    return Success(names);
  }

  // ---------- the two see the same placeholders ----------

  ghost predicate Covers(values: map<string, string>, names: seq<string>) {
    forall n :: n in names ==> n in values
  }

  lemma {:induction false} FilledWhenCovered(pieces: seq<Piece>, closed: bool, values: map<string, string>)
    requires Names(pieces, closed).Success?
    ensures Filled(pieces, closed, values).Success? <==> Covers(values, Names(pieces, closed).value)
  {
    if pieces != [] {
      FilledWhenCovered(pieces[1..], closed, values);
      if pieces[0].Placeholder? {
        assert Names(pieces, closed).value == [pieces[0].name] + Names(pieces[1..], closed).value;
        assert pieces[0].name in Names(pieces, closed).value;
      }
    }
  }

  /** A text that scans can be filled in exactly by the values that cover the scanned names. */
  lemma SubstitutesWhatWasScanned(text: string, values: map<string, string>)
    requires Scanned(text).Success?
    ensures Substituted(text, values).Success? <==> Covers(values, Scanned(text).value)
  {
    FilledWhenCovered(Parsed(text).pieces, Parsed(text).closed, values);
  }

  function SourceOf(pieces: seq<Piece>): string {
    if pieces == [] then ""
    else (match pieces[0]
          case Literal(text) => text
          case Placeholder(name) => "${" + name + "}") + SourceOf(pieces[1..])
  }

  lemma SourceTwo(text: string, name: string, rest: seq<Piece>)
    ensures SourceOf([Literal(text), Placeholder(name)] + rest) == text + ("${" + name + "}" + SourceOf(rest))
  {
    var pieces := [Literal(text), Placeholder(name)] + rest;
    assert pieces[1..] == [Placeholder(name)] + rest && pieces[1..][1..] == rest;
  }

  lemma SourceOne(text: string)
    ensures SourceOf([Literal(text)]) == text
  {
    assert [Literal(text)][1..] == [];
    assert text + "" == text;
  }

  lemma ClosedOpens(text: string, start: nat) returns (name: string, rest: string)
    requires Parsed(text).closed && start == FindPair(text, '$', '{') < |text|
    ensures Opens(text, start, name, rest) && |rest| < |text|
    ensures text == text[..start] + ("${" + name + "}" + rest)
  {
    var after := text[start + 2..];
    var end := Find(after, '}');
    name, rest := after[..end], after[end + 1..];
    PlaceholderText(text, start, end);
  }

  lemma PlainPieces(text: string)
    requires FindPair(text, '$', '{') == |text|
    ensures SourceOf(Parsed(text).pieces) == text
  {
    SourceOne(text);
  }

  /** A terminated text taken apart and written back is the text. */
  lemma {:induction false} PiecesLoseNothing(text: string)
    requires Parsed(text).closed
    ensures SourceOf(Parsed(text).pieces) == text
    decreases |text|
  {
    hide *;
    var start := FindPair(text, '$', '{');
    if start < |text| {
      var name, rest := ClosedOpens(text, start);
      ParsedStep(text, start, name, rest);
      PiecesLoseNothing(rest);
      SourceTwo(text[..start], name, Parsed(rest).pieces);
    } else {
      PlainPieces(text);
    }
  }

  lemma PlaceholderText(text: string, start: nat, end: nat)
    requires PairAt(text, '$', '{', start)
    requires end < |text[start + 2..]| && text[start + 2..][end] == '}'
    ensures text == text[..start] + ("${" + text[start + 2..][..end] + "}" + text[start + 2..][end + 1..])
  {
    var after := text[start + 2..];
    SplitAt(after, end);
    SplitAt(after[end..], 1);
    assert after[end..][..1] == "}" && after[end..][1..] == after[end + 1..];
    SplitAt(text, start);
    SplitAt(text[start..], 2);
    assert text[start..][..2] == "${" && text[start..][2..] == after;
    Associate("${", after[..end], "}", after[end + 1..]);
  }

  lemma SplitAt(s: string, i: nat)
    requires i <= |s|
    ensures s == s[..i] + s[i..]
  {
  }

  lemma Associate(a: string, b: string, c: string, d: string)
    ensures a + (b + (c + d)) == a + b + c + d
  {
  }

  lemma {:induction false} OwnTextFills(pieces: seq<Piece>, values: map<string, string>)
    requires forall i :: 0 <= i < |pieces| && pieces[i].Placeholder? ==>
               pieces[i].name in values && values[pieces[i].name] == "${" + pieces[i].name + "}"
    ensures Filled(pieces, true, values) == Success(SourceOf(pieces))
  {
    if pieces != [] {
      OwnTextFills(pieces[1..], values);
    }
  }

  lemma {:induction false} PlaceholderIsNamed(pieces: seq<Piece>, closed: bool, i: nat)
    requires Names(pieces, closed).Success? && i < |pieces| && pieces[i].Placeholder?
    ensures closed && pieces[i].name in Names(pieces, closed).value
  {
    NamesNeedClosing(pieces, closed);
    if i > 0 {
      PlaceholderIsNamed(pieces[1..], closed, i - 1);
    }
  }

  lemma {:induction false} NamesNeedClosing(pieces: seq<Piece>, closed: bool)
    requires Names(pieces, closed).Success?
    ensures closed
  {
    if pieces != [] {
      NamesNeedClosing(pieces[1..], closed);
    }
  }

  /** Giving every name its own placeholder text gives the template back. */
  lemma OwnPlaceholdersGiveTemplate(text: string, values: map<string, string>)
    requires Scanned(text).Success?
    requires forall n :: n in Scanned(text).value ==> n in values && values[n] == "${" + n + "}"
    ensures Substituted(text, values) == Success(text)
  {
    var t := Parsed(text);
    NamesNeedClosing(t.pieces, t.closed);
    forall i | 0 <= i < |t.pieces| && t.pieces[i].Placeholder?
      ensures t.pieces[i].name in values && values[t.pieces[i].name] == "${" + t.pieces[i].name + "}"
    {
      PlaceholderIsNamed(t.pieces, t.closed, i);
    }
    OwnTextFills(t.pieces, values);
    PiecesLoseNothing(text);
  }

  // ---------- names ----------

  predicate IsLower(c: char) {
    'a' <= c <= 'z'
  }

  predicate IsDigit(c: char) {
    '0' <= c <= '9'
  }

  predicate Sized(value: string, maximum: nat) {
    1 <= |value| <= maximum
  }

  /** The rules for the name of an extension, but for its length. */
  predicate NameRules(name: string) {
    && name != "" && name[0] != '-' && name[|name| - 1] != '-'
    && FindPair(name, '-', '-') == |name|
    && (forall i :: 0 <= i < |name| ==> IsLower(name[i]) || IsDigit(name[i]) || name[i] == '-')
  }

  predicate ParameterRules(name: string) {
    && name != "" && IsLower(name[0])
    && (forall i :: 0 <= i < |name| ==> IsLower(name[i]) || IsDigit(name[i]) || name[i] == '-' || name[i] == '_')
  }

  predicate IsWord(word: string) {
    word != "" && forall i :: 0 <= i < |word| ==> IsLower(word[i]) || IsDigit(word[i])
  }

  ghost predicate AreWords(words: seq<string>) {
    words != [] && forall i :: 0 <= i < |words| ==> IsWord(words[i])
  }

  lemma {:induction false} JoinedWordsObey(words: seq<string>)
    requires AreWords(words)
    ensures NameRules(Join(words, "-"))
  {
    assert IsWord(words[0]);
    if |words| > 1 {
      var rest := Join(words[1..], "-");
      assert forall i :: 0 <= i < |words[1..]| ==> words[1..][i] == words[i + 1];
      JoinedWordsObey(words[1..]);
      WordThenName(words[0], rest);
    } else {
      WordObeys(words[0]);
    }
  }

  lemma WordObeys(word: string)
    requires IsWord(word)
    ensures NameRules(word)
  {
    assert forall i :: 0 <= i < |word| ==> word[i] != '-';
  }

  lemma WordThenName(word: string, rest: string)
    requires IsWord(word) && NameRules(rest)
    ensures NameRules(word + "-" + rest)
  {
    var name := word + "-" + rest;
    forall i | 0 <= i < |name| ensures IsLower(name[i]) || IsDigit(name[i]) || name[i] == '-' {
      if i > |word| { assert name[i] == rest[i - |word| - 1]; }
    }
    forall k: nat ensures !PairAt(name, '-', '-', k) {
      assert k == |word| ==> name[k + 1] == rest[0];
      assert k > |word| ==> (PairAt(name, '-', '-', k) <==> PairAt(rest, '-', '-', k - |word| - 1));
    }
  }

  /** The first word of a name, and what follows its hyphen. */
  lemma FirstWord(name: string) returns (n: nat)
    requires NameRules(name)
    ensures n == Find(name, '-') && IsWord(name[..n])
    ensures n < |name| ==> NameRules(name[n + 1..]) && name == name[..n] + "-" + name[n + 1..]
  {
    n := Find(name, '-');
    if n < |name| {
      var rest := name[n + 1..];
      assert !PairAt(name, '-', '-', n);
      var k := FindPair(rest, '-', '-');
      if k < |rest| {
        assert PairAt(name, '-', '-', n + 1 + k);
      }
    }
  }

  lemma {:induction false} NameHasWords(name: string) returns (words: seq<string>)
    requires NameRules(name)
    ensures AreWords(words) && name == Join(words, "-")
    decreases |name|
  {
    var n := FirstWord(name);
    if n == |name| {
      words := [name];
      assert name[..n] == name;
    } else {
      var rest := NameHasWords(name[n + 1..]);
      words := [name[..n]] + rest;
      assert words[1..] == rest;
    }
  }

  /** A name obeys the rules exactly when it is words of small letters and digits, joined by single hyphens. */
  lemma NameIsWords(name: string)
    ensures NameRules(name) <==> exists words :: AreWords(words) && name == Join(words, "-")
  {
    if NameRules(name) {
      var words := NameHasWords(name);
    }
    if words :| AreWords(words) && name == Join(words, "-") {
      JoinedWordsObey(words);
    }
  }

  lemma ClosingBrace(name: string)
    requires '}' !in name
    ensures var after := name + "}";
            Find(after, '}') == |name| && after[..|name|] == name && after[|name| + 1..] == ""
  {
    var after := name + "}";
    assert after[|name|] == '}';
  }

  /** A parameter's placeholder is read as that parameter, whatever its name. */
  lemma ParameterScansAsItself(name: string)
    requires ParameterRules(name)
    ensures Scanned("${" + name + "}") == Success([name])
  {
    var text := "${" + name + "}";
    assert PairAt(text, '$', '{', 0) && FindPair(text, '$', '{') == 0;
    ClosingBrace(name);
    assert text[2..] == name + "}";
    OnlyName(text, name);
  }

  lemma OnlyName(text: string, name: string)
    requires Opens(text, 0, name, "") && name != ""
    ensures Scanned(text) == Success([name])
  {
    hide Opens, Scanned;
    ScannedStep(text, 0, name, "");
    LastPiece("", map[]);
    assert [name] + [] == [name];
  }

  // ---------- definitions ----------

  const MAX_NAME: nat := 64
  const MAX_DESCRIPTION: nat := 1_024

  datatype Parameter = Parameter(name: string, description: string)

  datatype RawExtension = RawExtension(
    name: string, description: string, parameters: seq<Parameter>, program: string, arguments: seq<string>)

  datatype ExtensionDefinition = ExtensionDefinition(
    name: string, description: string, parameters: seq<Parameter>, program: string, arguments: seq<string>)

  datatype Field = NameField | DescriptionField | ParameterNameField | ParameterDescriptionField(name: string)

  datatype DefinitionError =
    | WrongLength(field: Field, maximum: nat, found: nat)
    | BadName
    | WrongFile(name: string)
    | TooManyParameters
    | BadParameterName(name: string)
    | DuplicateParameter(name: string)
    | EmptyProgram
    | ParameterisedProgram
    | TooManyArguments
    | BadTemplate(error: TemplateError)
    | Undeclared(name: string)
    | Unused(name: string)

  function Declared(parameters: seq<Parameter>): seq<Parameter> {
    seq(|parameters|, i requires 0 <= i < |parameters| =>
      Parameter(Trim(parameters[i].name), Trim(parameters[i].description)))
  }

  function DeclaredNames(parameters: seq<Parameter>): seq<string> {
    seq(|parameters|, i requires 0 <= i < |parameters| => Trim(parameters[i].name))
  }

  ghost predicate Distinct(names: seq<string>) {
    forall i, j :: 0 <= i < j < |names| ==> names[i] != names[j]
  }

  /** The trimmed name and description of a parameter are as the rules have them. */
  ghost predicate SoundParameter(parameter: Parameter) {
    && Sized(Trim(parameter.name), MAX_NAME) && ParameterRules(Trim(parameter.name))
    && Sized(Trim(parameter.description), MAX_DESCRIPTION)
  }

  ghost predicate SoundParameters(parameters: seq<Parameter>) {
    && (forall i :: 0 <= i < |parameters| ==> SoundParameter(parameters[i]))
    && Distinct(DeclaredNames(parameters))
  }

  ghost predicate Refers(argument: string, name: string) {
    Scanned(argument).Success? && name in Scanned(argument).value
  }

  /** Some argument refers to the name. */
  ghost predicate Referenced(arguments: seq<string>, name: string) {
    exists i :: 0 <= i < |arguments| && Refers(arguments[i], name)
  }

  ghost predicate References(arguments: seq<string>, declared: seq<string>) {
    && (forall i :: 0 <= i < |arguments| ==> Scanned(arguments[i]).Success?)
    && (forall n :: Referenced(arguments, n) ==> n in declared)
  }

  ghost predicate SoundHeader(raw: RawExtension, expectedName: string) {
    && Sized(Trim(raw.name), MAX_NAME) && NameRules(Trim(raw.name)) && Trim(raw.name) == expectedName
    && Sized(Trim(raw.description), MAX_DESCRIPTION)
  }

  /** Every argument scans, and the names it refers to are exactly the declared ones. */
  ghost predicate SoundCommand(raw: RawExtension) {
    var declared := DeclaredNames(raw.parameters);
    && Trim(raw.program) != "" && FindPair(Trim(raw.program), '$', '{') == |Trim(raw.program)|
    && |raw.arguments| <= MAX_ARGUMENTS
    && References(raw.arguments, declared)
    && (forall n :: n in declared ==> Referenced(raw.arguments, n))
  }

  ghost predicate WellFormed(raw: RawExtension, expectedName: string) {
    && SoundHeader(raw, expectedName)
    && |raw.parameters| <= MAX_PARAMETERS && SoundParameters(raw.parameters)
    && SoundCommand(raw)
  }

  /** A header is sound exactly within these bounds, with a name of small letters, digits and single hyphens. */
  lemma HeaderExactly(raw: RawExtension, expectedName: string)
    ensures SoundHeader(raw, expectedName) <==>
            && Trim(raw.name) == expectedName && 1 <= |expectedName| <= 64
            && expectedName[0] != '-' && expectedName[|expectedName| - 1] != '-'
            && (forall i :: 0 <= i < |expectedName| ==>
                  'a' <= expectedName[i] <= 'z' || '0' <= expectedName[i] <= '9' || expectedName[i] == '-')
            && (forall i, j :: 0 <= i < j < |expectedName| && expectedName[i] == '-' && expectedName[j] == '-' ==>
                  j != i + 1)
            && 1 <= |Trim(raw.description)| <= 1_024
  {
    hide Trim;
    var name := expectedName;
    var k := FindPair(name, '-', '-');
    if k < |name| {
      assert name[k] == '-' && name[k + 1] == '-';
    } else {
      forall i, j | 0 <= i < j < |name| && name[i] == '-' && name[j] == '-' ensures j != i + 1 {
        assert !PairAt(name, '-', '-', i);
      }
    }
  }

  /** A parameter is sound exactly within these. */
  lemma ParameterExactly(parameter: Parameter)
    ensures SoundParameter(parameter) <==>
            var name := Trim(parameter.name);
            && 1 <= |name| <= 64 && 'a' <= name[0] <= 'z'
            && (forall i :: 0 <= i < |name| ==>
                  'a' <= name[i] <= 'z' || '0' <= name[i] <= '9' || name[i] == '-' || name[i] == '_')
            && 1 <= |Trim(parameter.description)| <= 1_024
  {
    hide Trim;
  }

  /** A definition is well formed exactly with at most 64 parameters, 256 arguments and a fixed program. */
  lemma WellFormedExactly(raw: RawExtension, expectedName: string)
    ensures WellFormed(raw, expectedName) <==>
            && SoundHeader(raw, expectedName) && SoundParameters(raw.parameters)
            && |raw.parameters| <= 64 && |raw.arguments| <= 256
            && Trim(raw.program) != "" && !(exists a, b :: Trim(raw.program) == a + "${" + b)
            && (forall k :: 0 <= k < |raw.arguments| ==> Scanned(raw.arguments[k]).Success?)
            && (forall n :: Referenced(raw.arguments, n) <==> n in DeclaredNames(raw.parameters))
  {
    hide SoundHeader, SoundParameters, Referenced, Scanned, Trim, DeclaredNames;
    OpeningSpelled(Trim(raw.program));
  }

  lemma OpeningSpelled(s: string)
    ensures FindPair(s, '$', '{') < |s| <==> exists a, b :: s == a + "${" + b
  {
    var n := FindPair(s, '$', '{');
    if n < |s| {
      CutAtPair(s, n);
    }
    forall a, b | s == a + "${" + b ensures n < |s| {
      PairSpelled(a, b);
    }
  }

  lemma CutAtPair(s: string, n: nat)
    requires PairAt(s, '$', '{', n)
    ensures s == s[..n] + "${" + s[n + 2..]
  {
  }

  lemma PairSpelled(a: string, b: string)
    ensures PairAt(a + "${" + b, '$', '{', |a|)
  {
  }

  function TextRefusal(value: string, field: Field, maximum: nat): Option<DefinitionError> {
    if Sized(value, maximum) then None else Some(WrongLength(field, maximum, |value|))
  }

  /** Why a parameter is refused after those before it, in the order the checks are made. */
  function ParameterRefusal(earlier: seq<string>, parameter: Parameter): (refusal: Option<DefinitionError>)
    ensures refusal.None? <==> SoundParameter(parameter) && Trim(parameter.name) !in earlier
    ensures refusal.Some? && refusal.value.DuplicateParameter? ==>
              refusal.value.name == Trim(parameter.name) && refusal.value.name in earlier
  {
    var name := Trim(parameter.name);
    if !Sized(name, MAX_NAME) then TextRefusal(name, ParameterNameField, MAX_NAME)
    else if !ParameterRules(name) then Some(BadParameterName(name))
    else if name in earlier then Some(DuplicateParameter(name))
    else TextRefusal(Trim(parameter.description), ParameterDescriptionField(name), MAX_DESCRIPTION)
  }

  /** Why the header is refused, in the order the checks are made. */
  function HeaderRefusal(raw: RawExtension, expectedName: string): (refusal: Option<DefinitionError>)
    ensures refusal.None? <==> SoundHeader(raw, expectedName)
    ensures refusal.Some? ==> refusal.value.WrongLength? || refusal.value.BadName? || refusal.value.WrongFile?
  {
    var name := Trim(raw.name);
    if !Sized(name, MAX_NAME) then TextRefusal(name, NameField, MAX_NAME)
    else if !NameRules(name) then Some(BadName)
    else if name != expectedName then Some(WrongFile(name))
    else TextRefusal(Trim(raw.description), DescriptionField, MAX_DESCRIPTION)
  }

  /** What a parameter is refused for, each error exactly in its own case. */
  lemma ParameterRefusedExactly(earlier: seq<string>, parameter: Parameter)
    ensures var name, description := Trim(parameter.name), Trim(parameter.description);
            var refusal := ParameterRefusal(earlier, parameter);
            var named := 1 <= |name| <= 64;
            && (!named <==> refusal == Some(WrongLength(ParameterNameField, 64, |name|)))
            && (named && !ParameterRules(name) <==> refusal == Some(BadParameterName(name)))
            && (named && ParameterRules(name) && name in earlier <==> refusal == Some(DuplicateParameter(name)))
            && (named && ParameterRules(name) && name !in earlier && !(1 <= |description| <= 1_024) <==>
                refusal == Some(WrongLength(ParameterDescriptionField(name), 1_024, |description|)))
  {
    hide Trim, ParameterRules;
  }

  /** What a header is refused for, each error exactly in its own case. */
  lemma HeaderRefusedExactly(raw: RawExtension, expectedName: string)
    ensures var name, description := Trim(raw.name), Trim(raw.description);
            var refusal := HeaderRefusal(raw, expectedName);
            var named := 1 <= |name| <= 64;
            && (!named <==> refusal == Some(WrongLength(NameField, 64, |name|)))
            && (named && !NameRules(name) <==> refusal == Some(BadName))
            && (named && NameRules(name) && name != expectedName <==> refusal == Some(WrongFile(name)))
            && (named && NameRules(name) && name == expectedName && !(1 <= |description| <= 1_024) <==>
                refusal == Some(WrongLength(DescriptionField, 1_024, |description|)))
  {
    hide Trim, NameRules;
  }

  /** The first name that is not declared. */
  function FirstUndeclared(names: seq<string>, declared: seq<string>): (undeclared: Option<string>)
    ensures undeclared.None? <==> forall n :: n in names ==> n in declared
    ensures undeclared.Some? ==> undeclared.value in names && undeclared.value !in declared
  {
    if names == [] then None
    else
      var name := names[0];
      assert name in names && names == [name] + names[1..];
      if name !in declared then Some(name) else FirstUndeclared(names[1..], declared)
  }

  ghost predicate IsFirstUndeclared(names: seq<string>, declared: seq<string>, k: int) {
    0 <= k < |names| && names[k] !in declared && forall j :: 0 <= j < k ==> names[j] in declared
  }

  /** The undeclared name that is reported is the first of them. */
  lemma {:induction false} FirstUndeclaredExactly(names: seq<string>, declared: seq<string>, name: string)
    ensures FirstUndeclared(names, declared) == Some(name) <==>
            exists k :: IsFirstUndeclared(names, declared, k) && names[k] == name
  {
    if names != [] {
      var rest := names[1..];
      assert forall j :: 0 < j < |names| ==> names[j] == rest[j - 1];
      if names[0] in declared {
        FirstUndeclaredExactly(rest, declared, name);
        if k :| IsFirstUndeclared(rest, declared, k) && rest[k] == name {
          assert IsFirstUndeclared(names, declared, k + 1);
        }
        if k :| IsFirstUndeclared(names, declared, k) && names[k] == name {
          assert IsFirstUndeclared(rest, declared, k - 1);
        }
      } else {
        assert IsFirstUndeclared(names, declared, 0);
      }
    }
  }

  /** Why an argument is refused: it does not scan, or refers to a name that is not declared. */
  function ArgumentRefusal(argument: string, declared: seq<string>): (refusal: Option<DefinitionError>)
    ensures refusal.None? <==> Scanned(argument).Success? && forall n :: Refers(argument, n) ==> n in declared
    ensures refusal.Some? ==> match refusal.value
              case BadTemplate(error) => Scanned(argument) == Failure(error)
              case Undeclared(name) => Refers(argument, name) && name !in declared
              case _ => false
  {
    match Scanned(argument)
    case Failure(error) => Some(BadTemplate(error))
    case Success(names) =>
      assert forall n :: Refers(argument, n) <==> n in names;
      match FirstUndeclared(names, declared)
      case Some(name) => Some(Undeclared(name))
      case None => None
  }

  /** The arguments before i are sound and i is the first that is refused. */
  ghost predicate FirstBadArgument(arguments: seq<string>, declared: seq<string>, i: nat, error: DefinitionError) {
    && i < |arguments| && References(arguments[..i], declared)
    && ArgumentRefusal(arguments[i], declared) == Some(error)
  }

  /** The names before i are used and i is the first that is not. */
  ghost predicate FirstUnused(declared: seq<string>, arguments: seq<string>, i: nat, error: DefinitionError) {
    && i < |declared| && (forall j :: 0 <= j < i ==> Referenced(arguments, declared[j]))
    && !Referenced(arguments, declared[i]) && error == Unused(declared[i])
  }

  /** The error a definition is refused for: that of the first check it fails. */
  ghost predicate RefusedFor(raw: RawExtension, expectedName: string, error: DefinitionError) {
    var declared, program := DeclaredNames(raw.parameters), Trim(raw.program);
    if HeaderRefusal(raw, expectedName).Some? then HeaderRefusal(raw, expectedName) == Some(error)
    else if |raw.parameters| > MAX_PARAMETERS then error == TooManyParameters
    else if !SoundParameters(raw.parameters) then exists i: nat :: FirstRefused(raw.parameters, i, error)
    else if program == "" then error == EmptyProgram
    else if FindPair(program, '$', '{') < |program| then error == ParameterisedProgram
    else if |raw.arguments| > MAX_ARGUMENTS then error == TooManyArguments
    else if !References(raw.arguments, declared) then
      exists i: nat :: FirstBadArgument(raw.arguments, declared, i, error)
    else exists i: nat :: FirstUnused(declared, raw.arguments, i, error)
  }

  /** The parameters before i are sound and i is the first that is refused. */
  ghost predicate FirstRefused(parameters: seq<Parameter>, i: nat, error: DefinitionError) {
    && i < |parameters| && SoundParameters(parameters[..i])
    && ParameterRefusal(DeclaredNames(parameters[..i]), parameters[i]) == Some(error)
  }

  lemma DeclaredSnoc(parameters: seq<Parameter>, i: nat)
    requires i < |parameters|
    ensures var name, description := Trim(parameters[i].name), Trim(parameters[i].description);
            && Declared(parameters[..i + 1]) == Declared(parameters[..i]) + [Parameter(name, description)]
            && DeclaredNames(parameters[..i + 1]) == DeclaredNames(parameters[..i]) + [name]
  {
    hide Trim;
  }

  lemma SoundSnoc(parameters: seq<Parameter>, i: nat)
    requires i < |parameters|
    ensures SoundParameters(parameters[..i + 1]) <==>
            && SoundParameters(parameters[..i])
            && ParameterRefusal(DeclaredNames(parameters[..i]), parameters[i]).None?
  {
    hide SoundParameter, ParameterRefusal;
    DeclaredSnoc(parameters, i);
    var before, after := DeclaredNames(parameters[..i]), DeclaredNames(parameters[..i + 1]);
    DistinctSnoc(before, Trim(parameters[i].name));
    assert parameters[..i + 1] == parameters[..i] + [parameters[i]];
  }

  lemma DistinctSnoc(names: seq<string>, name: string)
    ensures Distinct(names + [name]) <==> Distinct(names) && name !in names
  {
    var longer := names + [name];
    if Distinct(longer) {
      assert forall i :: 0 <= i < |names| ==> longer[i] == names[i] && longer[i] != longer[|names|];
    }
  }

  lemma {:induction false} SoundPrefix(parameters: seq<Parameter>, i: nat)
    requires i <= |parameters| && SoundParameters(parameters)
    ensures SoundParameters(parameters[..i])
    decreases |parameters| - i
  {
    hide SoundParameters;
    if i < |parameters| {
      SoundPrefix(parameters, i + 1);
      SoundSnoc(parameters, i);
    } else {
      assert parameters[..i] == parameters;
    }
  }

  lemma RefusedParameter(parameters: seq<Parameter>, i: nat)
    requires i < |parameters| && SoundParameters(parameters[..i])
    ensures var refusal := ParameterRefusal(DeclaredNames(parameters[..i]), parameters[i]);
            refusal.Some? ==> FirstRefused(parameters, i, refusal.value) && !SoundParameters(parameters)
  {
    hide SoundParameter, SoundParameters, ParameterRefusal;
    SoundSnoc(parameters, i);
    if SoundParameters(parameters) {
      SoundPrefix(parameters, i + 1);
    }
  }

  method DeclareParameters(parameters: seq<Parameter>) returns (r: Result<seq<Parameter>, DefinitionError>)
    ensures r.Success? <==> SoundParameters(parameters)
    ensures r.Success? ==> r.value == Declared(parameters)
    ensures r.Failure? ==> exists i: nat :: FirstRefused(parameters, i, r.error)
  {
    hide SoundParameter, Trim;
    var declared: seq<Parameter> := [];
    var seen: set<string> := {};
    for i := 0 to |parameters|
      invariant declared == Declared(parameters[..i])
      invariant forall n :: n in seen <==> n in DeclaredNames(parameters[..i])
      invariant SoundParameters(parameters[..i])
    {
      ghost var refusal := ParameterRefusal(DeclaredNames(parameters[..i]), parameters[i]);
      DeclaredSnoc(parameters, i);
      SoundSnoc(parameters, i);
      RefusedParameter(parameters, i);
      var name := Trim(parameters[i].name);
      if !Sized(name, MAX_NAME) {
        return Failure(WrongLength(ParameterNameField, MAX_NAME, |name|));
      }
      if !ParameterRules(name) {
        return Failure(BadParameterName(name));
      }
      if name in seen {
        return Failure(DuplicateParameter(name));
      }
      seen := seen + {name};
      var description := Trim(parameters[i].description);
      if !Sized(description, MAX_DESCRIPTION) {
        return Failure(WrongLength(ParameterDescriptionField(name), MAX_DESCRIPTION, |description|));
      }
      declared := declared + [Parameter(name, description)];
    }
    assert parameters[..|parameters|] == parameters;
    return Success(declared);
  }

  method CheckArgument(argument: string, declared: seq<string>, referenced: set<string>)
    returns (r: Result<set<string>, DefinitionError>)
    ensures r.Success? <==> Scanned(argument).Success? && forall n :: Refers(argument, n) ==> n in declared
    ensures r.Success? ==> forall n :: n in r.value <==> n in referenced || Refers(argument, n)
    ensures r.Failure? ==> ArgumentRefusal(argument, declared) == Some(r.error)
  {
    var scan := ScanPlaceholders(argument);
    if scan.Failure? {
      return Failure(BadTemplate(scan.error));
    }
    var found := referenced;
    for k := 0 to |scan.value|
      invariant forall n :: n in scan.value[..k] ==> n in declared
      invariant forall n :: n in found <==> n in referenced || n in scan.value[..k]
      invariant FirstUndeclared(scan.value, declared) == FirstUndeclared(scan.value[k..], declared)
    {
      var name := scan.value[k];
      assert scan.value[k..][1..] == scan.value[k + 1..];
      if name !in declared {
        assert Refers(argument, name);
        return Failure(Undeclared(name));
      }
      found := found + {name};
    }
    assert scan.value[..|scan.value|] == scan.value;
    return Success(found);
  }

  method CheckArguments(arguments: seq<string>, declared: seq<string>) returns (r: Result<set<string>, DefinitionError>)
    ensures r.Success? <==> References(arguments, declared)
    ensures r.Success? ==> forall n :: n in r.value <==> Referenced(arguments, n)
    ensures r.Failure? ==> exists i: nat :: FirstBadArgument(arguments, declared, i, r.error)
  {
    var referenced: set<string> := {};
    for i := 0 to |arguments|
      invariant References(arguments[..i], declared)
      invariant forall n :: n in referenced <==> Referenced(arguments[..i], n)
    {
      var checked := CheckArgument(arguments[i], declared, referenced);
      ReferencedSnoc(arguments, i, declared);
      if checked.Failure? {
        assert FirstBadArgument(arguments, declared, i, checked.error);
        return Failure(checked.error);
      }
      referenced := checked.value;
    }
    assert arguments[..|arguments|] == arguments;
    return Success(referenced);
  }

  /** The checks on name and description. */
  method CheckHeader(raw: RawExtension, expectedName: string) returns (outcome: Outcome<DefinitionError>)
    ensures outcome == match HeaderRefusal(raw, expectedName) case None => Pass case Some(error) => Fail(error)
  {
    var name := Trim(raw.name);
    if !Sized(name, MAX_NAME) {
      return Fail(WrongLength(NameField, MAX_NAME, |name|));
    }
    if !NameRules(name) {
      return Fail(BadName);
    }
    if name != expectedName {
      return Fail(WrongFile(name));
    }
    var description := Trim(raw.description);
    if !Sized(description, MAX_DESCRIPTION) {
      return Fail(WrongLength(DescriptionField, MAX_DESCRIPTION, |description|));
    }
    return Pass;
  }

  lemma RefusedDuplicate(parameters: seq<Parameter>, error: DefinitionError)
    requires exists i: nat :: FirstRefused(parameters, i, error)
    ensures error.DuplicateParameter? ==>
              exists i, j :: 0 <= i < j < |parameters|
                             && Trim(parameters[i].name) == Trim(parameters[j].name) == error.name
    ensures !error.Undeclared? && !error.Unused?
  {
    hide Trim;
    var j: nat :| FirstRefused(parameters, j, error);
    var earlier := DeclaredNames(parameters[..j]);
    if error.DuplicateParameter? {
      var i :| 0 <= i < |earlier| && earlier[i] == error.name;
      assert parameters[..j][i] == parameters[i];
    }
  }

  lemma RefusedArgument(arguments: seq<string>, declared: seq<string>, error: DefinitionError)
    requires exists i: nat :: FirstBadArgument(arguments, declared, i, error)
    ensures error.BadTemplate? || (error.Undeclared? && Referenced(arguments, error.name) && error.name !in declared)
  {
    var i: nat :| FirstBadArgument(arguments, declared, i, error);
  }

  /** The validation of a parsed file: declared and referenced names agree in both directions. */
  method Parse(raw: RawExtension, expectedName: string) returns (r: Result<ExtensionDefinition, DefinitionError>)
    ensures r.Success? <==> WellFormed(raw, expectedName)
    ensures r.Success? ==>
              r.value == ExtensionDefinition(expectedName, Trim(raw.description), Declared(raw.parameters),
                                             Trim(raw.program), raw.arguments)
    ensures r.Failure? ==> RefusedFor(raw, expectedName, r.error)
    ensures r.Failure? && r.error.DuplicateParameter? ==>
              exists i, j :: 0 <= i < j < |raw.parameters|
                             && Trim(raw.parameters[i].name) == Trim(raw.parameters[j].name) == r.error.name
    ensures r.Failure? && r.error.Undeclared? ==>
              Referenced(raw.arguments, r.error.name) && r.error.name !in DeclaredNames(raw.parameters)
    ensures r.Failure? && r.error.Unused? ==>
              r.error.name in DeclaredNames(raw.parameters) && !Referenced(raw.arguments, r.error.name)
  {
    hide SoundHeader, SoundParameters, HeaderRefusal, Trim, Referenced, References;
    hide FirstRefused, FirstBadArgument, ArgumentRefusal;
    var header := CheckHeader(raw, expectedName);
    if header.Fail? {
      return Failure(header.error);
    }
    if |raw.parameters| > MAX_PARAMETERS {
      return Failure(TooManyParameters);
    }
    var declaration := DeclareParameters(raw.parameters);
    if declaration.Failure? {
      RefusedDuplicate(raw.parameters, declaration.error);
      return Failure(declaration.error);
    }
    var parameters := declaration.value;
    var program := Trim(raw.program);
    if program == "" {
      return Failure(EmptyProgram);
    }
    if FindPair(program, '$', '{') < |program| {
      return Failure(ParameterisedProgram);
    }
    if |raw.arguments| > MAX_ARGUMENTS {
      return Failure(TooManyArguments);
    }
    var declared := DeclaredNames(raw.parameters);
    var check := CheckArguments(raw.arguments, declared);
    if check.Failure? {
      RefusedArgument(raw.arguments, declared, check.error);
      return Failure(check.error);
    }
    var referenced := check.value;
    for i := 0 to |parameters|
      invariant forall n :: n in declared[..i] ==> n in referenced
    {
      assert parameters[i].name == declared[i];
      assert forall j :: 0 <= j < i ==> declared[j] in declared[..i];
      if parameters[i].name !in referenced {
        assert FirstUnused(declared, raw.arguments, i, Unused(parameters[i].name));
        return Failure(Unused(parameters[i].name));
      }
    }
    assert declared[..|declared|] == declared;
    return Success(ExtensionDefinition(expectedName, Trim(raw.description), parameters, program, raw.arguments));
  }

  lemma ReferencedSnoc(arguments: seq<string>, i: nat, declared: seq<string>)
    requires i < |arguments|
    ensures forall n :: Referenced(arguments[..i + 1], n) <==> Referenced(arguments[..i], n) || Refers(arguments[i], n)
    ensures References(arguments[..i + 1], declared) <==>
            && References(arguments[..i], declared)
            && Scanned(arguments[i]).Success? && forall n :: Refers(arguments[i], n) ==> n in declared
    ensures References(arguments, declared) ==> References(arguments[..i + 1], declared)
  {
    hide Refers, Scanned;
    var before, after := arguments[..i], arguments[..i + 1];
    assert after == before + [arguments[i]];
    forall n ensures Referenced(after, n) <==> Referenced(before, n) || Refers(arguments[i], n) {
      if Refers(arguments[i], n) { assert Refers(after[i], n); }
      if k :| 0 <= k < |before| && Refers(before[k], n) { assert Refers(after[k], n); }
    }
    assert forall k :: 0 <= k < |before| ==> before[k] == after[k];
    if References(arguments, declared) {
      forall n | Referenced(after, n) ensures n in declared {
        var k :| 0 <= k < |after| && Refers(after[k], n);
        assert Refers(arguments[k], n);
      }
    }
  }

  ghost predicate FirstFailure(arguments: seq<string>, values: map<string, string>, i: nat, error: TemplateError) {
    && i < |arguments| && Substituted(arguments[i], values) == Failure(error)
    && forall k :: 0 <= k < i ==> Substituted(arguments[k], values).Success?
  }

  method Resolve(definition: ExtensionDefinition, values: map<string, string>)
    returns (r: Result<seq<string>, TemplateError>)
    ensures r.Success? <==>
            forall i :: 0 <= i < |definition.arguments| ==> Substituted(definition.arguments[i], values).Success?
    ensures r.Success? ==>
              && |r.value| == |definition.arguments|
              && forall i :: 0 <= i < |r.value| ==> Substituted(definition.arguments[i], values) == Success(r.value[i])
    ensures r.Failure? ==> exists i: nat :: FirstFailure(definition.arguments, values, i, r.error)
  {
    var out: seq<string> := [];
    for i := 0 to |definition.arguments|
      invariant |out| == i
      invariant forall k :: 0 <= k < i ==> Substituted(definition.arguments[k], values) == Success(out[k])
    {
      var filled := Substitute(definition.arguments[i], values);
      if filled.Failure? {
        assert FirstFailure(definition.arguments, values, i, filled.error);
        return Failure(filled.error);
      }
      out := out + [filled.value];
    }
    return Success(out);
  }

  /** An accepted definition resolves exactly when the values cover its declared parameters. */
  lemma AcceptedResolvesExactly(raw: RawExtension, expectedName: string, values: map<string, string>)
    requires WellFormed(raw, expectedName)
    ensures (forall i :: 0 <= i < |raw.arguments| ==> Substituted(raw.arguments[i], values).Success?) <==>
            Covers(values, DeclaredNames(raw.parameters))
  {
    var declared := DeclaredNames(raw.parameters);
    if Covers(values, declared) {
      forall i | 0 <= i < |raw.arguments| ensures Substituted(raw.arguments[i], values).Success? {
        forall n | n in Scanned(raw.arguments[i]).value ensures n in values {
          assert Refers(raw.arguments[i], n) && Referenced(raw.arguments, n);
        }
        SubstitutesWhatWasScanned(raw.arguments[i], values);
      }
    }
    if forall i :: 0 <= i < |raw.arguments| ==> Substituted(raw.arguments[i], values).Success? {
      forall n | n in declared ensures n in values {
        assert Referenced(raw.arguments, n);
        var i :| 0 <= i < |raw.arguments| && Refers(raw.arguments[i], n);
        SubstitutesWhatWasScanned(raw.arguments[i], values);
      }
    }
  }
}
