/** Prompt templates: positional expansion, and splitting a command's argument text. */
module Prompts {
  import opened Wrappers
  import opened Text

  // ---------- positions ----------

  /** The largest position the source's word size can hold. */
  const USIZE_LIMIT: nat := 0x1_0000_0000_0000_0000

  predicate IsDigit(c: char) {
    '0' <= c <= '9'
  }

  function DigitValue(c: char): nat
    requires IsDigit(c)
  {
    (c as int) - ('0' as int)
  }

  /** Digits only, most significant first; nothing else has a value. */
  function DecimalValue(digits: string): Option<nat> {
    if digits == "" then Some(0)
    else
      var n := |digits| - 1;
      if !IsDigit(digits[n]) then None
      else match DecimalValue(digits[..n])
        case None => None
        case Some(high) => Some(10 * high + DigitValue(digits[n]))
  }

  /** A position as the standard parse reads it: an optional plus sign, digits, and no overflow. */
  function ParsePosition(text: string): Option<nat> {
    var digits := if |text| > 1 && text[0] == '+' then text[1..] else text;
    if digits == "" then None
    else match DecimalValue(digits)
      case Some(n) => if n < USIZE_LIMIT then Some(n) else None
      case None => None
  }

  /** The decimal spelling of a number, without leading zeros. */
  function Decimal(n: nat): string {
    if n < 10 then [('0' as int + n) as char] else Decimal(n / 10) + [('0' as int + n % 10) as char]
  }

  lemma {:induction false} DecimalReadsBack(n: nat)
    ensures Decimal(n) != "" && IsDigit(Decimal(n)[0]) && DecimalValue(Decimal(n)) == Some(n)
  {
    var digits := Decimal(n);
    if n >= 10 {
      DecimalReadsBack(n / 10);
      assert digits[..|digits| - 1] == Decimal(n / 10);
    } else {
      assert digits[..0] == "";
    }
  }

  /** Reading a position undoes spelling it, for every number that fits a word. */
  lemma PositionReadsBack(n: nat)
    ensures ParsePosition(Decimal(n)) == if n < USIZE_LIMIT then Some(n) else None
  {
    DecimalReadsBack(n);
  }

  function Zeros(z: nat): string {
    seq(z, _ => '0')
  }

  lemma ZerosSnoc(z: nat)
    ensures Zeros(z + 1) == Zeros(z) + "0"
  {
  }

  lemma {:induction false} ZerosAreNothing(z: nat)
    ensures DecimalValue(Zeros(z)) == Some(0)
  {
    if z > 0 {
      ZerosAreNothing(z - 1);
      assert Zeros(z)[..z - 1] == Zeros(z - 1);
    }
  }

  lemma {:induction false} LeadingZerosIgnored(z: nat, n: nat)
    ensures DecimalValue(Zeros(z) + Decimal(n)) == Some(n)
  {
    var digits := Zeros(z) + Decimal(n);
    if n < 10 {
      ZerosAreNothing(z);
      assert digits[..|digits| - 1] == Zeros(z);
    } else {
      LeadingZerosIgnored(z, n / 10);
      assert digits[..|digits| - 1] == Zeros(z) + Decimal(n / 10);
    }
  }

  lemma {:induction false} SpelledWithZeros(digits: string) returns (z: nat)
    requires digits != "" && DecimalValue(digits).Some?
    ensures digits == Zeros(z) + Decimal(DecimalValue(digits).value)
    decreases |digits|
  {
    var n := |digits| - 1;
    var front, last := digits[..n], digits[n];
    assert digits == front + [last];
    if front == "" {
      z := 0;
      assert digits == [last];
    } else {
      z := SpelledWithZeros(front);
      if DecimalValue(front).value == 0 {
        ZerosSnoc(z);
        assert front == Zeros(z + 1);
        z := z + 1;
      } else {
        assert Decimal(DecimalValue(digits).value) == Decimal(DecimalValue(front).value) + [last];
      }
    }
  }

  ghost predicate WrittenPosition(text: string, n: nat, z: nat) {
    text == Zeros(z) + Decimal(n) || text == "+" + (Zeros(z) + Decimal(n))
  }

  /** A text is a position exactly when it spells it in digits, zeros and a plus in front allowed, within 64 bits. */
  lemma PositionExactly(text: string, n: nat)
    ensures ParsePosition(text) == Some(n) <==>
            n < 18_446_744_073_709_551_616 && exists z :: WrittenPosition(text, n, z)
  {
    if ParsePosition(text) == Some(n) {
      var digits := if |text| > 1 && text[0] == '+' then text[1..] else text;
      var z := SpelledWithZeros(digits);
      assert digits != text ==> text == "+" + digits;
      assert WrittenPosition(text, n, z);
    }
    if n < 18_446_744_073_709_551_616 && exists z :: WrittenPosition(text, n, z) {
      var z :| WrittenPosition(text, n, z);
      WrittenIsPosition(text, n, z);
    }
  }

  lemma WrittenIsPosition(text: string, n: nat, z: nat)
    requires WrittenPosition(text, n, z) && n < USIZE_LIMIT
    ensures ParsePosition(text) == Some(n)
  {
    var digits := Zeros(z) + Decimal(n);
    DecimalReadsBack(n);
    LeadingZerosIgnored(z, n);
    assert digits[0] == if z > 0 then '0' else Decimal(n)[0];
    assert text == "+" + digits ==> text[1..] == digits;
  }

  // ---------- tokens ----------

  /** A `${...}` that stands for an argument: its position, its default, and the text it was written as. */
  datatype Slot = Slot(position: nat, default: Option<string>, source: string)

  datatype Token =
    | Literal(c: char)
    | AllArguments
    | Positional(digit: char)
    | Braced(slot: Slot)

  /** The slot opening at the start of `rest`, which begins with `${`; none when it is not a form we replace. */
  function SlotAt(rest: string): (r: Option<Slot>)
    requires |rest| >= 2 && rest[0] == '$' && rest[1] == '{'
    ensures r.Some? ==> r.value.position >= 1 && 3 <= |r.value.source| <= |rest| && r.value.source <= rest
  {
    var inner := rest[2..];
    var close := Find(inner, '}');
    if close == |inner| then None
    else
      var content := inner[..close];
      var split := FindPair(content, ':', '-');
      var (positionText, default) :=
        if split == |content| then (content, None) else (content[..split], Some(content[split + 2..]));
      match ParsePosition(positionText)
      case None => None
      case Some(position) => if position == 0 then None else Some(Slot(position, default, rest[..close + 3]))
  }

  lemma {:induction false} FindAfter(s: string, c: char, rest: string)
    requires c !in s
    ensures Find(s + [c] + rest, c) == |s|
  {
    if s != "" {
      assert (s + [c] + rest)[1..] == s[1..] + [c] + rest;
      FindAfter(s[1..], c, rest);
    }
  }

  /** The text of a braced form: what stands between the braces, and what follows them. */
  lemma BracedText(content: string, rest: string)
    requires '}' !in content
    ensures var text := "${" + content + "}" + rest;
            && text[0] == '$' && text[1] == '{'
            && Find(text[2..], '}') == |content| < |text[2..]|
            && text[2..][..|content|] == content
            && text[..|content| + 3] == "${" + content + "}"
  {
    var text := "${" + content + "}" + rest;
    FindAfter(content, '}', rest);
    assert text[2..] == content + ['}'] + rest;
  }

  /** `${position}` is a slot without a default. */
  lemma SlotWithoutDefault(position: string, rest: string)
    requires '}' !in position && FindPair(position, ':', '-') == |position|
    requires ParsePosition(position).Some? && ParsePosition(position).value >= 1
    ensures SlotAt("${" + position + "}" + rest)
            == Some(Slot(ParsePosition(position).value, None, "${" + position + "}"))
  {
    BracedText(position, rest);
  }

  /** `${position:-default}` is a slot with that default, whatever its text. */
  lemma SlotWithDefault(position: string, default: string, rest: string)
    requires '}' !in position && '}' !in default && ':' !in position
    requires ParsePosition(position).Some? && ParsePosition(position).value >= 1
    ensures var content := position + ":-" + default;
            SlotAt("${" + content + "}" + rest)
            == Some(Slot(ParsePosition(position).value, Some(default), "${" + content + "}"))
  {
    var content := position + ":-" + default;
    BracedText(content, rest);
    FindPairAfter(position, default);
    assert content[..|position|] == position && content[|position| + 2..] == default;
  }

  lemma FindPairAfter(position: string, default: string)
    requires ':' !in position
    ensures FindPair(position + ":-" + default, ':', '-') == |position|
  {
    var content := position + ":-" + default;
    assert PairAt(content, ':', '-', |position|);
    forall i: nat | i < |position| ensures !PairAt(content, ':', '-', i) {
      assert content[i] == position[i] && position[i] in position;
    }
  }

  /** What a template is made of. The arguments play no part in it. */
  function Tokens(body: string): seq<Token>
    decreases |body|
  {
    if body == "" then []
    else if body[0] != '$' || |body| == 1 then [Literal(body[0])] + Tokens(body[1..])
    else if body[1] == '@' then [AllArguments] + Tokens(body[2..])
    else if '1' <= body[1] <= '9' then [Positional(body[1])] + Tokens(body[2..])
    else if body[1] == '{' && SlotAt(body).Some? then
      var slot := SlotAt(body).value;
      [Braced(slot)] + Tokens(body[|slot.source|..])
    else [Literal(body[0])] + Tokens(body[1..])
  }

  function Argument(arguments: seq<string>, position: nat): Option<string> {
    if 1 <= position <= |arguments| then Some(arguments[position - 1]) else None
  }

  function SlotText(slot: Slot, arguments: seq<string>): string {
    match Argument(arguments, slot.position)
    case Some(argument) => argument
    case None => match slot.default case Some(text) => text case None => ""
  }

  /** What one token stands for; an absent positional argument leaves its token visible. */
  function TokenText(token: Token, arguments: seq<string>): string {
    match token
    case Literal(c) => [c]
    case AllArguments => Join(arguments, " ")
    case Positional(digit) =>
      (match Argument(arguments, if IsDigit(digit) then DigitValue(digit) else 0)
       case Some(argument) => argument
       case None => ['$', digit])
    case Braced(slot) => SlotText(slot, arguments)
  }

  function TokenSource(token: Token): string {
    match token
    case Literal(c) => [c]
    case AllArguments => "$@"
    case Positional(digit) => ['$', digit]
    case Braced(slot) => slot.source
  }

  /** The text of each token in turn: what was put in for one is never looked at again. */
  function TextOf(tokens: seq<Token>, arguments: seq<string>): string {
    if tokens == [] then "" else TokenText(tokens[0], arguments) + TextOf(tokens[1..], arguments)
  }

  function SourceOf(tokens: seq<Token>): string {
    if tokens == [] then "" else TokenSource(tokens[0]) + SourceOf(tokens[1..])
  }

  function Meaning(body: string, arguments: seq<string>): string {
    TextOf(Tokens(body), arguments)
  }

  // ---------- the expansion loop ----------

  /** The replacement for a braced form at the start of `rest`, and the length of that form. */
  function ExpandBraced(rest: string, arguments: seq<string>): Option<(string, nat)>
    requires |rest| >= 2 && rest[0] == '$' && rest[1] == '{'
  {
    match SlotAt(rest)
    case Some(slot) => Some((SlotText(slot, arguments), |slot.source|))
    case None => None
  }

  lemma MeaningHead(rest: string, arguments: seq<string>)
    requires rest != ""
    ensures var tokens := Tokens(rest);
            Meaning(rest, arguments) == TokenText(tokens[0], arguments) + TextOf(tokens[1..], arguments)
  {
  }

  lemma TextCons(token: Token, rest: seq<Token>, arguments: seq<string>)
    ensures TextOf([token] + rest, arguments) == TokenText(token, arguments) + TextOf(rest, arguments)
  {
    assert ([token] + rest)[1..] == rest;
  }

  lemma PositionalTokens(rest: string)
    requires |rest| > 1 && rest[0] == '$' && '1' <= rest[1] <= '9'
    ensures Tokens(rest) == [Positional(rest[1])] + Tokens(rest[2..])
    ensures Tokens(rest[1..]) == [Literal(rest[1])] + Tokens(rest[2..])
  {
    assert rest[1..][1..] == rest[2..];
  }

  lemma DollarThen(digit: char, tail: string)
    ensures ['$', digit] + tail == "$" + ([digit] + tail)
  {
  }

  /** An absent positional argument: its dollar sign is put out and its digit is read as text. */
  lemma AbsentPositional(rest: string, arguments: seq<string>)
    requires |rest| > 1 && rest[0] == '$' && '1' <= rest[1] <= '9'
    requires Argument(arguments, DigitValue(rest[1])).None?
    ensures Meaning(rest, arguments) == "$" + Meaning(rest[1..], arguments)
  {
    hide Tokens, TextOf, SlotText;
    var tail := Tokens(rest[2..]);
    PositionalTokens(rest);
    TextCons(Positional(rest[1]), tail, arguments);
    TextCons(Literal(rest[1]), tail, arguments);
    DollarThen(rest[1], TextOf(tail, arguments));
  }

  /** What the loop puts out for the start of `rest`, and how far it goes on: always further. */
  function Piece(rest: string, arguments: seq<string>): (r: (string, nat))
    requires rest != ""
    ensures 1 <= r.1 <= |rest|
    ensures Meaning(rest, arguments) == r.0 + Meaning(rest[r.1..], arguments)
  {
    MeaningHead(rest, arguments);
    if rest[0] != '$' || |rest| == 1 then ([rest[0]], 1)
    else if rest[1] == '@' then (Join(arguments, " "), 2)
    else if '1' <= rest[1] <= '9' then
      match Argument(arguments, DigitValue(rest[1]))
      case Some(argument) => (argument, 2)
      case None => AbsentPositional(rest, arguments); ("$", 1)
    else if rest[1] == '{' then
      match ExpandBraced(rest, arguments)
      case Some(braced) => braced
      case None => ("$", 1)
    else ("$", 1)
  }

  /** The index loop computes the meaning of the template. */
  method Expand(body: string, arguments: seq<string>) returns (out: string)
    ensures out == Meaning(body, arguments)
  {
    out := "";
    var index := 0;
    ghost var pending := Meaning(body, arguments);
    assert body[0..] == body;
    while index < |body|
      invariant index <= |body|
      invariant pending == Meaning(body[index..], arguments)
      invariant out + pending == Meaning(body, arguments)
      decreases |body| - index
    {
      var (text, length) := Piece(body[index..], arguments);
      ghost var before, rest := out, body[index..];
      out := out + text;
      index := index + length;
      assert rest[length..] == body[index..];
      pending := Meaning(body[index..], arguments);
      Regroup(before, text, pending);
    }
    assert body[index..] == "";
  }

  lemma SourceCons(token: Token, rest: seq<Token>)
    ensures SourceOf([token] + rest) == TokenSource(token) + SourceOf(rest)
    ensures SourceOf([]) == ""
  {
    assert ([token] + rest)[1..] == rest;
  }

  /** The tokens are the template: written back, they give it verbatim. */
  lemma {:induction false} TokensLoseNothing(body: string)
    ensures SourceOf(Tokens(body)) == body
    decreases |body|
  {
    hide *;
    if body == "" {
      NothingMeant();
      SourceCons(AllArguments, []);
    } else {
      FirstToken(body);
      var tokens := Tokens(body);
      var n := |TokenSource(tokens[0])|;
      SourceCons(tokens[0], tokens[1..]);
      TokensLoseNothing(body[n..]);
      assert tokens == [tokens[0]] + tokens[1..] && body == body[..n] + body[n..];
    }
  }

  /** The first token is a prefix of the template, and the others are those of what follows it. */
  lemma FirstToken(body: string)
    requires body != ""
    ensures Tokens(body) != []
    ensures var source := TokenSource(Tokens(body)[0]);
            && 1 <= |source| <= |body| && source == body[..|source|]
            && Tokens(body)[1..] == Tokens(body[|source|..])
  {
    if body[0] == '$' && |body| > 1 && (body[1] == '@' || '1' <= body[1] <= '9') {
      assert body[..2] == ['$', body[1]];
    }
  }

  /** A template without a dollar sign is returned unchanged. */
  lemma {:induction false} NoDollarUnchanged(body: string, arguments: seq<string>)
    requires '$' !in body
    ensures Meaning(body, arguments) == body
  {
    if body != "" {
      MeaningHead(body, arguments);
      NoDollarUnchanged(body[1..], arguments);
    }
  }

  /** No token stands for all arguments or for a braced one. */
  ghost predicate Inert(tokens: seq<Token>) {
    forall i :: 0 <= i < |tokens| ==> !tokens[i].AllArguments? && !tokens[i].Braced?
  }

  /** A default stands inside its braces, so it is shorter than the form it is the default of. */
  lemma DefaultIsShorter(rest: string)
    requires |rest| >= 2 && rest[0] == '$' && rest[1] == '{' && SlotAt(rest).Some?
    ensures |SlotText(SlotAt(rest).value, [])| < |SlotAt(rest).value.source|
  {
    hide ParsePosition;
    var inner := rest[2..];
    var content := inner[..Find(inner, '}')];
    var split := FindPair(content, ':', '-');
    assert split < |content| ==> |content[split + 2..]| <= |content|;
  }

  /** Without arguments a token is what was written, but for the two forms that become shorter. */
  lemma FirstTokenText(body: string)
    requires body != ""
    ensures var token := Tokens(body)[0];
            if token.AllArguments? || token.Braced? then |TokenText(token, [])| < |TokenSource(token)|
            else TokenText(token, []) == TokenSource(token)
  {
    if body[0] == '$' && |body| > 1 && body[1] == '{' && SlotAt(body).Some? {
      hide SlotAt, SlotText;
      DefaultIsShorter(body);
    }
  }

  /** Without arguments the text never grows, and shrinks exactly by those forms. */
  lemma {:induction false} NoArgumentsShrinks(body: string)
    ensures if Inert(Tokens(body)) then Meaning(body, []) == body else |Meaning(body, [])| < |body|
    decreases |body|
  {
    hide Tokens, TextOf;
    if body == "" {
      NothingMeant();
    } else {
      FirstToken(body);
      var tokens := Tokens(body);
      var n := |TokenSource(tokens[0])|;
      FirstTokenText(body);
      MeaningHead(body, []);
      NoArgumentsShrinks(body[n..]);
      assert tokens == [tokens[0]] + tokens[1..] && body == body[..n] + body[n..];
    }
  }

  lemma NothingMeant()
    ensures Tokens("") == [] && Meaning("", []) == ""
  {
  }

  /** So without arguments a template is returned unchanged exactly when it holds neither form. */
  lemma NoArgumentsUnchanged(body: string)
    ensures Meaning(body, []) == body <==> Inert(Tokens(body))
  {
    NoArgumentsShrinks(body);
  }

  // ---------- which argument a position takes ----------

  lemma DigitSpelled(k: nat)
    requires 1 <= k <= 9
    ensures Decimal(k) == [('0' as int + k) as char] && '1' <= Decimal(k)[0] <= '9' && DigitValue(Decimal(k)[0]) == k
  {
  }

  /** `$k`, for a k from 1 to 9 that is supplied, is the k-th argument, whatever follows. */
  lemma PositionalTakesItsArgument(k: nat, rest: string, arguments: seq<string>)
    requires 1 <= k <= 9 && k <= |arguments|
    ensures Meaning("$" + Decimal(k) + rest, arguments) == arguments[k - 1] + Meaning(rest, arguments)
  {
    hide Tokens, TextOf, Decimal;
    DigitSpelled(k);
    var body := "$" + Decimal(k) + rest;
    assert body[2..] == rest && body[0] == '$' && body[1] == Decimal(k)[0];
    PositionalTokens(body);
    TextCons(Positional(body[1]), Tokens(rest), arguments);
  }

  /** `$k` that is not supplied stays as it is written. */
  lemma PositionalStays(k: nat, rest: string, arguments: seq<string>)
    requires 1 <= k <= 9 && k > |arguments|
    ensures Meaning("$" + Decimal(k) + rest, arguments) == "$" + Decimal(k) + Meaning(rest, arguments)
  {
    hide Tokens, TextOf, Decimal;
    DigitSpelled(k);
    var body := "$" + Decimal(k) + rest;
    assert body[2..] == rest && body[0] == '$' && body[1] == Decimal(k)[0];
    PositionalTokens(body);
    TextCons(Positional(body[1]), Tokens(rest), arguments);
    assert ['$', body[1]] == "$" + Decimal(k);
  }

  lemma {:induction false} DecimalHasNo(n: nat, c: char)
    requires !IsDigit(c)
    ensures c !in Decimal(n)
  {
    if n >= 10 {
      DecimalHasNo(n / 10, c);
    }
  }

  lemma NoPairWithout(s: string, a: char, b: char)
    requires a !in s
    ensures FindPair(s, a, b) == |s|
  {
  }

  /** `${k}` is the k-th argument when it is supplied. */
  lemma BracedTakesItsArgument(k: nat, rest: string, arguments: seq<string>)
    requires 1 <= k <= |arguments| && k < USIZE_LIMIT
    ensures Meaning("${" + Decimal(k) + "}" + rest, arguments) == arguments[k - 1] + Meaning(rest, arguments)
  {
    hide Decimal, Tokens, TextOf, SlotAt, ParsePosition, FindPair, Meaning;
    DecimalHasNo(k, '}');
    DecimalHasNo(k, ':');
    NoPairWithout(Decimal(k), ':', '-');
    PositionReadsBack(k);
    SlotWithoutDefault(Decimal(k), rest);
    var source := "${" + Decimal(k) + "}";
    SlotThen(source, rest, Slot(k, None, source), arguments);
  }

  /** `${k:-d}` is the k-th argument when it is supplied and d when it is not. */
  lemma DefaultTakesItsArgument(k: nat, default: string, rest: string, arguments: seq<string>)
    requires 1 <= k < USIZE_LIMIT && '}' !in default
    ensures Meaning("${" + (Decimal(k) + ":-" + default) + "}" + rest, arguments) ==
            (if k <= |arguments| then arguments[k - 1] else default) + Meaning(rest, arguments)
  {
    hide Decimal, Tokens, TextOf, SlotAt, ParsePosition, FindPair, Meaning;
    DecimalHasNo(k, '}');
    DecimalHasNo(k, ':');
    PositionReadsBack(k);
    SlotWithDefault(Decimal(k), default, rest);
    var source := "${" + (Decimal(k) + ":-" + default) + "}";
    SlotThen(source, rest, Slot(k, Some(default), source), arguments);
  }

  lemma AllFirst(rest: string, arguments: seq<string>)
    ensures Meaning("$@" + rest, arguments) == Join(arguments, " ") + Meaning(rest, arguments)
  {
    var body := "$@" + rest;
    assert body[2..] == rest;
    TextCons(AllArguments, Tokens(rest), arguments);
  }

  /** `parts` with a space before each but the first. */
  function Spaced(parts: seq<string>): seq<string> {
    seq(|parts|, i requires 0 <= i < |parts| => if i == 0 then parts[0] else " " + parts[i])
  }

  lemma {:induction false} JoinIsSpaced(parts: seq<string>)
    ensures Join(parts, " ") == Concat(Spaced(parts))
  {
    if |parts| > 1 {
      var rest := parts[1..];
      JoinIsSpaced(rest);
      assert Spaced(parts)[1..] == [" " + rest[0]] + Spaced(rest)[1..];
      assert Spaced(rest) == [rest[0]] + Spaced(rest)[1..];
      ConcatFirst(rest[0], Spaced(rest)[1..]);
      ConcatFirst(" " + rest[0], Spaced(rest)[1..]);
      Regroup(" ", rest[0], Concat(Spaced(rest)[1..]));
      Regroup(parts[0], " ", Concat(Spaced(rest)));
    } else if |parts| == 1 {
      assert Spaced(parts)[1..] == [] && parts[0] + "" == parts[0];
    }
  }

  lemma ConcatFirst(first: string, rest: seq<string>)
    ensures Concat([first] + rest) == first + Concat(rest)
  {
    assert ([first] + rest)[1..] == rest;
  }

  /** `$@` is every argument in order, with one space between neighbours. */
  lemma AllTakesEveryArgument(rest: string, arguments: seq<string>)
    ensures Meaning("$@" + rest, arguments) == Concat(Spaced(arguments)) + Meaning(rest, arguments)
  {
    hide Join, Concat, Meaning;
    AllFirst(rest, arguments);
    JoinIsSpaced(arguments);
  }

  /** Any other character stays as it is. */
  lemma OtherStays(c: char, rest: string, arguments: seq<string>)
    requires c != '$' || rest == "" || (rest[0] !in {'@', '{'} && !('1' <= rest[0] <= '9'))
    ensures Meaning([c] + rest, arguments) == [c] + Meaning(rest, arguments)
  {
    assert ([c] + rest)[1..] == rest;
    TextCons(Literal(c), Tokens(rest), arguments);
  }

  // ---------- what is promised of a template ----------

  /** A braced position without a default, which the list of supported forms does not name. */
  predicate IsBare(token: Token) {
    token.Braced? && token.slot.default.None?
  }

  /** Such a token whose argument was not supplied. */
  predicate IsDropped(token: Token, arguments: seq<string>) {
    IsBare(token) && Argument(arguments, token.slot.position).None?
  }

  /** The promise that no absent argument is replaced with nothing: such a token stays as written. */
  function Promised(tokens: seq<Token>, arguments: seq<string>): string {
    if tokens == [] then ""
    else (if IsDropped(tokens[0], arguments) then TokenSource(tokens[0]) else TokenText(tokens[0], arguments))
         + Promised(tokens[1..], arguments)
  }

  /** The promise that only the listed forms are replaced: every bare token stays as written. */
  function OnlyListed(tokens: seq<Token>, arguments: seq<string>): string {
    if tokens == [] then ""
    else (if IsBare(tokens[0]) then TokenSource(tokens[0]) else TokenText(tokens[0], arguments))
         + OnlyListed(tokens[1..], arguments)
  }

  ghost predicate SomeDropped(tokens: seq<Token>, arguments: seq<string>) {
    exists i :: 0 <= i < |tokens| && IsDropped(tokens[i], arguments)
  }

  ghost predicate SomeBare(tokens: seq<Token>) {
    exists i :: 0 <= i < |tokens| && IsBare(tokens[i])
  }

  lemma SomeDroppedHead(tokens: seq<Token>, arguments: seq<string>)
    requires tokens != []
    ensures SomeDropped(tokens, arguments) <==> IsDropped(tokens[0], arguments) || SomeDropped(tokens[1..], arguments)
  {
    hide IsDropped;
    if i :| 0 <= i < |tokens[1..]| && IsDropped(tokens[1..][i], arguments) {
      assert IsDropped(tokens[i + 1], arguments);
    }
    if i :| 0 <= i < |tokens| && IsDropped(tokens[i], arguments) {
      assert i > 0 ==> IsDropped(tokens[1..][i - 1], arguments);
    }
  }

  lemma DroppedText(token: Token, arguments: seq<string>)
    requires IsDropped(token, arguments)
    ensures TokenText(token, arguments) == ""
  {
  }

  /** Every dropped token makes the text shorter than promised, and nothing else makes a difference. */
  lemma {:induction false} DroppedShortens(tokens: seq<Token>, arguments: seq<string>)
    requires forall i :: 0 <= i < |tokens| ==> TokenSource(tokens[i]) != ""
    ensures if SomeDropped(tokens, arguments) then |TextOf(tokens, arguments)| < |Promised(tokens, arguments)|
            else TextOf(tokens, arguments) == Promised(tokens, arguments)
  {
    if tokens == [] {
    } else {
      hide SomeDropped, IsDropped, TokenText, TokenSource;
      SomeDroppedHead(tokens, arguments);
      DroppedShortens(tokens[1..], arguments);
      if IsDropped(tokens[0], arguments) {
        DroppedText(tokens[0], arguments);
        assert |TokenSource(tokens[0])| > 0;
      }
    }
  }

  lemma {:induction false} TokensAreWritten(body: string, i: nat)
    requires i < |Tokens(body)|
    ensures TokenSource(Tokens(body)[i]) != ""
    decreases i
  {
    hide Tokens;
    if body == "" {
      NothingMeant();
    } else {
      FirstToken(body);
      var rest := body[|TokenSource(Tokens(body)[0])|..];
      if i > 0 {
        assert Tokens(body)[i] == Tokens(body)[1..][i - 1];
        TokensAreWritten(rest, i - 1);
      }
    }
  }

  /**
   * For every template and arguments: what comes out is what is promised exactly when no braced position
   * without a default lacks its argument.
   */
  lemma PromiseKeptExactly(body: string, arguments: seq<string>)
    ensures Meaning(body, arguments) == Promised(Tokens(body), arguments) <==> !SomeDropped(Tokens(body), arguments)
  {
    hide Tokens, TokenSource, SomeDropped;
    forall i | 0 <= i < |Tokens(body)| ensures TokenSource(Tokens(body)[i]) != "" {
      TokensAreWritten(body, i);
    }
    DroppedShortens(Tokens(body), arguments);
  }

  lemma {:induction false} WithoutBareListed(tokens: seq<Token>, arguments: seq<string>)
    requires !SomeBare(tokens)
    ensures TextOf(tokens, arguments) == OnlyListed(tokens, arguments)
  {
    if tokens != [] {
      hide TokenText, TokenSource;
      assert forall i :: 0 <= i < |tokens[1..]| ==> tokens[1..][i] == tokens[i + 1];
      WithoutBareListed(tokens[1..], arguments);
    }
  }

  lemma {:induction false} ListedWithoutArguments(tokens: seq<Token>)
    ensures OnlyListed(tokens, []) == Promised(tokens, [])
  {
    if tokens != [] {
      hide TokenText, TokenSource;
      ListedWithoutArguments(tokens[1..]);
    }
  }

  /** A template keeps its unlisted forms as written, whatever the arguments, exactly when it has none. */
  lemma OnlyListedExactly(body: string)
    ensures (forall arguments :: Meaning(body, arguments) == OnlyListed(Tokens(body), arguments))
            <==> !SomeBare(Tokens(body))
  {
    var tokens := Tokens(body);
    hide Tokens, TextOf, OnlyListed, Promised;
    if !SomeBare(tokens) {
      forall arguments ensures Meaning(body, arguments) == OnlyListed(tokens, arguments) {
        WithoutBareListed(tokens, arguments);
      }
    } else {
      var i :| 0 <= i < |tokens| && IsBare(tokens[i]);
      assert IsDropped(tokens[i], []);
      PromiseKeptExactly(body, []);
      ListedWithoutArguments(tokens);
    }
  }

  /** A bare position is its argument, and nothing when that is absent, whatever follows. */
  lemma BareSlotIsDeleted(position: string, rest: string, arguments: seq<string>)
    requires '}' !in position && FindPair(position, ':', '-') == |position|
    requires ParsePosition(position).Some? && ParsePosition(position).value >= 1
    ensures var body := "${" + position + "}" + rest;
            Meaning(body, arguments) ==
            match Argument(arguments, ParsePosition(position).value)
            case Some(argument) => argument + Meaning(rest, arguments)
            case None => Meaning(rest, arguments)
  {
    hide *;
    SlotWithoutDefault(position, rest);
    SlotThen("${" + position + "}", rest, Slot(ParsePosition(position).value, None, "${" + position + "}"), arguments);
    BareText(Slot(ParsePosition(position).value, None, "${" + position + "}"), arguments, Meaning(rest, arguments));
  }

  lemma BareText(slot: Slot, arguments: seq<string>, rest: string)
    requires slot.default.None?
    ensures SlotText(slot, arguments) + rest ==
            match Argument(arguments, slot.position)
            case Some(argument) => argument + rest
            case None => rest
  {
    assert "" + rest == rest;
  }

  lemma SlotThen(source: string, rest: string, slot: Slot, arguments: seq<string>)
    requires |source| >= 2 && source[0] == '$' && source[1] == '{'
    requires SlotAt(source + rest) == Some(slot) && slot.source == source
    ensures Meaning(source + rest, arguments) == SlotText(slot, arguments) + Meaning(rest, arguments)
  {
    hide SlotAt, SlotText;
    assert (source + rest)[|source|..] == rest;
    TextCons(Braced(slot), Tokens(rest), arguments);
  }

  // ---------- argument splitting ----------

  /** The loop's variables. */
  datatype Splitter = Splitter(arguments: seq<string>, current: string, quoted: bool, any: bool)

  const START: Splitter := Splitter([], "", false, false)

  function Feed(s: Splitter, c: char): Splitter {
    if c == '"' then s.(quoted := !s.quoted, any := true)
    else if IsWhitespace(c) && !s.quoted then
      if s.any then Splitter(s.arguments + [s.current], "", s.quoted, false) else s
    else s.(current := s.current + [c], any := true)
  }

  function FeedAll(s: Splitter, text: string): Splitter {
    if text == "" then s else Feed(FeedAll(s, text[..|text| - 1]), text[|text| - 1])
  }

  function Finished(s: Splitter): seq<string> {
    if s.any then s.arguments + [s.current] else s.arguments
  }

  function Split(text: string): seq<string> {
    Finished(FeedAll(START, text))
  }

  method SplitArguments(text: string) returns (arguments: seq<string>)
    ensures arguments == Split(text)
  {
    arguments := [];
    var current := "";
    var quoted := false;
    var any := false;
    for i := 0 to |text|
      invariant Splitter(arguments, current, quoted, any) == FeedAll(START, text[..i])
    {
      var character := text[i];
      assert text[..i + 1][..i] == text[..i];
      if character == '"' {
        quoted := !quoted;
        any := true;
      } else if IsWhitespace(character) && !quoted {
        if any {
          arguments := arguments + [current];
          current := "";
          any := false;
        }
      } else {
        current := current + [character];
        any := true;
      }
    }
    assert text[..|text|] == text;
    if any {
      arguments := arguments + [current];
    }
  }

  lemma {:induction false} FeedAllConcat(s: Splitter, a: string, b: string)
    ensures FeedAll(s, a + b) == FeedAll(FeedAll(s, a), b)
    decreases |b|
  {
    hide Feed;
    if b == "" {
      assert a + b == a;
    } else {
      var n := |b| - 1;
      FeedAllConcat(s, a, b[..n]);
      assert (a + b)[..|a + b| - 1] == a + b[..n];
    }
  }

  /** Inside quotes everything but a quote is kept as it is. */
  lemma {:induction false} FeedQuoted(s: Splitter, text: string)
    requires s.quoted && s.any && '"' !in text
    ensures FeedAll(s, text) == s.(current := s.current + text)
  {
    if text != "" {
      var n := |text| - 1;
      FeedQuoted(s, text[..n]);
      assert text == text[..n] + [text[n]];
    }
  }

  function Quoted(argument: string): string {
    "\"" + argument + "\""
  }

  function QuoteAll(arguments: seq<string>): seq<string> {
    seq(|arguments|, i requires 0 <= i < |arguments| => Quoted(arguments[i]))
  }

  lemma FeedOne(s: Splitter, c: char)
    ensures FeedAll(s, [c]) == Feed(s, c)
  {
    assert [c][..0] == "";
  }

  lemma FeedArgument(arguments: seq<string>, argument: string)
    requires '"' !in argument
    ensures FeedAll(Splitter(arguments, "", false, false), Quoted(argument))
            == Splitter(arguments, argument, false, true)
  {
    var s := Splitter(arguments, "", false, false);
    FeedOne(s, '"');
    FeedAllConcat(s, "\"", argument);
    FeedQuoted(s.(quoted := true, any := true), argument);
    FeedAllConcat(s, "\"" + argument, "\"");
    FeedOne(FeedAll(s, "\"" + argument), '"');
  }

  lemma {:induction false} FeedQuotedList(before: seq<string>, arguments: seq<string>)
    requires forall i :: 0 <= i < |arguments| ==> '"' !in arguments[i]
    ensures Finished(FeedAll(Splitter(before, "", false, false), Join(QuoteAll(arguments), " "))) == before + arguments
    decreases |arguments|
  {
    var s := Splitter(before, "", false, false);
    if arguments == [] {
      assert QuoteAll(arguments) == [];
    } else {
      var first, rest := arguments[0], arguments[1..];
      FeedArgument(before, first);
      assert QuoteAll(arguments)[0] == Quoted(first);
      if rest == [] {
        assert arguments == [first];
      } else {
        assert QuoteAll(arguments)[1..] == QuoteAll(rest);
        var tail := Join(QuoteAll(rest), " ");
        var open := Splitter(before, first, false, true);
        FeedAllConcat(s, Quoted(first) + " ", tail);
        FeedAllConcat(s, Quoted(first), " ");
        FeedOne(open, ' ');
        FeedQuotedList(before + [first], rest);
        assert before + [first] + rest == before + arguments;
      }
    }
  }

  /** Splitting undoes quoting, empty arguments included. */
  lemma SplitUndoesQuoting(arguments: seq<string>)
    requires forall i :: 0 <= i < |arguments| ==> '"' !in arguments[i]
    ensures Split(Join(QuoteAll(arguments), " ")) == arguments
  {
    FeedQuotedList([], arguments);
  }

  /** The text minus quotes and minus whitespace outside them. */
  function Kept(text: string, quoted: bool): string {
    if text == "" then ""
    else if text[0] == '"' then Kept(text[1..], !quoted)
    else if IsWhitespace(text[0]) && !quoted then Kept(text[1..], quoted)
    else [text[0]] + Kept(text[1..], quoted)
  }

  lemma {:induction false} FeedKeeps(s: Splitter, text: string)
    requires s.any || s.current == ""
    ensures var r := FeedAll(s, text);
            && (r.any || r.current == "")
            && Concat(r.arguments) + r.current == Concat(s.arguments) + s.current + Kept(text, s.quoted)
    decreases |text|
  {
    hide Feed, Kept, Concat;
    if text == "" {
      NothingKept(s.quoted);
    } else {
      var c := text[0];
      FeedAllConcat(s, [c], text[1..]);
      FeedOne(s, c);
      assert text == [c] + text[1..];
      FeedKeepsOne(s, c, text[1..]);
      FeedKeeps(Feed(s, c), text[1..]);
    }
  }

  lemma NothingKept(quoted: bool)
    ensures Kept("", quoted) == ""
  {
  }

  lemma FeedKeepsOne(s: Splitter, c: char, rest: string)
    requires s.any || s.current == ""
    ensures var next := Feed(s, c);
            && (next.any || next.current == "")
            && Concat(next.arguments) + next.current + Kept(rest, next.quoted)
               == Concat(s.arguments) + s.current + Kept([c] + rest, s.quoted)
  {
    hide Concat, Kept;
    KeptCons(c, rest, s.quoted);
    ConcatSnoc(s.arguments, s.current);
    Shift(Concat(s.arguments), s.current, c, Kept(rest, s.quoted));
  }

  lemma KeptCons(c: char, rest: string, quoted: bool)
    ensures Kept([c] + rest, quoted) ==
            if c == '"' then Kept(rest, !quoted)
            else if IsWhitespace(c) && !quoted then Kept(rest, quoted)
            else [c] + Kept(rest, quoted)
  {
    assert ([c] + rest)[1..] == rest;
  }

  lemma Shift(a: string, b: string, c: char, d: string)
    ensures a + (b + [c]) + d == a + b + ([c] + d)
    ensures a + b + "" + d == a + b + d
  {
  }

  /** Nothing is lost or invented: the arguments together are the text minus quotes and unquoted whitespace. */
  lemma SplitKeepsText(text: string)
    ensures Concat(Split(text)) == Kept(text, false)
  {
    FeedKeeps(START, text);
    var r := FeedAll(START, text);
    assert Concat(r.arguments) + r.current == Kept(text, false);
    ConcatSnoc(r.arguments, r.current);
  }

  // ---------- where arguments begin and end ----------

  function Quotes(text: string): nat {
    if text == "" then 0 else Quotes(text[..|text| - 1]) + if text[|text| - 1] == '"' then 1 else 0
  }

  function Unquoted(text: string): string {
    if text == "" then ""
    else Unquoted(text[..|text| - 1]) + if text[|text| - 1] == '"' then "" else [text[|text| - 1]]
  }

  /** Every whitespace character of the text stands inside quotes. */
  ghost predicate WhitespaceQuoted(text: string) {
    forall i :: 0 <= i < |text| && IsWhitespace(text[i]) && text[i] != '"' ==> Quotes(text[..i]) % 2 == 1
  }

  lemma FeedSnoc(s: Splitter, text: string, c: char)
    ensures FeedAll(s, text + [c]) == Feed(FeedAll(s, text), c)
  {
    assert (text + [c])[..|text|] == text;
  }

  lemma QuotesSnoc(text: string, c: char)
    ensures Quotes(text + [c]) == Quotes(text) + if c == '"' then 1 else 0
    ensures Unquoted(text + [c]) == Unquoted(text) + if c == '"' then "" else [c]
  {
    assert (text + [c])[..|text|] == text;
  }

  lemma WhitespaceQuotedSnoc(text: string, c: char)
    requires WhitespaceQuoted(text + [c])
    ensures WhitespaceQuoted(text) && (IsWhitespace(c) && c != '"' ==> Quotes(text) % 2 == 1)
  {
    hide Quotes, IsWhitespace;
    var longer := text + [c];
    assert longer[|text|] == c && longer[..|text|] == text;
    assert forall i :: 0 <= i < |text| ==> text[i] == longer[i] && text[..i] == longer[..i];
  }

  /** Started on s, the text has extended the argument being read and done nothing else. */
  ghost predicate OnlyExtends(s: Splitter, text: string, r: Splitter) {
    && r.arguments == s.arguments && r.current == s.current + Unquoted(text)
    && (r.quoted <==> Quotes(text) % 2 == 1) && (r.any <==> s.any || text != "")
  }

  lemma ExtendsSnoc(s: Splitter, text: string, r: Splitter, c: char)
    requires OnlyExtends(s, text, r) && (IsWhitespace(c) && c != '"' ==> Quotes(text) % 2 == 1)
    ensures OnlyExtends(s, text + [c], Feed(r, c))
  {
    hide Quotes, Unquoted, IsWhitespace;
    QuotesSnoc(text, c);
    Regroup(s.current, Unquoted(text), if c == '"' then "" else [c]);
    assert r.current + "" == r.current;
  }

  lemma ExtendsNothing(s: Splitter)
    requires !s.quoted
    ensures OnlyExtends(s, "", FeedAll(s, ""))
  {
  }

  /** A text without open whitespace extends the argument being read, and nothing else. */
  lemma {:induction false} OneArgumentFed(s: Splitter, text: string)
    requires !s.quoted && WhitespaceQuoted(text)
    ensures OnlyExtends(s, text, FeedAll(s, text))
    decreases |text|
  {
    hide *;
    if text == "" {
      ExtendsNothing(s);
    } else {
      var before, c := text[..|text| - 1], text[|text| - 1];
      assert text == before + [c];
      WhitespaceQuotedSnoc(before, c);
      OneArgumentFed(s, before);
      FeedSnoc(s, before, c);
      ExtendsSnoc(s, before, FeedAll(s, before), c);
    }
  }

  /** A text that is not empty and has no whitespace outside quotes is one argument: itself without the quotes. */
  lemma OneArgument(text: string)
    requires text != "" && WhitespaceQuoted(text)
    ensures Split(text) == [Unquoted(text)]
  {
    OneArgumentFed(START, text);
    assert "" + Unquoted(text) == Unquoted(text);
  }

  /** Quotes open and close in turn. */
  lemma {:induction false} QuotedByCount(s: Splitter, text: string)
    ensures FeedAll(s, text).quoted == (if Quotes(text) % 2 == 1 then !s.quoted else s.quoted)
    decreases |text|
  {
    if text != "" {
      QuotedByCount(s, text[..|text| - 1]);
    }
  }

  lemma {:induction false} EarlierStay(s: Splitter, earlier: seq<string>, text: string)
    ensures FeedAll(s.(arguments := earlier + s.arguments), text)
            == FeedAll(s, text).(arguments := earlier + FeedAll(s, text).arguments)
    decreases |text|
  {
    if text != "" {
      var before, c := text[..|text| - 1], text[|text| - 1];
      EarlierStay(s, earlier, before);
      var r := FeedAll(s, before);
      assert earlier + (r.arguments + [r.current]) == earlier + r.arguments + [r.current];
    }
  }

  /** Whitespace outside quotes separates: what is before it and what is after it are split on their own. */
  lemma SplitAtWhitespace(before: string, c: char, after: string)
    requires IsWhitespace(c) && Quotes(before) % 2 == 0
    ensures Split(before + [c] + after) == Split(before) + Split(after)
  {
    var s := FeedAll(START, before);
    QuotedByCount(START, before);
    FeedAllConcat(START, before + [c], after);
    FeedSnoc(START, before, c);
    FeedIdle(START, before);
    var next := Feed(s, c);
    assert next == START.(arguments := Finished(s) + START.arguments) by {
      assert Finished(s) + [] == Finished(s);
    }
    EarlierStay(START, Finished(s), after);
    var r := FeedAll(START, after);
    assert Finished(s) + (r.arguments + [r.current]) == Finished(s) + r.arguments + [r.current];
  }

  lemma {:induction false} FeedIdle(s: Splitter, text: string)
    requires s.any || s.current == ""
    ensures FeedAll(s, text).any || FeedAll(s, text).current == ""
    decreases |text|
  {
    if text != "" {
      FeedIdle(s, text[..|text| - 1]);
    }
  }

  /** Nothing is no argument. */
  lemma NothingSplits()
    ensures Split("") == []
  {
  }
}
