/** The text operations the source takes from its standard library, on sequences of characters. */
module Text {
  import opened Wrappers

  /** The characters with the Unicode property White_Space. */
  predicate IsWhitespace(c: char) {
    || '\U{0009}' <= c <= '\U{000D}'
    || c == ' ' || c == '\U{0085}' || c == '\U{00A0}' || c == '\U{1680}'
    || '\U{2000}' <= c <= '\U{200A}'
    || c == '\U{2028}' || c == '\U{2029}' || c == '\U{202F}' || c == '\U{205F}' || c == '\U{3000}'
  }

  /** Their code points: 25 of them. */
  lemma WhitespaceExactly(c: char)
    ensures IsWhitespace(c) <==>
            c as int in {9, 10, 11, 12, 13, 32, 133, 160, 5760, 8192, 8193, 8194, 8195, 8196, 8197, 8198, 8199, 8200,
                         8201, 8202, 8232, 8233, 8239, 8287, 12288}
  {
  }

  /** Trimming leaves nothing. */
  predicate IsBlank(s: string) {
    forall i :: 0 <= i < |s| ==> IsWhitespace(s[i])
  }

  function TrimStart(s: string): string {
    if s != "" && IsWhitespace(s[0]) then TrimStart(s[1..]) else s
  }

  function TrimEnd(s: string): string {
    if s != "" && IsWhitespace(s[|s| - 1]) then TrimEnd(s[..|s| - 1]) else s
  }

  function Trim(s: string): string {
    TrimEnd(TrimStart(s))
  }

  lemma {:induction false} BlankTrims(s: string)
    ensures IsBlank(s) <==> Trim(s) == ""
  {
    TrimStartBlank(s);
    TrimEndBlank(TrimStart(s));
  }

  lemma {:induction false} TrimStartBlank(s: string)
    ensures IsBlank(TrimStart(s)) <==> IsBlank(s)
  {
    if s != "" && IsWhitespace(s[0]) {
      TrimStartBlank(s[1..]);
      assert s == [s[0]] + s[1..];
    }
  }

  lemma {:induction false} TrimEndBlank(s: string)
    ensures TrimEnd(s) == "" <==> IsBlank(s)
  {
    if s != "" && IsWhitespace(s[|s| - 1]) {
      TrimEndBlank(s[..|s| - 1]);
      assert s == s[..|s| - 1] + [s[|s| - 1]];
    }
  }

  /** Starts and ends, if at all, with something other than whitespace. */
  ghost predicate Tight(s: string) {
    s != "" ==> !IsWhitespace(s[0]) && !IsWhitespace(s[|s| - 1])
  }

  /** `t` is `s` but for blank space before and after it. */
  ghost predicate Surrounds(s: string, before: string, t: string, after: string) {
    s == before + t + after && IsBlank(before) && IsBlank(after)
  }

  lemma {:induction false} StartDropped(before: string, rest: string)
    requires IsBlank(before)
    ensures TrimStart(before + rest) == TrimStart(rest)
  {
    if before == "" {
      assert before + rest == rest;
    } else {
      assert (before + rest)[1..] == before[1..] + rest;
      StartDropped(before[1..], rest);
    }
  }

  lemma {:induction false} EndDropped(rest: string, after: string)
    requires IsBlank(after)
    ensures TrimEnd(rest + after) == TrimEnd(rest)
  {
    if after == "" {
      assert rest + after == rest;
    } else {
      assert (rest + after)[..|rest + after| - 1] == rest + after[..|after| - 1];
      EndDropped(rest, after[..|after| - 1]);
    }
  }

  lemma {:induction false} StartCut(s: string)
    ensures exists before :: IsBlank(before) && s == before + TrimStart(s)
    ensures TrimStart(s) != "" ==> !IsWhitespace(TrimStart(s)[0])
  {
    if s != "" && IsWhitespace(s[0]) {
      StartCut(s[1..]);
      var before :| IsBlank(before) && s[1..] == before + TrimStart(s[1..]);
      assert IsBlank([s[0]] + before) && s == [s[0]] + before + TrimStart(s);
    } else {
      assert IsBlank("") && s == "" + TrimStart(s);
    }
  }

  lemma {:induction false} EndCut(s: string)
    ensures exists after :: IsBlank(after) && s == TrimEnd(s) + after
    ensures TrimEnd(s) != "" ==> !IsWhitespace(TrimEnd(s)[|TrimEnd(s)| - 1])
  {
    if s != "" && IsWhitespace(s[|s| - 1]) {
      EndCut(s[..|s| - 1]);
      var after :| IsBlank(after) && s[..|s| - 1] == TrimEnd(s[..|s| - 1]) + after;
      assert IsBlank(after + [s[|s| - 1]]) && s == TrimEnd(s) + (after + [s[|s| - 1]]);
    } else {
      assert IsBlank("") && s == TrimEnd(s) + "";
    }
  }

  /** What is surrounded by blank space and itself tight is what trimming leaves. */
  lemma SurroundedIsTrimmed(s: string, before: string, t: string, after: string)
    requires Surrounds(s, before, t, after) && Tight(t)
    ensures Trim(s) == t
  {
    assert s == before + (t + after);
    StartDropped(before, t + after);
    if t == "" {
      assert t + after == after;
      BlankTrims(s);
    } else {
      assert (t + after)[0] == t[0];
      EndDropped(t, after);
    }
  }

  /** For every text: trimming leaves the one tight text that blank space surrounds in it. */
  lemma TrimExactly(s: string, t: string)
    ensures Trim(s) == t <==> Tight(t) && exists before, after :: Surrounds(s, before, t, after)
  {
    StartCut(s);
    var inner := TrimStart(s);
    EndCut(inner);
    var trimmed := TrimEnd(inner);
    var before :| IsBlank(before) && s == before + inner;
    var after :| IsBlank(after) && inner == trimmed + after;
    assert trimmed != "" ==> trimmed[0] == inner[0];
    assert s == before + trimmed + after;
    assert Surrounds(s, before, trimmed, after) && Tight(trimmed);
    if Tight(t) && exists b, a :: Surrounds(s, b, t, a) {
      var b, a :| Surrounds(s, b, t, a);
      SurroundedIsTrimmed(s, b, t, a);
    }
  }

  /** The position of the first `c`, or the length when there is none. */
  function Find(s: string, c: char): (n: nat)
    ensures n <= |s|
    ensures forall i :: 0 <= i < n ==> s[i] != c
    ensures n < |s| ==> s[n] == c
  {
    if s == "" || s[0] == c then 0 else 1 + Find(s[1..], c)
  }

  predicate PairAt(s: string, a: char, b: char, n: nat) {
    n + 1 < |s| && s[n] == a && s[n + 1] == b
  }

  /** The position of the first `a` directly followed by `b`, or the length when there is none. */
  function FindPair(s: string, a: char, b: char): (n: nat)
    ensures n <= |s|
    ensures forall i: nat :: i < n ==> !PairAt(s, a, b, i)
    ensures n < |s| ==> PairAt(s, a, b, n)
  {
    if s == "" || PairAt(s, a, b, 0) then 0 else
      var n := FindPair(s[1..], a, b);
      assert forall i: nat :: 0 < i < 1 + n ==> (PairAt(s, a, b, i) <==> PairAt(s[1..], a, b, i - 1));
      1 + n
  }

  function StripCarriageReturn(line: string): string {
    if line != "" && line[|line| - 1] == '\r' then line[..|line| - 1] else line
  }

  /** The lines of a text: each ends at a line feed, with one carriage return before it dropped. */
  function Lines(text: string): seq<string>
    decreases |text|
  {
    if text == "" then [] else
      var n := Find(text, '\n');
      if n == |text| then [text] else [StripCarriageReturn(text[..n])] + Lines(text[n + 1..])
  }

  lemma FoundAfter(line: string, rest: string)
    requires '\n' !in line
    ensures Find(line + "\n" + rest, '\n') == |line|
    ensures (line + "\n" + rest)[..|line|] == line && (line + "\n" + rest)[|line| + 1..] == rest
  {
    var text := line + "\n" + rest;
    assert text[|line|] == '\n';
    assert forall i :: 0 <= i < |line| ==> text[i] == line[i];
  }

  /** The first line of a text, and the lines that follow it, for every way a line can end. */
  lemma LinesExactly(line: string, rest: string)
    requires '\n' !in line
    ensures Lines("") == []
    ensures line != "" ==> Lines(line) == [line]
    ensures line == "" || line[|line| - 1] != '\r' ==> Lines(line + "\n" + rest) == [line] + Lines(rest)
    ensures Lines(line + "\r" + "\n" + rest) == [line] + Lines(rest)
  {
    FoundAfter(line, rest);
    FoundAfter(line + "\r", rest);
    assert (line + "\r")[..|line + "\r"| - 1] == line;
  }

  /** The parts with one separator between neighbours. */
  function Join(parts: seq<string>, separator: string): string {
    if parts == [] then ""
    else if |parts| == 1 then parts[0]
    else parts[0] + separator + Join(parts[1..], separator)
  }

  function Concat(parts: seq<string>): string {
    if parts == [] then "" else parts[0] + Concat(parts[1..])
  }

  lemma {:induction false} ConcatAppend(a: seq<string>, b: seq<string>)
    ensures Concat(a + b) == Concat(a) + Concat(b)
  {
    if a == [] {
      assert a + b == b;
    } else {
      ConcatAppend(a[1..], b);
      assert (a + b)[1..] == a[1..] + b;
      Regroup(a[0], Concat(a[1..]), Concat(b));
    }
  }

  lemma Regroup(a: string, b: string, c: string)
    ensures a + (b + c) == a + b + c
  {
  }

  lemma ConcatSnoc(a: seq<string>, last: string)
    ensures Concat(a + [last]) == Concat(a) + last
  {
    ConcatAppend(a, [last]);
    assert [last][1..] == [];
  }
}
