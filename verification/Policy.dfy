/** Session policies and the ceilings a model's tier or an external directive puts on them. */
module Policies {
  import opened Wrappers
  import opened MachineIntegers

  datatype PolicyMode = ReadOnly | Ask | WorkspaceWrite | FullAuto

  function Width(mode: PolicyMode): nat {
    match mode
    case ReadOnly => 0
    case Ask => 1
    case WorkspaceWrite => 2
    case FullAuto => 3
  }

  function NarrowerOf(a: PolicyMode, b: PolicyMode): PolicyMode {
    if Width(a) <= Width(b) then a else b
  }

  /** The mode a session that continues this one starts with. */
  function CarriedForward(mode: PolicyMode): PolicyMode {
    if mode.FullAuto? then Ask else mode
  }

  datatype DirectiveSource = Human | Internal | External(origin: string)

  function DirectiveCeiling(source: DirectiveSource, requested: PolicyMode): PolicyMode {
    if source.External? then CarriedForward(requested) else requested
  }

  datatype GovernanceTier = Supervised | Standard | Trusted

  function TierCeiling(tier: GovernanceTier): PolicyMode {
    if tier.Supervised? then WorkspaceWrite else FullAuto
  }

  function TierClamp(tier: GovernanceTier, requested: PolicyMode): PolicyMode {
    NarrowerOf(requested, TierCeiling(tier))
  }

  /** Children one call may draw against an envelope armed for `armed`; none at all when supervised. */
  function EnvelopedFanOut(tier: GovernanceTier, armed: u32): Option<u32> {
    match tier
    case Supervised => None
    case Standard => Some(if armed / 2 == 0 then 1 else armed / 2)
    case Trusted => Some(armed)
  }

  // ---------- the declared table ----------

  function LowerAscii(c: char): char {
    if 'A' <= c <= 'Z' then (c as int + 32) as char else c
  }

  function Lower(s: string): string {
    seq(|s|, i requires 0 <= i < |s| => LowerAscii(s[i]))
  }

  datatype ModelPattern = Exact(text: string) | Prefix(text: string)

  predicate Starred(text: string) {
    text != "" && text[|text| - 1] == '*'
  }

  function Stem(text: string): string
    requires Starred(text)
  {
    text[..|text| - 1]
  }

  function ParsePattern(text: string): ModelPattern {
    if Starred(text) then Prefix(Lower(Stem(text))) else Exact(Lower(text))
  }

  predicate PatternMatches(pattern: ModelPattern, model: string) {
    match pattern
    case Exact(text) => text == Lower(model)
    case Prefix(text) => text <= Lower(model)
  }

  datatype GovernanceRule = GovernanceRule(provider: string, model: ModelPattern, tier: GovernanceTier)

  predicate RuleMatches(rule: GovernanceRule, provider: string, model: string) {
    Lower(rule.provider) == Lower(provider) && PatternMatches(rule.model, model)
  }

  datatype GovernanceTable = GovernanceTable(defaultTier: GovernanceTier, rules: seq<GovernanceRule>)

  /** First match wins; no match falls to the default. */
  function FirstTier(rules: seq<GovernanceRule>, default: GovernanceTier, provider: string, model: string)
    : (tier: GovernanceTier)
    ensures (exists i :: 0 <= i < |rules| && RuleMatches(rules[i], provider, model) && tier == rules[i].tier
               && forall j :: 0 <= j < i ==> !RuleMatches(rules[j], provider, model))
            || (tier == default && forall i :: 0 <= i < |rules| ==> !RuleMatches(rules[i], provider, model))
  {
    if rules == [] then default
    else if RuleMatches(rules[0], provider, model) then rules[0].tier
    else
      var tier := FirstTier(rules[1..], default, provider, model);
      assert forall i :: 0 <= i < |rules[1..]| ==> rules[1..][i] == rules[i + 1];
      tier
  }

  function TierFor(table: GovernanceTable, provider: string, model: string): GovernanceTier {
    FirstTier(table.rules, table.defaultTier, provider, model)
  }

  function TableClamp(table: GovernanceTable, provider: string, model: string, requested: PolicyMode): PolicyMode {
    TierClamp(TierFor(table, provider, model), requested)
  }

  /** The same letter: equal, or the capital and the small form of one of the 26. */
  predicate SameLetter(c: char, d: char) {
    || c == d
    || ('A' <= c <= 'Z' && d as int == c as int + 32)
    || ('A' <= d <= 'Z' && c as int == d as int + 32)
  }

  /** Two texts agree in lower case exactly when they are the same letters, capital or not. */
  lemma LowerExactly(a: string, b: string)
    ensures Lower(a) == Lower(b) <==> |a| == |b| && forall i :: 0 <= i < |a| ==> SameLetter(a[i], b[i])
  {
    forall c, d ensures LowerAscii(c) == LowerAscii(d) <==> SameLetter(c, d) {
    }
    if Lower(a) == Lower(b) {
      assert |a| == |Lower(a)| == |b|;
      forall i | 0 <= i < |a| ensures SameLetter(a[i], b[i]) {
        assert Lower(a)[i] == LowerAscii(a[i]) && Lower(b)[i] == LowerAscii(b[i]);
      }
    }
  }

  lemma LowerConcat(a: string, b: string)
    ensures Lower(a + b) == Lower(a) + Lower(b)
    ensures Lower(Lower(a)) == Lower(a)
  {
  }

  /** The same letters from end to end. */
  ghost predicate SameLetters(a: string, b: string) {
    |a| == |b| && forall i :: 0 <= i < |a| ==> SameLetter(a[i], b[i])
  }

  /** A trailing star matches exactly the models that continue its stem, in any letter case. */
  lemma StarredMatchesExactly(stem: string, model: string)
    ensures PatternMatches(ParsePattern(stem + "*"), model) <==>
            |stem| <= |model| && SameLetters(stem, model[..|stem|])
  {
    assert Stem(stem + "*") == stem;
    LowerExactly(stem, if |stem| <= |model| then model[..|stem|] else "");
    if Lower(stem) <= Lower(model) {
      LowerTake(model, |stem|);
    }
    if |stem| <= |model| && SameLetters(stem, model[..|stem|]) {
      LowerTake(model, |stem|);
    }
  }

  lemma LowerTake(s: string, n: nat)
    requires n <= |s|
    ensures Lower(s)[..n] == Lower(s[..n])
  {
  }

  /** Any other pattern matches exactly its own spelling, in any letter case. */
  lemma LiteralMatchesExactly(text: string, model: string)
    requires text == "" || text[|text| - 1] != '*'
    ensures PatternMatches(ParsePattern(text), model) <==> SameLetters(text, model)
  {
    LowerExactly(text, model);
  }

  /** A rule matches exactly when its provider does, letter by letter, and its pattern does. */
  lemma RuleMatchesExactly(rule: GovernanceRule, provider: string, model: string)
    ensures RuleMatches(rule, provider, model) <==>
            SameLetters(rule.provider, provider) && PatternMatches(rule.model, model)
  {
    LowerExactly(rule.provider, provider);
  }

  /** Every model the later pattern matches is matched by the earlier one. */
  predicate Shadows(earlier: ModelPattern, later: ModelPattern) {
    earlier == later || (earlier.Prefix? && earlier.text <= later.text)
  }

  lemma ShadowedMatches(earlier: ModelPattern, later: ModelPattern, model: string)
    requires Shadows(earlier, later) && PatternMatches(later, model)
    ensures PatternMatches(earlier, model)
  {
  }

  /** A model that a written pattern matches and another does not shadow. */
  lemma OnlyMatchedByLater(earlier: string, later: string) returns (model: string)
    requires !Shadows(ParsePattern(earlier), ParsePattern(later))
    ensures PatternMatches(ParsePattern(later), model) && !PatternMatches(ParsePattern(earlier), model)
  {
    var p, q := ParsePattern(earlier), ParsePattern(later);
    LowerConcat(if Starred(later) then Stem(later) else later, "");
    assert Lower(q.text) == q.text;
    LowerConcat(q.text, "a");
    model := if p.Exact? && q.Prefix? && p.text == q.text then q.text + "a" else q.text;
    assert Lower(q.text + "a")[|q.text|..] == Lower("a");
  }

  /** One pattern leaves nothing to another exactly when it is the same or a starred start of it. */
  lemma ShadowsExactly(earlier: string, later: string)
    ensures Shadows(ParsePattern(earlier), ParsePattern(later)) <==>
            forall model :: PatternMatches(ParsePattern(later), model) ==> PatternMatches(ParsePattern(earlier), model)
  {
    var p, q := ParsePattern(earlier), ParsePattern(later);
    if Shadows(p, q) {
      forall model | PatternMatches(q, model) ensures PatternMatches(p, model) {
        ShadowedMatches(p, q, model);
      }
    } else {
      var model := OnlyMatchedByLater(earlier, later);
    }
  }

  /** Rows further down only supply the default of those above. */
  lemma {:induction false} FirstTierConcat(a: seq<GovernanceRule>, b: seq<GovernanceRule>, default: GovernanceTier,
                                           provider: string, model: string)
    ensures FirstTier(a + b, default, provider, model)
            == FirstTier(a, FirstTier(b, default, provider, model), provider, model)
  {
    if a == [] {
      assert a + b == b;
    } else {
      assert (a + b)[0] == a[0] && (a + b)[1..] == a[1..] + b;
      FirstTierConcat(a[1..], b, default, provider, model);
    }
  }

  lemma {:induction false} DefaultUnused(rules: seq<GovernanceRule>, a: GovernanceTier, b: GovernanceTier,
                                         provider: string, model: string, i: nat)
    requires i < |rules| && RuleMatches(rules[i], provider, model)
    ensures FirstTier(rules, a, provider, model) == FirstTier(rules, b, provider, model)
  {
    if !RuleMatches(rules[0], provider, model) {
      DefaultUnused(rules[1..], a, b, provider, model, i - 1);
    }
  }

  /** A row below one of its provider that shadows it is dead: taking it out changes no model's tier. */
  lemma ShadowedRowIsDead(above: seq<GovernanceRule>, i: nat, row: GovernanceRule, below: seq<GovernanceRule>,
                          default: GovernanceTier, provider: string, model: string)
    requires i < |above| && Lower(above[i].provider) == Lower(row.provider) && Shadows(above[i].model, row.model)
    ensures TierFor(GovernanceTable(default, above + ([row] + below)), provider, model)
            == TierFor(GovernanceTable(default, above + below), provider, model)
  {
    FirstTierConcat(above, [row] + below, default, provider, model);
    FirstTierConcat(above, below, default, provider, model);
    FirstTierConcat([row], below, default, provider, model);
    if RuleMatches(row, provider, model) {
      ShadowedMatches(above[i].model, row.model, model);
      DefaultUnused(above, FirstTier([row] + below, default, provider, model),
                    FirstTier(below, default, provider, model),
                    provider, model, i);
    }
  }

  /** A model's tier does not depend on the letter case of its provider or its name. */
  lemma {:induction false} TierIgnoresCase(rules: seq<GovernanceRule>, default: GovernanceTier,
                                           provider: string, model: string, provider': string, model': string)
    requires Lower(provider) == Lower(provider') && Lower(model) == Lower(model')
    ensures FirstTier(rules, default, provider, model) == FirstTier(rules, default, provider', model')
  {
    if rules != [] {
      TierIgnoresCase(rules[1..], default, provider, model, provider', model');
    }
  }

  // ---------- narrowing only ----------

  /** The things that touch a policy without a human setting one. */
  datatype PolicyEvent =
    | ModelSwitch(table: GovernanceTable, provider: string, model: string)
    | Directive(source: DirectiveSource)
    | Continued

  function AfterEvent(mode: PolicyMode, event: PolicyEvent): PolicyMode {
    match event
    case ModelSwitch(table, provider, model) => TableClamp(table, provider, model, mode)
    case Directive(source) => DirectiveCeiling(source, mode)
    case Continued => CarriedForward(mode)
  }

  function AfterEvents(mode: PolicyMode, events: seq<PolicyEvent>): PolicyMode
    decreases |events|
  {
    if events == [] then mode else AfterEvents(AfterEvent(mode, events[0]), events[1..])
  }

  /** An event that takes full autonomy away from a mode that has it. */
  predicate Disarms(event: PolicyEvent) {
    match event
    case ModelSwitch(table, provider, model) => TierFor(table, provider, model).Supervised?
    case Directive(source) => source.External?
    case Continued => true
  }

  /**
   * Whatever happens without a human, width never grows; full autonomy survives exactly when nothing
   * disarms it, and a mode that is not full-auto is never changed at all.
   */
  lemma {:induction false} AuthorityOnlyNarrows(mode: PolicyMode, events: seq<PolicyEvent>)
    ensures Width(AfterEvents(mode, events)) <= Width(mode)
    ensures AfterEvents(mode, events).FullAuto? <==>
            mode.FullAuto? && forall i :: 0 <= i < |events| ==> !Disarms(events[i])
    ensures !mode.FullAuto? ==> AfterEvents(mode, events) == mode
    decreases |events|
  {
    if events != [] {
      AuthorityOnlyNarrows(AfterEvent(mode, events[0]), events[1..]);
      assert forall i :: 0 <= i < |events[1..]| ==> events[1..][i] == events[i + 1];
    }
  }

  /** The mode a disarming event leaves full autonomy in: a supervised model may still write. */
  function LandsOn(event: PolicyEvent): PolicyMode {
    if event.ModelSwitch? then WorkspaceWrite else Ask
  }

  /** Full autonomy lands where the first disarming event puts it, whatever follows. */
  lemma {:induction false} FirstDisarmingDecides(events: seq<PolicyEvent>, i: nat)
    requires i < |events| && Disarms(events[i]) && forall j :: 0 <= j < i ==> !Disarms(events[j])
    ensures AfterEvents(FullAuto, events) == LandsOn(events[i])
    decreases |events|
  {
    if i == 0 {
      AuthorityOnlyNarrows(AfterEvent(FullAuto, events[0]), events[1..]);
    } else {
      FirstDisarmingDecides(events[1..], i - 1);
    }
  }

  /** Full autonomy, once lost on the way, is not there at any later point. */
  lemma {:induction false} FullAutoNeverReturns(mode: PolicyMode, first: seq<PolicyEvent>, later: seq<PolicyEvent>)
    requires !AfterEvents(mode, first).FullAuto?
    ensures AfterEvents(mode, first + later) == AfterEvents(mode, first)
    decreases |first|
  {
    if first == [] {
      assert first + later == later;
      AuthorityOnlyNarrows(mode, later);
    } else {
      assert (first + later)[1..] == first[1..] + later;
      FullAutoNeverReturns(AfterEvent(mode, first[0]), first[1..], later);
    }
  }

  function ClampAll(mode: PolicyMode, tiers: seq<GovernanceTier>): PolicyMode
    decreases |tiers|
  {
    if tiers == [] then mode else ClampAll(TierClamp(tiers[0], mode), tiers[1..])
  }

  /** Folding ceilings yields their minimum: reached by the mode or some ceiling, and below all of them. */
  lemma {:induction false} ClampAllIsMinimum(mode: PolicyMode, tiers: seq<GovernanceTier>)
    ensures var least := ClampAll(mode, tiers);
            && Width(least) <= Width(mode)
            && (forall t :: t in tiers ==> Width(least) <= Width(TierCeiling(t)))
            && (least == mode || exists t :: t in tiers && least == TierCeiling(t))
    decreases |tiers|
  {
    if tiers != [] {
      ClampAllIsMinimum(TierClamp(tiers[0], mode), tiers[1..]);
      assert tiers == [tiers[0]] + tiers[1..];
    }
  }

  /** The order of the ceilings does not matter, nor does repeating one. */
  lemma ClampAllUnordered(mode: PolicyMode, a: seq<GovernanceTier>, b: seq<GovernanceTier>)
    requires forall t :: t in a <==> t in b
    ensures ClampAll(mode, a) == ClampAll(mode, b)
  {
    ClampAllIsMinimum(mode, a);
    ClampAllIsMinimum(mode, b);
    assert Width(ClampAll(mode, a)) == Width(ClampAll(mode, b));
  }

  /** What one call may draw: nothing when supervised, half but at least one when standard, all when trusted. */
  lemma FanOutExactly(armed: u32)
    ensures EnvelopedFanOut(Supervised, armed) == None
    ensures EnvelopedFanOut(Trusted, armed) == Some(armed)
    ensures armed <= 1 ==> EnvelopedFanOut(Standard, armed) == Some(1)
    ensures armed >= 2 ==>
              var drawn := EnvelopedFanOut(Standard, armed);
              drawn.Some? && 2 * drawn.value as int <= armed as int < 2 * (drawn.value as int + 1)
  {
  }

  /** A tier's fan-out stays within what was armed, except that a standard tier draws one from nothing. */
  lemma FanOutWithinArmed(tier: GovernanceTier, armed: u32)
    ensures var fanOut := EnvelopedFanOut(tier, armed);
            && (fanOut.Some? ==> (fanOut.value <= armed <==> armed >= 1 || tier.Trusted?))
            && (fanOut.None? <==> tier.Supervised?)
            && (tier.Trusted? ==> fanOut.value == armed)
            && (tier.Standard? && armed >= 2 ==> 2 * fanOut.value as int <= armed as int < 2 * fanOut.value as int + 2)
  {
  }
}
