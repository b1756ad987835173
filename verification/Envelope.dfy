/** The spawn envelope: a bounded, pre-authorised population of children. */
module Envelopes {
  import opened Wrappers
  import opened MachineIntegers
  import opened Policies

  const MAX_ENVELOPE_CHILDREN: u32 := 64
  const MAX_ENVELOPE_PER_CALL: u32 := 16
  const MAX_ENVELOPE_TURNS: u32 := 200
  const DEFAULT_TURNS_PER_CHILD: u32 := 8

  datatype SpawnEnvelope = SpawnEnvelope(
    ceiling: PolicyMode, maxChildren: u32, maxPerCall: u32, maxProviderTurns: u32,
    routes: seq<string>, expiresAfterTurns: u32)

  datatype Bound = MaxChildren | MaxPerCall | MaxProviderTurns | ExpiresAfterTurns

  datatype EnvelopeRefusal =
    | CeilingExceedsPolicy(ceiling: PolicyMode, policy: PolicyMode)
    | BoundTooLarge(field: Bound, limit: u32)
    | BoundIsZero(field: Bound)
    | PerCallExceeded(asked: u32, allowed: u32)
    | Exhausted(asked: u32, remaining: u32)
    | RouteNotCovered(route: string)
    | TurnsExhausted(asked: u32, remaining: u32)

  function ForChildren(children: u32, ceiling: PolicyMode, expiresAfterTurns: u32): SpawnEnvelope {
    SpawnEnvelope(ceiling, children, MinU32(children, MAX_ENVELOPE_PER_CALL),
                  MinU32(SaturatingMul(children, DEFAULT_TURNS_PER_CHILD), MAX_ENVELOPE_TURNS),
                  [], expiresAfterTurns)
  }

  function ClampCeiling(policy: PolicyMode, ceiling: PolicyMode): PolicyMode {
    if policy.ReadOnly? || ceiling.ReadOnly? then ReadOnly
    else if policy.FullAuto? && ceiling.FullAuto? then FullAuto
    else WorkspaceWrite
  }

  function CheckBound(field: Bound, value: u32, limit: u32): Outcome<EnvelopeRefusal> {
    if value == 0 then Fail(BoundIsZero(field))
    else if value > limit then Fail(BoundTooLarge(field, limit))
    else Pass
  }

  function ValueOf(envelope: SpawnEnvelope, field: Bound): u32 {
    match field
    case MaxChildren => envelope.maxChildren
    case MaxPerCall => envelope.maxPerCall
    case MaxProviderTurns => envelope.maxProviderTurns
    case ExpiresAfterTurns => envelope.expiresAfterTurns
  }

  function LimitOf(field: Bound): u32 {
    match field
    case MaxChildren => MAX_ENVELOPE_CHILDREN
    case MaxPerCall => MAX_ENVELOPE_PER_CALL
    case MaxProviderTurns => MAX_ENVELOPE_TURNS
    case ExpiresAfterTurns => MAX_ENVELOPE_TURNS
  }

  predicate InRange(envelope: SpawnEnvelope, field: Bound) {
    1 <= ValueOf(envelope, field) <= LimitOf(field)
  }

  /** The bounds that are checked before a field. */
  function CheckedBefore(field: Bound): set<Bound> {
    match field
    case MaxChildren => {}
    case MaxPerCall => {MaxChildren}
    case MaxProviderTurns => {MaxChildren, MaxPerCall}
    case ExpiresAfterTurns => {MaxChildren, MaxPerCall, MaxProviderTurns}
  }

  /** The ceiling survives the clamp, every bound before this one is in range, and this one is not. */
  ghost predicate FirstOutOfRange(envelope: SpawnEnvelope, policy: PolicyMode, field: Bound) {
    && ClampCeiling(policy, envelope.ceiling) == envelope.ceiling
    && (forall f :: f in CheckedBefore(field) ==> InRange(envelope, f))
    && !InRange(envelope, field)
  }

  /**
   * An envelope may be armed exactly when its ceiling survives the clamp and every bound is in range; a
   * refusal names what was asked for, or the first bound that is out of range and its limit.
   */
  function Validate(envelope: SpawnEnvelope, policy: PolicyMode): (r: Outcome<EnvelopeRefusal>)
    ensures r.Pass? <==>
            && ClampCeiling(policy, envelope.ceiling) == envelope.ceiling
            && forall field: Bound :: InRange(envelope, field)
    ensures r.Fail? ==> match r.error
              case CeilingExceedsPolicy(ceiling, mode) =>
                ceiling == envelope.ceiling && mode == policy && ClampCeiling(policy, ceiling) != ceiling
              case BoundIsZero(field) =>
                FirstOutOfRange(envelope, policy, field) && ValueOf(envelope, field) == 0
              case BoundTooLarge(field, limit) =>
                FirstOutOfRange(envelope, policy, field) && limit == LimitOf(field) < ValueOf(envelope, field)
              case _ => false
  {
    if ClampCeiling(policy, envelope.ceiling) != envelope.ceiling then
      Fail(CeilingExceedsPolicy(envelope.ceiling, policy))
    else
      var children := CheckBound(MaxChildren, envelope.maxChildren, MAX_ENVELOPE_CHILDREN);
      var perCall := CheckBound(MaxPerCall, envelope.maxPerCall, MAX_ENVELOPE_PER_CALL);
      var turns := CheckBound(MaxProviderTurns, envelope.maxProviderTurns, MAX_ENVELOPE_TURNS);
      var expiry := CheckBound(ExpiresAfterTurns, envelope.expiresAfterTurns, MAX_ENVELOPE_TURNS);
      assert children.Pass? <==> InRange(envelope, MaxChildren);
      assert perCall.Pass? <==> InRange(envelope, MaxPerCall);
      assert turns.Pass? <==> InRange(envelope, MaxProviderTurns);
      assert expiry.Pass? <==> InRange(envelope, ExpiresAfterTurns);
      if children.Fail? then children
      else if perCall.Fail? then perCall
      else if turns.Fail? then turns
      else expiry
  }

  /** The same in numbers, and with the ceilings that survive the clamp spelled out. */
  lemma ValidatesExactly(envelope: SpawnEnvelope, policy: PolicyMode)
    ensures Validate(envelope, policy).Pass? <==>
            && (envelope.ceiling.ReadOnly? || (envelope.ceiling.WorkspaceWrite? && !policy.ReadOnly?)
                || (envelope.ceiling.FullAuto? && policy.FullAuto?))
            && 1 <= envelope.maxChildren as int <= 64 && 1 <= envelope.maxPerCall as int <= 16
            && 1 <= envelope.maxProviderTurns as int <= 200 && 1 <= envelope.expiresAfterTurns as int <= 200
  {
    assert InRange(envelope, MaxChildren) <==> 1 <= envelope.maxChildren as int <= 64;
    assert InRange(envelope, MaxPerCall) <==> 1 <= envelope.maxPerCall as int <= 16;
    assert InRange(envelope, MaxProviderTurns) <==> 1 <= envelope.maxProviderTurns as int <= 200;
    assert InRange(envelope, ExpiresAfterTurns) <==> 1 <= envelope.expiresAfterTurns as int <= 200;
  }

  /** With a ceiling that survives: each bound is refused exactly when those before it are in range and it is not. */
  lemma BoundRefusedExactly(envelope: SpawnEnvelope, policy: PolicyMode)
    requires ClampCeiling(policy, envelope.ceiling) == envelope.ceiling
    ensures var r := Validate(envelope, policy);
            var children, perCall := envelope.maxChildren as int, envelope.maxPerCall as int;
            var turns, life := envelope.maxProviderTurns as int, envelope.expiresAfterTurns as int;
            && (r == Fail(BoundIsZero(MaxChildren)) <==> children == 0)
            && (r == Fail(BoundTooLarge(MaxChildren, 64)) <==> children > 64)
            && (r == Fail(BoundIsZero(MaxPerCall)) <==> 1 <= children <= 64 && perCall == 0)
            && (r == Fail(BoundTooLarge(MaxPerCall, 16)) <==> 1 <= children <= 64 && perCall > 16)
            && (r == Fail(BoundIsZero(MaxProviderTurns)) <==>
                1 <= children <= 64 && 1 <= perCall <= 16 && turns == 0)
            && (r == Fail(BoundTooLarge(MaxProviderTurns, 200)) <==>
                1 <= children <= 64 && 1 <= perCall <= 16 && turns > 200)
            && (r == Fail(BoundIsZero(ExpiresAfterTurns)) <==>
                1 <= children <= 64 && 1 <= perCall <= 16 && 1 <= turns <= 200 && life == 0)
            && (r == Fail(BoundTooLarge(ExpiresAfterTurns, 200)) <==>
                1 <= children <= 64 && 1 <= perCall <= 16 && 1 <= turns <= 200 && life > 200)
  {
    assert InRange(envelope, MaxChildren) <==> 1 <= envelope.maxChildren as int <= 64;
    assert InRange(envelope, MaxPerCall) <==> 1 <= envelope.maxPerCall as int <= 16;
    assert InRange(envelope, MaxProviderTurns) <==> 1 <= envelope.maxProviderTurns as int <= 200;
    assert InRange(envelope, ExpiresAfterTurns) <==> 1 <= envelope.expiresAfterTurns as int <= 200;
  }

  /** The one-number envelope is valid exactly for 1 to 64 children, 1 to 200 turns and an accepted ceiling. */
  lemma ForChildrenValidatesExactly(children: u32, ceiling: PolicyMode, expires: u32, policy: PolicyMode)
    ensures Validate(ForChildren(children, ceiling, expires), policy).Pass? <==>
            1 <= children <= 64 && 1 <= expires <= 200 && ClampCeiling(policy, ceiling) == ceiling
  {
    assert children as int * 8 >= 0;
    if children <= 64 {
      assert SaturatingMul(children, DEFAULT_TURNS_PER_CHILD) == children * 8;
    }
  }

  /** What the one number buys: eight turns a child up to 25 children, and all in one call up to 16. */
  lemma ForChildrenFunds(children: u32, ceiling: PolicyMode, expires: u32)
    ensures var e := ForChildren(children, ceiling, expires);
            && (e.maxProviderTurns as int == 8 * children as int <==> children <= 25)
            && (e.maxPerCall == e.maxChildren <==> children <= 16)
            && e.maxPerCall <= 16 && e.maxProviderTurns <= 200 && e.maxChildren == children
            && (children > 25 ==> e.maxProviderTurns == 200) && (children > 16 ==> e.maxPerCall == 16)
  {
    assert SaturatingMul(children, DEFAULT_TURNS_PER_CHILD) as int
           == if 8 * children as int < U32_LIMIT then 8 * children as int else U32_LIMIT - 1;
  }

  /**
   * The acceptance rule is not the width order: it agrees with it exactly outside two families.
   * A workspace-write ceiling passes under `ask`, and an `ask` ceiling passes nowhere.
   */
  lemma CeilingRuleAgainstWidth(policy: PolicyMode, ceiling: PolicyMode)
    ensures (ClampCeiling(policy, ceiling) == ceiling <==> Width(ceiling) <= Width(policy)) <==>
            !(policy.Ask? && ceiling.WorkspaceWrite?) && !(ceiling.Ask? && !policy.ReadOnly?)
  {
  }

  /** Under `ask`, which is narrower, a workspace-write ceiling is accepted. */
  lemma WiderCeilingAccepted(children: u32, expires: u32)
    requires 1 <= children <= 64 && 1 <= expires <= 200
    ensures Validate(ForChildren(children, WorkspaceWrite, expires), Ask).Pass?
    ensures Width(WorkspaceWrite) > Width(Ask)
  {
    ForChildrenValidatesExactly(children, WorkspaceWrite, expires, Ask);
  }

  // ---------- the armed envelope ----------

  datatype Active = Active(envelope: SpawnEnvelope, childrenDrawn: u32, turnsDrawn: u32, turnsElapsed: u32)

  function ChildrenRemaining(a: Active): u32 {
    SaturatingSub(a.envelope.maxChildren, a.childrenDrawn)
  }

  function TurnsRemaining(a: Active): u32 {
    SaturatingSub(a.envelope.maxProviderTurns, a.turnsDrawn)
  }

  predicate Expired(a: Active) {
    a.turnsElapsed >= a.envelope.expiresAfterTurns
  }

  predicate IsExhausted(a: Active) {
    ChildrenRemaining(a) == 0 || TurnsRemaining(a) == 0
  }

  function FirstUncovered(covered: seq<string>, routes: seq<string>): (r: Option<string>)
    ensures r.None? <==> forall x :: x in routes ==> x in covered
    ensures r.Some? ==> r.value in routes && r.value !in covered
  {
    if routes == [] then None
    else if routes[0] !in covered then Some(routes[0])
    else FirstUncovered(covered, routes[1..])
  }

  /** A draw fits exactly when it is within the call, the children, the turns and the routes left. */
  function CheckDraw(a: Active, children: u32, turns: u32, routes: seq<string>): (r: Outcome<EnvelopeRefusal>)
    ensures r.Pass? <==>
            && children <= a.envelope.maxPerCall
            && children <= ChildrenRemaining(a)
            && turns <= TurnsRemaining(a)
            && (a.envelope.routes == [] || forall x :: x in routes ==> x in a.envelope.routes)
    ensures r.Fail? ==> match r.error
              case PerCallExceeded(asked, allowed) => asked == children > allowed == a.envelope.maxPerCall
              case Exhausted(asked, remaining) => asked == children > remaining == ChildrenRemaining(a)
              case TurnsExhausted(asked, remaining) => asked == turns > remaining == TurnsRemaining(a)
              case RouteNotCovered(route) => route in routes && route !in a.envelope.routes && a.envelope.routes != []
              case _ => false
  {
    if children > a.envelope.maxPerCall then Fail(PerCallExceeded(children, a.envelope.maxPerCall))
    else if children > ChildrenRemaining(a) then Fail(Exhausted(children, ChildrenRemaining(a)))
    else if turns > TurnsRemaining(a) then Fail(TurnsExhausted(turns, TurnsRemaining(a)))
    else if a.envelope.routes == [] then Pass
    else match FirstUncovered(a.envelope.routes, routes)
      case Some(route) => Fail(RouteNotCovered(route))
      case None => Pass
  }

  function Drawn(a: Active, children: u32, turns: u32): Active {
    a.(childrenDrawn := SaturatingAdd(a.childrenDrawn, children), turnsDrawn := SaturatingAdd(a.turnsDrawn, turns))
  }

  function Ticked(a: Active): Active {
    a.(turnsElapsed := SaturatingAdd(a.turnsElapsed, 1))
  }

  class ActiveEnvelope {
    const envelope: SpawnEnvelope
    var childrenDrawn: u32
    var turnsDrawn: u32
    var turnsElapsed: u32

    constructor (envelope: SpawnEnvelope)
      ensures View() == Active(envelope, 0, 0, 0)
    {
      this.envelope := envelope;
      childrenDrawn, turnsDrawn, turnsElapsed := 0, 0, 0;
    }

    function View(): Active
      reads this
    {
      Active(envelope, childrenDrawn, turnsDrawn, turnsElapsed)
    }

    method Draw(children: u32, turns: u32)
      modifies this`childrenDrawn, this`turnsDrawn
      ensures View() == Drawn(old(View()), children, turns)
    {
      childrenDrawn := SaturatingAdd(childrenDrawn, children);
      turnsDrawn := SaturatingAdd(turnsDrawn, turns);
    }

    /** One turn passed; tells whether the envelope has lapsed. */
    method Tick() returns (lapsed: bool)
      modifies this`turnsElapsed
      ensures View() == Ticked(old(View()))
      ensures lapsed <==> Expired(View())
    {
      turnsElapsed := SaturatingAdd(turnsElapsed, 1);
      lapsed := Expired(View());
    }

    /** The runtime's step: an unexpired envelope whose check accepts is drawn on, otherwise nothing happens. */
    method TryDraw(children: u32, turns: u32, routes: seq<string>) returns (granted: bool)
      modifies this`childrenDrawn, this`turnsDrawn
      ensures View() == After(old(View()), Request(children, turns, routes))
      ensures granted <==> Grants(old(View()), Request(children, turns, routes))
    {
      granted := !Expired(View()) && CheckDraw(View(), children, turns, routes).Pass?;
      if granted {
        Draw(children, turns);
      }
    }
  }

  // ---------- runs ----------

  datatype Event = Request(children: u32, turns: u32, routes: seq<string>) | Turn

  predicate Grants(a: Active, event: Event) {
    event.Request? && !Expired(a) && CheckDraw(a, event.children, event.turns, event.routes).Pass?
  }

  function After(a: Active, event: Event): Active {
    if event.Turn? then Ticked(a)
    else if Grants(a, event) then Drawn(a, event.children, event.turns)
    else a
  }

  /** An envelope can still fund a child exactly while it is neither lapsed nor exhausted. */
  lemma FundsUntilExhausted(a: Active)
    requires a.envelope.maxPerCall >= 1
    ensures !Expired(a) && !IsExhausted(a) <==>
            exists children, turns :: children >= 1 && turns >= 1 && Grants(a, Request(children, turns, []))
  {
    if !Expired(a) && !IsExhausted(a) {
      assert Grants(a, Request(1, 1, []));
    }
  }

  function Run(a: Active, events: seq<Event>): Active
    decreases |events|
  {
    if events == [] then a else Run(After(a, events[0]), events[1..])
  }

  /** What a run grants, added up without bound. */
  function GrantedChildren(a: Active, events: seq<Event>): nat
    decreases |events|
  {
    if events == [] then 0 else
      (if Grants(a, events[0]) then events[0].children as nat else 0)
      + GrantedChildren(After(a, events[0]), events[1..])
  }

  function GrantedTurns(a: Active, events: seq<Event>): nat
    decreases |events|
  {
    if events == [] then 0 else
      (if Grants(a, events[0]) then events[0].turns as nat else 0)
      + GrantedTurns(After(a, events[0]), events[1..])
  }

  function Ticks(events: seq<Event>): nat {
    if events == [] then 0 else (if events[0].Turn? then 1 else 0) + Ticks(events[1..])
  }

  /** Drawn and remaining add up to what was declared. */
  ghost predicate Balanced(a: Active) {
    && a.childrenDrawn as int + ChildrenRemaining(a) as int == a.envelope.maxChildren as int
    && a.turnsDrawn as int + TurnsRemaining(a) as int == a.envelope.maxProviderTurns as int
  }

  /**
   * The counters are the true sums of what was granted, so saturation never fires, and drawn plus
   * remaining stays at the declared maxima. The turn counter is the number of turns, up to its width.
   */
  lemma {:induction false} EnvelopeConserves(a: Active, events: seq<Event>)
    requires Balanced(a)
    ensures var r := Run(a, events);
            && r.envelope == a.envelope && Balanced(r)
            && r.childrenDrawn as int == a.childrenDrawn as int + GrantedChildren(a, events)
            && r.turnsDrawn as int == a.turnsDrawn as int + GrantedTurns(a, events)
            && r.turnsElapsed as int
                 == var t := a.turnsElapsed as int + Ticks(events); if t < U32_LIMIT then t else U32_LIMIT - 1
    decreases |events|
  {
    if events != [] {
      EnvelopeConserves(After(a, events[0]), events[1..]);
    }
  }

  /** No call goes beyond its width, and nothing is granted once the envelope has lapsed. */
  lemma {:induction false} GrantsStayInside(a: Active, events: seq<Event>, i: nat)
    requires Balanced(a) && i < |events|
    requires Grants(Run(a, events[..i]), events[i])
    ensures events[i].children <= a.envelope.maxPerCall
    ensures a.turnsElapsed as int + Ticks(events[..i]) < a.envelope.expiresAfterTurns as int
  {
    EnvelopeConserves(a, events[..i]);
  }

  /** A fresh envelope's tick reports a lapse from its declared turn on and never before. */
  lemma LapsesExactly(envelope: SpawnEnvelope, events: seq<Event>)
    ensures Expired(Ticked(Run(Active(envelope, 0, 0, 0), events))) <==>
            Ticks(events) + 1 >= envelope.expiresAfterTurns as int
  {
    EnvelopeConserves(Active(envelope, 0, 0, 0), events);
  }

  /** Over its whole life a validated envelope grants no more than a human can arm. */
  lemma LifetimeBounds(envelope: SpawnEnvelope, policy: PolicyMode, events: seq<Event>)
    requires Validate(envelope, policy).Pass?
    ensures GrantedChildren(Active(envelope, 0, 0, 0), events) <= envelope.maxChildren as int <= 64
    ensures GrantedTurns(Active(envelope, 0, 0, 0), events) <= envelope.maxProviderTurns as int <= 200
  {
    EnvelopeConserves(Active(envelope, 0, 0, 0), events);
  }
}
