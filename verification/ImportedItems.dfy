/** Items imported from an external tracker: revision-pinned refreshes and acts, and proposal containment. */
module ImportedItems {
  import opened NodeOrder
  import opened Wrappers

  datatype ImportedItemState = Open | Closed | Merged | Done | Unknown

  predicate IsTerminal(state: ImportedItemState) {
    state.Closed? || state.Merged? || state.Done?
  }

  datatype ImportedItem = ImportedItem(
    id: int, integration: string, remoteId: string, sourceUrl: string, fetchedRevision: string,
    title: string, state: ImportedItemState, blockedBy: seq<NodeId>)

  datatype RefreshRefusal =
    | UnknownItem(named: int, held: int)
    | StaleRevision(expected: string, current: string)
    | SameRevision(revision: string)
    | IdentityMoved

  /** A refresh is accepted exactly for the held item, at the held revision, moving to another, identity kept. */
  function RefreshRefused(item: ImportedItem, expected: string, newItem: ImportedItem): (r: Option<RefreshRefusal>)
    ensures r.None? <==>
            && newItem.id == item.id && newItem.integration == item.integration && newItem.remoteId == item.remoteId
            && item.fetchedRevision == expected != newItem.fetchedRevision
    ensures r.Some? ==> match r.value
              case UnknownItem(named, held) => named == newItem.id != held == item.id
              case StaleRevision(presented, current) => presented == expected != current == item.fetchedRevision
              case SameRevision(revision) => revision == newItem.fetchedRevision == item.fetchedRevision
              case IdentityMoved => newItem.integration != item.integration || newItem.remoteId != item.remoteId
  {
    if newItem.id != item.id then Some(UnknownItem(newItem.id, item.id))
    else if item.fetchedRevision != expected then Some(StaleRevision(expected, item.fetchedRevision))
    else if newItem.fetchedRevision == expected then Some(SameRevision(expected))
    else if newItem.integration != item.integration || newItem.remoteId != item.remoteId then Some(IdentityMoved)
    else None
  }

  /** Each refusal is given exactly when its check is the first to fail. */
  lemma RefreshRefusedExactly(item: ImportedItem, expected: string, newItem: ImportedItem)
    ensures var refusal := RefreshRefused(item, expected, newItem);
            var held, presented := item.fetchedRevision, newItem.fetchedRevision;
            && (refusal == Some(UnknownItem(newItem.id, item.id)) <==> newItem.id != item.id)
            && (refusal == Some(StaleRevision(expected, held)) <==> newItem.id == item.id && expected != held)
            && (refusal == Some(SameRevision(expected)) <==>
                newItem.id == item.id && expected == held && presented == held)
            && (refusal == Some(IdentityMoved) <==>
                && newItem.id == item.id && expected == held && presented != held
                && (newItem.integration != item.integration || newItem.remoteId != item.remoteId))
  {
  }

  class ImportedItemRecord {
    var item: ImportedItem

    constructor (item: ImportedItem)
      ensures this.item == item
    {
      this.item := item;
    }

    method ApplyRefresh(expectedRevision: string, newItem: ImportedItem) returns (outcome: Outcome<RefreshRefusal>)
      modifies this
      ensures match RefreshRefused(old(item), expectedRevision, newItem)
              case None => outcome == Pass && item == newItem
              case Some(refusal) => outcome == Fail(refusal) && item == old(item)
    {
      if newItem.id != item.id {
        return Fail(UnknownItem(newItem.id, item.id));
      }
      if item.fetchedRevision != expectedRevision {
        return Fail(StaleRevision(expectedRevision, item.fetchedRevision));
      }
      if newItem.fetchedRevision == expectedRevision {
        return Fail(SameRevision(expectedRevision));
      }
      if newItem.integration != item.integration || newItem.remoteId != item.remoteId {
        return Fail(IdentityMoved);
      }
      item := newItem;
      return Pass;
    }
  }

  // ---------- runs of refreshes ----------

  /** A refresh as the client sends it: the revision it was rendered for, and the new item. */
  datatype Refresh = Refresh(expected: string, newItem: ImportedItem)

  /** The accepted refreshes out of a run of attempts on one record. */
  function Accepted(item: ImportedItem, attempts: seq<Refresh>): seq<Refresh>
    decreases |attempts|
  {
    if attempts == [] then []
    else if RefreshRefused(item, attempts[0].expected, attempts[0].newItem).None? then
      [attempts[0]] + Accepted(attempts[0].newItem, attempts[1..])
    else Accepted(item, attempts[1..])
  }

  /** The item held before the i-th accepted refresh. */
  function HeldBefore(item: ImportedItem, accepted: seq<Refresh>, i: nat): ImportedItem
    requires i <= |accepted|
  {
    if i == 0 then item else accepted[i - 1].newItem
  }

  /** Identity never moves; each refresh is pinned to the revision before it and moves to another. */
  ghost predicate PinnedChain(item: ImportedItem, accepted: seq<Refresh>) {
    forall i :: 0 <= i < |accepted| ==>
      var held := HeldBefore(item, accepted, i);
      var newItem := accepted[i].newItem;
      && newItem.id == item.id && newItem.integration == item.integration && newItem.remoteId == item.remoteId
      && accepted[i].expected == held.fetchedRevision
      && newItem.fetchedRevision != held.fetchedRevision
  }

  /** Every run leaves a pinned chain. */
  lemma {:induction false} RefreshesArePinned(item: ImportedItem, attempts: seq<Refresh>)
    ensures PinnedChain(item, Accepted(item, attempts))
    decreases |attempts|
  {
    if attempts != [] {
      var newItem := attempts[0].newItem;
      if RefreshRefused(item, attempts[0].expected, newItem).None? {
        RefreshesArePinned(newItem, attempts[1..]);
        var rest := Accepted(newItem, attempts[1..]);
        var accepted := Accepted(item, attempts);
        forall i | 1 <= i < |accepted| ensures HeldBefore(item, accepted, i) == HeldBefore(newItem, rest, i - 1) {}
      } else {
        RefreshesArePinned(item, attempts[1..]);
      }
    }
  }

  /** A pinned chain, and only that, is accepted whole. */
  lemma {:induction false} PinnedChainIsAccepted(item: ImportedItem, attempts: seq<Refresh>)
    ensures Accepted(item, attempts) == attempts <==> PinnedChain(item, attempts)
    decreases |attempts|
  {
    RefreshesArePinned(item, attempts);
    if attempts != [] && PinnedChain(item, attempts) {
      var newItem := attempts[0].newItem;
      assert HeldBefore(item, attempts, 0) == item;
      forall i | 0 <= i < |attempts[1..]|
        ensures HeldBefore(newItem, attempts[1..], i) == HeldBefore(item, attempts, i + 1)
      {}
      assert PinnedChain(newItem, attempts[1..]) by {
        forall i | 0 <= i < |attempts[1..]|
          ensures attempts[1..][i] == attempts[i + 1]
          ensures attempts[i + 1].expected == HeldBefore(item, attempts, i + 1).fetchedRevision
          ensures attempts[i + 1].newItem.fetchedRevision != HeldBefore(item, attempts, i + 1).fetchedRevision
          ensures attempts[i + 1].newItem.id == item.id
        {}
      }
      PinnedChainIsAccepted(newItem, attempts[1..]);
      assert attempts == [attempts[0]] + attempts[1..];
    }
  }

  // ---------- acts ----------

  datatype ActRefusal =
    | NeverImported(integration: string, remoteId: string)
    | StalePin(expected: string, current: string)

  predicate Names(item: ImportedItem, integration: string, remoteId: string) {
    item.integration == integration && item.remoteId == remoteId
  }

  function Matching(items: seq<ImportedItem>, integration: string, remoteId: string): (r: seq<ImportedItem>)
    ensures forall item :: item in r <==> item in items && Names(item, integration, remoteId)
  {
    if items == [] then []
    else (if Names(items[0], integration, remoteId) then [items[0]] else [])
         + Matching(items[1..], integration, remoteId)
  }

  /** The first of the items that holds the revision. */
  function FirstAt(items: seq<ImportedItem>, revision: string): (r: Option<ImportedItem>)
    ensures r.Some? ==> r.value in items && r.value.fetchedRevision == revision
    ensures r.None? ==> forall item :: item in items ==> item.fetchedRevision != revision
  {
    if items == [] then None
    else if items[0].fetchedRevision == revision then Some(items[0])
    else FirstAt(items[1..], revision)
  }

  /** The k-th item is the first of that remote that holds the revision. */
  ghost predicate FirstPinned(items: seq<ImportedItem>, integration: string, remoteId: string,
                              revision: string, k: nat) {
    && k < |items| && Names(items[k], integration, remoteId) && items[k].fetchedRevision == revision
    && forall i :: 0 <= i < k && Names(items[i], integration, remoteId) ==> items[i].fetchedRevision != revision
  }

  lemma PinnedFurther(items: seq<ImportedItem>, integration: string, remoteId: string, revision: string, k: nat)
    requires items != [] && FirstPinned(items[1..], integration, remoteId, revision, k)
    requires !Names(items[0], integration, remoteId) || items[0].fetchedRevision != revision
    ensures FirstPinned(items, integration, remoteId, revision, k + 1)
  {
    hide Names;
    assert forall i :: 0 < i < |items| ==> items[i] == items[1..][i - 1];
  }

  lemma {:induction false} PinnedIsFirst(items: seq<ImportedItem>, integration: string, remoteId: string,
                                         revision: string)
    returns (k: nat)
    requires FirstAt(Matching(items, integration, remoteId), revision).Some?
    ensures FirstPinned(items, integration, remoteId, revision, k)
    ensures FirstAt(Matching(items, integration, remoteId), revision) == Some(items[k])
  {
    var rest := Matching(items[1..], integration, remoteId);
    if Names(items[0], integration, remoteId) {
      assert Matching(items, integration, remoteId)[1..] == rest;
    } else {
      assert Matching(items, integration, remoteId) == rest;
    }
    if Names(items[0], integration, remoteId) && items[0].fetchedRevision == revision {
      k := 0;
    } else {
      k := PinnedIsFirst(items[1..], integration, remoteId, revision);
      PinnedFurther(items, integration, remoteId, revision, k);
      k := k + 1;
    }
  }

  lemma PinnedIsFirstExists(items: seq<ImportedItem>, integration: string, remoteId: string, revision: string)
    requires FirstAt(Matching(items, integration, remoteId), revision).Some?
    ensures exists k: nat :: FirstPinned(items, integration, remoteId, revision, k)
              && FirstAt(Matching(items, integration, remoteId), revision) == Some(items[k])
  {
    var k := PinnedIsFirst(items, integration, remoteId, revision);
  }

  ghost predicate FirstNamed(items: seq<ImportedItem>, integration: string, remoteId: string, k: nat) {
    && k < |items| && Names(items[k], integration, remoteId)
    && forall i :: 0 <= i < k ==> !Names(items[i], integration, remoteId)
  }

  lemma {:induction false} MatchingHead(items: seq<ImportedItem>, integration: string, remoteId: string)
    returns (k: nat)
    requires Matching(items, integration, remoteId) != []
    ensures FirstNamed(items, integration, remoteId, k) && Matching(items, integration, remoteId)[0] == items[k]
  {
    if Names(items[0], integration, remoteId) {
      k := 0;
    } else {
      k := MatchingHead(items[1..], integration, remoteId);
      k := k + 1;
    }
  }

  lemma MatchingHeadExists(items: seq<ImportedItem>, integration: string, remoteId: string)
    requires Matching(items, integration, remoteId) != []
    ensures exists k: nat ::
              FirstNamed(items, integration, remoteId, k) && items[k] == Matching(items, integration, remoteId)[0]
  {
    var k := MatchingHead(items, integration, remoteId);
  }

  /** An act goes out exactly when some record of that remote holds the pinned revision. */
  function CheckActPin(items: seq<ImportedItem>, integration: string, remoteId: string, expected: string)
    : (r: Result<ImportedItem, ActRefusal>)
    ensures r.Success? <==>
            exists item :: item in items && Names(item, integration, remoteId) && item.fetchedRevision == expected
    ensures r.Success? ==>
              exists k: nat :: FirstPinned(items, integration, remoteId, expected, k) && r.value == items[k]
    ensures r.Failure? && r.error.NeverImported? <==>
            forall item :: item in items ==> !Names(item, integration, remoteId)
    ensures r.Failure? && r.error.NeverImported? ==> r.error == NeverImported(integration, remoteId)
    ensures r.Failure? && r.error.StalePin? ==>
              && r.error.expected == expected
              && (exists k: nat ::
                    FirstNamed(items, integration, remoteId, k) && items[k].fetchedRevision == r.error.current)
  {
    var matching := Matching(items, integration, remoteId);
    if matching == [] then
      assert forall item :: item in items && Names(item, integration, remoteId) ==> item in matching;
      Failure(NeverImported(integration, remoteId))
    else
      assert matching[0] in matching;
      MatchingHeadExists(items, integration, remoteId);
      match FirstAt(matching, expected)
      case Some(item) => PinnedIsFirstExists(items, integration, remoteId, expected); Success(item)
      case None => Failure(StalePin(expected, matching[0].fetchedRevision))
  }

  /** Which act goes out, in the fields of the records: the remote's two names and the revision all have to fit. */
  lemma ActGoesOutExactly(items: seq<ImportedItem>, integration: string, remoteId: string, expected: string,
                          item: ImportedItem)
    ensures var pin := CheckActPin(items, integration, remoteId, expected);
            var fits := item in items && item.integration == integration && item.remoteId == remoteId;
            && (fits && item.fetchedRevision == expected ==> pin.Success?)
            && (pin == Success(item) ==> fits && item.fetchedRevision == expected)
            && (fits ==> pin != Failure(NeverImported(integration, remoteId)))
  {
    hide Matching, FirstAt;
  }

  /** Once the only record of a remote is refreshed, the old pin is refused and the new one accepted. */
  lemma RefreshMovesThePin(items: seq<ImportedItem>, k: nat, expected: string, newItem: ImportedItem)
    requires k < |items|
    requires forall i :: 0 <= i < |items| && i != k ==> !Names(items[i], items[k].integration, items[k].remoteId)
    requires RefreshRefused(items[k], expected, newItem).None?
    ensures var after := items[k := newItem];
            && CheckActPin(items, newItem.integration, newItem.remoteId, expected) == Success(items[k])
            && CheckActPin(after, newItem.integration, newItem.remoteId, expected)
                 == Failure(StalePin(expected, newItem.fetchedRevision))
            && CheckActPin(after, newItem.integration, newItem.remoteId, newItem.fetchedRevision) == Success(newItem)
  {
    OnlyMatching(items, k, newItem.integration, newItem.remoteId);
    OnlyMatching(items[k := newItem], k, newItem.integration, newItem.remoteId);
  }

  lemma {:induction false} NoneMatching(items: seq<ImportedItem>, integration: string, remoteId: string)
    requires forall i :: 0 <= i < |items| ==> !Names(items[i], integration, remoteId)
    ensures Matching(items, integration, remoteId) == []
  {
    if items != [] {
      NoneMatching(items[1..], integration, remoteId);
    }
  }

  lemma {:induction false} OnlyMatching(items: seq<ImportedItem>, k: nat, integration: string, remoteId: string)
    requires k < |items| && Names(items[k], integration, remoteId)
    requires forall i :: 0 <= i < |items| && i != k ==> !Names(items[i], integration, remoteId)
    ensures Matching(items, integration, remoteId) == [items[k]]
    decreases |items|
  {
    if k == 0 {
      NoneMatching(items[1..], integration, remoteId);
    } else {
      OnlyMatching(items[1..], k - 1, integration, remoteId);
    }
  }

  // ---------- proposals over imported text ----------

  /** The first occurrences of the allowed candidates, in order. */
  function Contained(proposed: seq<string>, realIds: set<string>, shown: set<string>): seq<string> {
    if proposed == [] then [] else
      var before := Contained(proposed[..|proposed| - 1], realIds, shown);
      var candidate := proposed[|proposed| - 1];
      if candidate !in before && candidate in realIds && candidate in shown then before + [candidate] else before
  }

  method ContainProposals(proposed: seq<string>, realIds: set<string>, shown: set<string>) returns (out: seq<string>)
    ensures out == Contained(proposed, realIds, shown)
  {
    var seen: set<string> := {};
    out := [];
    for i := 0 to |proposed|
      invariant out == Contained(proposed[..i], realIds, shown)
      invariant forall x :: x in seen <==> x in out
    {
      var candidate := proposed[i];
      assert proposed[..i + 1][..i] == proposed[..i];
      if candidate !in seen {
        if candidate in realIds && candidate in shown {
          seen := seen + {candidate};
          out := out + [candidate];
        }
      }
    }
    assert proposed[..|proposed|] == proposed;
  }

  ghost predicate NoRepeats(s: seq<string>) {
    forall i, j :: 0 <= i < j < |s| ==> s[i] != s[j]
  }

  /** Where a text first occurs. */
  ghost predicate FirstOccurs(s: seq<string>, x: string, at: int) {
    0 <= at < |s| && s[at] == x && forall i :: 0 <= i < at ==> s[i] != x
  }

  /** Exactly the proposed texts that exist and were shown, each once, by first occurrence. */
  lemma {:induction false} ContainedExactly(proposed: seq<string>, realIds: set<string>, shown: set<string>)
    ensures var out := Contained(proposed, realIds, shown);
            && (forall x :: x in out <==> x in proposed && x in realIds && x in shown)
            && NoRepeats(out)
            && (forall i, j, p, q ::
                  0 <= i < j < |out| && FirstOccurs(proposed, out[i], p) && FirstOccurs(proposed, out[j], q) ==> p < q)
  {
    if proposed != [] {
      var n := |proposed| - 1;
      var before := Contained(proposed[..n], realIds, shown);
      var out := Contained(proposed, realIds, shown);
      ContainedExactly(proposed[..n], realIds, shown);
      assert proposed == proposed[..n] + [proposed[n]];
      forall i, j, p, q | 0 <= i < j < |out| && FirstOccurs(proposed, out[i], p) && FirstOccurs(proposed, out[j], q)
        ensures p < q
      {
        assert out[i] in proposed[..n];
        assert p < n && FirstOccurs(proposed[..n], out[i], p);
        if q < n {
          assert FirstOccurs(proposed[..n], out[j], q) && out[j] in proposed[..n];
          assert j < |before|;
        }
      }
    }
  }

  /** Containing what is already contained changes nothing. */
  lemma {:induction false} ContainedIdempotent(proposed: seq<string>, realIds: set<string>, shown: set<string>)
    ensures Contained(Contained(proposed, realIds, shown), realIds, shown) == Contained(proposed, realIds, shown)
  {
    ContainedExactly(proposed, realIds, shown);
    AllowedUnchanged(Contained(proposed, realIds, shown), realIds, shown);
  }

  lemma {:induction false} AllowedUnchanged(s: seq<string>, realIds: set<string>, shown: set<string>)
    requires NoRepeats(s) && forall x :: x in s ==> x in realIds && x in shown
    ensures Contained(s, realIds, shown) == s
  {
    if s != [] {
      var n := |s| - 1;
      AllowedUnchanged(s[..n], realIds, shown);
      assert s == s[..n] + [s[n]] && s[n] in s;
    }
  }
}
