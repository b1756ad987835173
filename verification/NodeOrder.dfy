/** Board addresses and their total order, the frontier's only tie-breaker. */
module NodeOrder {

  /** A decision ticket, a plan, or an imported item; the key stands for the record's id. */
  datatype NodeId = Decision(key: int) | Plan(key: int) | Imported(key: int) {
    function Rank(): int {
      match this
      case Decision(_) => 0
      case Plan(_) => 1
      case Imported(_) => 2
    }
  }

  /** The derived order: variants in declaration order, then the key. */
  predicate Before(a: NodeId, b: NodeId) {
    a.Rank() < b.Rank() || (a.Rank() == b.Rank() && a.key < b.key)
  }

  /** Tickets come before plans, plans before imported items, and each kind is in the order of its keys. */
  lemma OrderedExactly(i: int, j: int)
    ensures Before(Decision(i), Plan(j)) && !Before(Plan(j), Decision(i))
    ensures Before(Plan(i), Imported(j)) && !Before(Imported(j), Plan(i))
    ensures Before(Decision(i), Imported(j)) && !Before(Imported(j), Decision(i))
    ensures Before(Decision(i), Decision(j)) <==> i < j
    ensures Before(Plan(i), Plan(j)) <==> i < j
    ensures Before(Imported(i), Imported(j)) <==> i < j
  {
  }

  ghost predicate Ascending(s: seq<NodeId>) {
    forall i, j :: 0 <= i < j < |s| ==> Before(s[i], s[j])
  }

  /** Non-empty lists in the order of their first elements. */
  ghost predicate ByHead(lists: seq<seq<NodeId>>) {
    && (forall i :: 0 <= i < |lists| ==> lists[i] != [])
    && (forall i, j :: 0 <= i < j < |lists| ==> Before(lists[i][0], lists[j][0]))
  }

  ghost predicate IsLeast(m: NodeId, s: set<NodeId>) {
    m in s && forall x :: x in s && x != m ==> Before(m, x)
  }

  lemma {:induction false} LeastExists(s: set<NodeId>)
    requires s != {}
    ensures exists m :: IsLeast(m, s)
  {
    var x :| x in s;
    var rest := s - {x};
    if rest == {} {
      assert s == {x};
      assert IsLeast(x, s);
    } else {
      LeastExists(rest);
      var m :| IsLeast(m, rest);
      var least := if Before(x, m) then x else m;
      forall y | y in s && y != least ensures Before(least, y) {
        assert y == x || y in rest;
      }
      assert IsLeast(least, s);
    }
  }

  /** The element an ordered set yields first. */
  function Least(s: set<NodeId>): (m: NodeId)
    requires s != {}
    ensures m in s && forall x :: x in s && x != m ==> Before(m, x)
  {
    LeastExists(s);
    assert exists m :: m in s && forall x :: x in s && x != m ==> Before(m, x) by {
      var m :| IsLeast(m, s);
    }
    var m :| m in s && forall x :: x in s && x != m ==> Before(m, x);
    m
  }

  /** The key an ordered map yields first. */
  function LeastKey(keys: set<int>): (m: int)
    requires keys != {}
    ensures m in keys && forall k :: k in keys ==> m <= k
  {
    LeastKeyExists(keys);
    var m :| m in keys && forall k :: k in keys ==> m <= k;
    m
  }

  lemma AnyOf<T>(s: set<T>) returns (x: T)
    requires s != {}
    ensures x in s
  {
    x :| x in s;
  }

  lemma {:induction false} LeastKeyExists(keys: set<int>)
    requires keys != {}
    ensures exists m :: m in keys && forall k :: k in keys ==> m <= k
  {
    var x := AnyOf(keys);
    var rest := keys - {x};
    var least: int := x;
    if rest != {} {
      LeastKeyExists(rest);
      var m :| m in rest && forall k :: k in rest ==> m <= k;
      least := if x <= m then x else m;
    }
    forall k | k in keys ensures least <= k {
      assert k == x || k in rest;
    }
    assert least in keys;
  }

  /** The ordered listing of a set: what iterating or sorting yields. */
  function Listing(s: set<NodeId>): (r: seq<NodeId>)
    ensures Ascending(r)
    ensures forall x :: x in r <==> x in s
    ensures |r| == |s|
    decreases |s|
  {
    if s == {} then [] else
      var m := Least(s);
      [m] + Listing(s - {m})
  }

  /** A strictly ascending listing is determined by its members. */
  lemma {:induction false} AscendingUnique(a: seq<NodeId>, b: seq<NodeId>)
    requires Ascending(a) && Ascending(b)
    requires forall x :: x in a <==> x in b
    ensures a == b
  {
    assert b != [] ==> b[0] in b && b[0] in a;
    if a == [] {
    } else {
      assert a[0] in b && b != [];
      assert a[0] == b[0];
      forall x ensures x in a[1..] <==> x in b[1..] {
        assert x in a <==> x == a[0] || x in a[1..];
        assert x in b <==> x == b[0] || x in b[1..];
      }
      AscendingUnique(a[1..], b[1..]);
      assert a == [a[0]] + a[1..] && b == [b[0]] + b[1..];
    }
  }
}
