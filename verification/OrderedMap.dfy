/** The standard-library ordered map (BTreeMap) as this project uses it: a finite map with natural
    keys whose iteration, first and last entry follow key order. */
module OrderedMap {

  lemma {:induction false} EmptyOrInhabited(s: set<int>)
    ensures s == {} || exists x :: x in s
  {
    if forall x :: x !in s {
      assert s == {};
    }
  }

  lemma {:induction false} LeastExists(s: set<int>, x: int)
    requires x in s
    ensures exists k | k in s :: forall j | j in s :: k <= j
    decreases s
  {
    if y :| y in s && y < x {
      LeastExists(s - {x}, y);
      var k :| k in s - {x} && forall j | j in s - {x} :: k <= j;
      assert forall j | j in s :: j == x || j in s - {x};
      assert k <= y;
      assert k in s && forall j | j in s :: k <= j;
    }
  }

  lemma {:induction false} GreatestExists(s: set<int>, x: int)
    requires x in s
    ensures exists k | k in s :: forall j | j in s :: j <= k
    decreases s
  {
    if y :| y in s && x < y {
      GreatestExists(s - {x}, y);
      var k :| k in s - {x} && forall j | j in s - {x} :: j <= k;
      assert forall j | j in s :: j == x || j in s - {x};
      assert y <= k;
      assert k in s && forall j | j in s :: j <= k;
    }
  }

  /** The first key of a non-empty map. */
  function Least(s: set<int>): (k: int)
    requires s != {}
    ensures k in s && forall j | j in s :: k <= j
  {
    EmptyOrInhabited(s);
    ghost var x :| x in s;
    LeastExists(s, x);
    var k :| k in s && forall j | j in s :: k <= j;
    k
  }

  /** The last key of a non-empty map. */
  function Greatest(s: set<int>): (k: int)
    requires s != {}
    ensures k in s && forall j | j in s :: j <= k
  {
    EmptyOrInhabited(s);
    ghost var x :| x in s;
    GreatestExists(s, x);
    var k :| k in s && forall j | j in s :: j <= k;
    k
  }

  ghost predicate Increasing(ks: seq<int>) {
    forall i, j | 0 <= i < j < |ks| :: ks[i] < ks[j]
  }

  /** Iteration order of the map: its keys, increasing. */
  function SortedKeys(s: set<nat>): (ks: seq<nat>)
    ensures Increasing(ks)
    ensures forall k: nat :: k in ks <==> k in s
    ensures |ks| == |s|
  {
    if s == {} then [] else
      var k: nat := Least(s);
      assert forall j | j in s - {k} :: k < j;
      [k] + SortedKeys(s - {k})
  }

}
