/** ORDER BY two columns and the id, and LIMIT 1. */
module Ordering {
  import opened Collections

  datatype Key = Key(first: int, second: int, id: nat)

  predicate Less(k: Key, l: Key) {
    k.first < l.first || (k.first == l.first && (k.second < l.second || (k.second == l.second && k.id < l.id)))
  }

  predicate IsLeast(k: Key, s: set<Key>) {
    k in s && forall l :: l in s ==> l == k || Less(k, l)
  }

  lemma LeastExists(s: set<Key>)
    requires s != {}
    ensures exists k :: IsLeast(k, s)
  {
    var k :| k in s;
    var rest := s - {k};
    if rest == {} {
      assert s == {k};
      assert IsLeast(k, s);
    } else {
      LeastExists(rest);
      var m :| IsLeast(m, rest);
      assert s == rest + {k};
      assert IsLeast(if Less(k, m) then k else m, s);
    }
  }

  function Least(s: set<Key>): (k: Key)
    requires s != {}
    ensures IsLeast(k, s)
  {
    LeastExists(s);
    var k :| IsLeast(k, s);
    k
  }

  predicate Ascending(q: seq<Key>) {
    forall i, j :: 0 <= i < j < |q| ==> Less(q[i], q[j])
  }

  function Sorted(s: set<Key>): (q: seq<Key>)
    ensures Ascending(q) && |q| == |s|
    ensures forall k :: k in q <==> k in s
  {
    if s == {} then [] else var k := Least(s); [k] + Sorted(s - {k})
  }

  /** The ids of a table's rows in the order of their keys. */
  function SortedIds(s: set<Key>): (r: seq<nat>)
    requires forall k, l :: k in s && l in s && k.id == l.id ==> k == l
    ensures Distinct(r)
    ensures forall k :: k in s ==> k.id in r
    ensures forall id :: id in r ==> exists k :: k in s && k.id == id
  {
    var q := Sorted(s);
    var r := seq(|q|, i requires 0 <= i < |q| => q[i].id);
    assert forall i :: 0 <= i < |q| ==> q[i] in s;
    assert forall k | k in s :: k.id in r by {
      forall k | k in s ensures k.id in r {
        var i :| 0 <= i < |q| && q[i] == k;
        assert r[i] == k.id;
      }
    }
    assert Distinct(r) by {
      forall i, j | 0 <= i < j < |r| ensures r[i] != r[j] {
        assert Less(q[i], q[j]);
      }
    }
    r
  }

  /** The ids come in the order of the keys. */
  lemma SortedIdsAscend(s: set<Key>, k: Key, l: Key, i: nat, j: nat)
    requires forall k, l :: k in s && l in s && k.id == l.id ==> k == l
    requires i < j < |SortedIds(s)| && k in s && l in s && SortedIds(s)[i] == k.id && SortedIds(s)[j] == l.id
    ensures Less(k, l)
  {
    var q := Sorted(s);
    assert q[i] in s && q[j] in s && q[i] == k && q[j] == l;
  }
}
