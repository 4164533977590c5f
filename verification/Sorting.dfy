/** ORDER BY: identifiers listed by a key, ascending or descending, ties in any order. */
module Sorting {
  predicate NotAfter(ascending: bool, a: int, b: int) {
    if ascending then a <= b else a >= b
  }

  predicate InOrder(key: map<nat, int>, ascending: bool, a: nat, b: nat) {
    a in key && b in key && NotAfter(ascending, key[a], key[b])
  }

  ghost predicate Lists(list: seq<nat>, ids: set<nat>) {
    && (forall i, j | 0 <= i < j < |list| :: list[i] != list[j])
    && (forall id :: id in list <==> id in ids)
  }

  ghost predicate Sorted(list: seq<nat>, key: map<nat, int>, ascending: bool) {
    forall i, j | 0 <= i < j < |list| :: InOrder(key, ascending, list[i], list[j])
  }

  lemma {:induction false} ListLength(list: seq<nat>, ids: set<nat>)
    requires Lists(list, ids)
    ensures |list| == |ids|
    decreases |list|
  {
    if list == [] {
      assert forall id :: id !in ids;
      assert ids == {};
    } else {
      var last, init := list[|list| - 1], list[..|list| - 1];
      assert list == init + [last];
      ListLength(init, ids - {last});
    }
  }

  method First(ids: set<nat>, key: map<nat, int>, ascending: bool) returns (first: nat)
    requires ids != {} && ids <= key.Keys
    ensures first in ids && forall id | id in ids :: InOrder(key, ascending, first, id)
  {
    first :| first in ids;
    var left := ids - {first};
    while left != {}
      invariant first in ids && left <= ids
      invariant forall id | id in ids && id !in left :: InOrder(key, ascending, first, id)
      decreases left
    {
      var id :| id in left;
      left := left - {id};
      if !InOrder(key, ascending, first, id) {
        first := id;
      }
    }
  }

  method SortByKey(ids: set<nat>, key: map<nat, int>, ascending: bool) returns (list: seq<nat>)
    requires ids <= key.Keys
    ensures Lists(list, ids) && Sorted(list, key, ascending)
  {
    list := [];
    var left := ids;
    while left != {}
      invariant left <= ids
      invariant Lists(list, ids - left) && Sorted(list, key, ascending)
      invariant forall i, id | 0 <= i < |list| && id in left :: InOrder(key, ascending, list[i], id)
      decreases left
    {
      var next := First(left, key, ascending);
      left := left - {next};
      list := list + [next];
    }
    assert ids - left == ids;
  }
}
