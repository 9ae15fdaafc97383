/**
 * The shape of the handlers' SELECT statements: the ids of the rows a WHERE clause
 * keeps, in ascending id order, or newest first for `ORDER BY id DESC`.
 */
module Queries {
  import opened Wrappers
  import opened Schema

  predicate Increasing(xs: seq<Id>)
  {
    forall i, j :: 0 <= i < j < |xs| ==> xs[i] < xs[j]
  }

  predicate Decreasing(xs: seq<Id>)
  {
    forall i, j :: 0 <= i < j < |xs| ==> xs[i] > xs[j]
  }

  /** `SELECT id ... WHERE keep ORDER BY id`: exactly the kept rows, each once, ascending. */
  function Select<T>(rows: seq<T>, keep: T -> bool): (ids: seq<Id>)
    ensures forall id :: id in ids <==> Has(rows, id) && keep(rows[id - 1])
    ensures Increasing(ids)
  {
    if rows == [] then []
    else
      var prev := Select(rows[..|rows| - 1], keep);
      assert forall id :: id in prev ==> id < |rows| && rows[id - 1] == rows[..|rows| - 1][id - 1];
      assert forall k :: 0 <= k < |prev| ==> prev[k] in prev;
      if keep(rows[|rows| - 1]) then prev + [|rows|] else prev
  }

  function Reverse(xs: seq<Id>): (r: seq<Id>)
    ensures |r| == |xs|
    ensures forall i :: 0 <= i < |xs| ==> r[i] == xs[|xs| - 1 - i]
  {
    if xs == [] then [] else [xs[|xs| - 1]] + Reverse(xs[..|xs| - 1])
  }

  /** `ORDER BY id DESC`: the same rows, newest first. */
  function SelectNewestFirst<T>(rows: seq<T>, keep: T -> bool): (ids: seq<Id>)
    ensures forall id :: id in ids <==> Has(rows, id) && keep(rows[id - 1])
    ensures Decreasing(ids)
  {
    var asc := Select(rows, keep);
    var r := Reverse(asc);
    assert forall id :: id in r <==> id in asc by {
      forall id ensures id in r <==> id in asc {
        if id in asc {
          var k :| 0 <= k < |asc| && asc[k] == id;
          assert r[|asc| - 1 - k] == id;
        }
      }
    }
    r
  }

  /** The tail of a newest-first list is the list without its newest id. */
  lemma DecreasingTail(a: seq<Id>)
    requires Decreasing(a) && a != []
    ensures forall x :: x in a[1..] <==> x in a && x != a[0]
  {
    forall x | x in a && x != a[0] ensures x in a[1..] {
      var k :| 0 <= k < |a| && a[k] == x;
      assert a[1..][k - 1] == x;
    }
  }

  /** A newest-first id list is determined by its set of ids: equal filters give equal results. */
  lemma {:induction false} DecreasingSameSet(a: seq<Id>, b: seq<Id>)
    requires Decreasing(a) && Decreasing(b)
    requires forall x :: x in a <==> x in b
    ensures a == b
    decreases |a|
  {
    if b != [] {
      assert b[0] in b;
    }
    if a != [] {
      assert a[0] in a;
      assert a[0] == b[0] by {
        var i :| 0 <= i < |a| && a[i] == b[0];
        var j :| 0 <= j < |b| && b[j] == a[0];
        assert a[0] >= a[i] && b[0] >= b[j];
      }
      DecreasingTail(a);
      DecreasingTail(b);
      DecreasingSameSet(a[1..], b[1..]);
      assert a == [a[0]] + a[1..] && b == [b[0]] + b[1..];
    }
  }

  /** `... WHERE keep ORDER BY id DESC LIMIT 1`: the newest kept row, if any. */
  function Newest<T>(rows: seq<T>, keep: T -> bool): (r: Option<Id>)
    ensures r.None? <==> forall id :: Has(rows, id) ==> !keep(rows[id - 1])
    ensures r.Some? ==> Has(rows, r.value) && keep(rows[r.value - 1])
    ensures r.Some? ==> forall id :: Has(rows, id) && id > r.value ==> !keep(rows[id - 1])
  {
    if rows == [] then None
    else if keep(rows[|rows| - 1]) then
      assert Has(rows, |rows|);
      Some(|rows|)
    else
      var prev := rows[..|rows| - 1];
      var r := Newest(prev, keep);
      assert forall id :: Has(rows, id) && id < |rows| ==> Has(prev, id) && prev[id - 1] == rows[id - 1];
      assert r.None? ==> forall id :: Has(rows, id) ==> !keep(rows[id - 1]) by {
        if r.None? {
          forall id | Has(rows, id) ensures !keep(rows[id - 1]) {
            if id < |rows| {
              assert !keep(prev[id - 1]);
            }
          }
        }
      }
      assert r.Some? ==> forall id :: Has(rows, id) && id > r.value ==> !keep(rows[id - 1]) by {
        if r.Some? {
          forall id | Has(rows, id) && id > r.value ensures !keep(rows[id - 1]) {
            if id < |rows| {
              assert !keep(prev[id - 1]);
            }
          }
        }
      }
      assert r.Some? ==> Has(rows, r.value) && keep(rows[r.value - 1]) by {
        if r.Some? {
          assert prev[r.value - 1] == rows[r.value - 1];
        }
      }
      r
  }

  /** The sort key of the row with that id (ids outside the table sort first). */
  function KeyOf<T>(rows: seq<T>, key: T -> int, id: Id): int
  {
    if Has(rows, id) then key(rows[id - 1]) else 0
  }

  /** The ids are in non-decreasing key order. */
  predicate Ascending<T>(rows: seq<T>, key: T -> int, xs: seq<Id>)
  {
    forall i, j :: 0 <= i < j < |xs| ==> KeyOf(rows, key, xs[i]) <= KeyOf(rows, key, xs[j])
  }

  /** Insert one id into a list sorted by key, after any of equal key. */
  function InsertByKey<T>(rows: seq<T>, key: T -> int, id: Id, xs: seq<Id>): seq<Id>
  {
    if xs == [] then [id]
    else if KeyOf(rows, key, id) < KeyOf(rows, key, xs[0]) then [id] + xs
    else [xs[0]] + InsertByKey(rows, key, id, xs[1..])
  }

  /** `ORDER BY key`: the ids by ascending key, ties in their given order. */
  function SortByKey<T>(rows: seq<T>, key: T -> int, xs: seq<Id>): seq<Id>
  {
    if xs == [] then [] else InsertByKey(rows, key, xs[|xs| - 1], SortByKey(rows, key, xs[..|xs| - 1]))
  }

  /** Inserting adds exactly the one id. */
  lemma {:induction false} InsertByKeyAdds<T>(rows: seq<T>, key: T -> int, id: Id, xs: seq<Id>)
    ensures multiset(InsertByKey(rows, key, id, xs)) == multiset(xs) + multiset{id}
  {
    if xs != [] && KeyOf(rows, key, id) >= KeyOf(rows, key, xs[0]) {
      InsertByKeyAdds(rows, key, id, xs[1..]);
      assert xs == [xs[0]] + xs[1..];
    }
  }

  /** The tail of a sorted list is sorted, and its head is no later than any of it. */
  lemma SortedTail<T>(rows: seq<T>, key: T -> int, xs: seq<Id>)
    requires Ascending(rows, key, xs) && xs != []
    ensures Ascending(rows, key, xs[1..])
    ensures forall x :: x in xs[1..] ==> KeyOf(rows, key, xs[0]) <= KeyOf(rows, key, x)
  {
    var tail := xs[1..];
    forall i, j | 0 <= i < j < |tail| ensures KeyOf(rows, key, tail[i]) <= KeyOf(rows, key, tail[j]) {
      assert tail[i] == xs[i + 1] && tail[j] == xs[j + 1];
    }
    forall x | x in tail ensures KeyOf(rows, key, xs[0]) <= KeyOf(rows, key, x) {
      var k :| 0 <= k < |tail| && tail[k] == x;
      assert tail[k] == xs[k + 1];
    }
  }

  /** A row keyed no later than every row of a sorted list can go in front of it. */
  lemma HeadBelow<T>(rows: seq<T>, key: T -> int, h: Id, rest: seq<Id>)
    requires Ascending(rows, key, rest)
    requires forall x :: x in rest ==> KeyOf(rows, key, h) <= KeyOf(rows, key, x)
    ensures Ascending(rows, key, [h] + rest)
  {
    var r := [h] + rest;
    forall i, j | 0 <= i < j < |r| ensures KeyOf(rows, key, r[i]) <= KeyOf(rows, key, r[j]) {
      assert r[j] == rest[j - 1] && rest[j - 1] in rest;
      if 0 < i {
        assert r[i] == rest[i - 1];
      }
    }
  }

  /** Inserting into a sorted list keeps it sorted. */
  lemma {:induction false} InsertByKeySorted<T>(rows: seq<T>, key: T -> int, id: Id, xs: seq<Id>)
    requires Ascending(rows, key, xs)
    ensures Ascending(rows, key, InsertByKey(rows, key, id, xs))
  {
    if xs == [] {
    } else if KeyOf(rows, key, id) < KeyOf(rows, key, xs[0]) {
      SortedTail(rows, key, xs);
      assert xs == [xs[0]] + xs[1..];
      HeadBelow(rows, key, id, xs);
    } else {
      var tail := xs[1..];
      SortedTail(rows, key, xs);
      InsertByKeySorted(rows, key, id, tail);
      InsertByKeyAdds(rows, key, id, tail);
      var rest := InsertByKey(rows, key, id, tail);
      forall x | x in rest ensures KeyOf(rows, key, xs[0]) <= KeyOf(rows, key, x) {
        assert x in multiset(rest);
        assert x == id || x in multiset(tail);
      }
      HeadBelow(rows, key, xs[0], rest);
    }
  }

  /** Sorting yields a permutation of the ids in non-decreasing key order. */
  lemma SortByKeySorted<T>(rows: seq<T>, key: T -> int, xs: seq<Id>)
    ensures Ascending(rows, key, SortByKey(rows, key, xs))
    ensures multiset(SortByKey(rows, key, xs)) == multiset(xs)
  {
    SortByKeyAscending(rows, key, xs);
    SortByKeyPermutes(rows, key, xs);
  }

  lemma {:induction false} SortByKeyAscending<T>(rows: seq<T>, key: T -> int, xs: seq<Id>)
    ensures Ascending(rows, key, SortByKey(rows, key, xs))
  {
    if xs != [] {
      var front := xs[..|xs| - 1];
      SortByKeyAscending(rows, key, front);
      InsertByKeySorted(rows, key, xs[|xs| - 1], SortByKey(rows, key, front));
    }
  }

  lemma {:induction false} SortByKeyPermutes<T>(rows: seq<T>, key: T -> int, xs: seq<Id>)
    ensures multiset(SortByKey(rows, key, xs)) == multiset(xs)
  {
    if xs != [] {
      var front := xs[..|xs| - 1];
      SortByKeyPermutes(rows, key, front);
      InsertByKeyAdds(rows, key, xs[|xs| - 1], SortByKey(rows, key, front));
      assert xs == front + [xs[|xs| - 1]];
    }
  }

  /** An increasing list holds each of its ids once. */
  lemma IncreasingOnce(xs: seq<Id>, x: Id)
    requires Increasing(xs) && x in xs
    ensures multiset(xs)[x] == 1
  {
    var k :| 0 <= k < |xs| && xs[k] == x;
    assert xs == xs[..k] + [x] + xs[k + 1..];
    assert x !in xs[..k];
    assert x !in xs[k + 1..];
  }

  /**
   * `SELECT id ... WHERE keep ORDER BY key`: exactly the kept rows, each once, by
   * ascending key.
   */
  function SelectByKey<T>(rows: seq<T>, keep: T -> bool, key: T -> int): (r: seq<Id>)
    ensures forall id :: id in r <==> Has(rows, id) && keep(rows[id - 1])
    ensures forall id :: multiset(r)[id] <= 1
    ensures Ascending(rows, key, r)
  {
    var ids := Select(rows, keep);
    SortByKeySorted(rows, key, ids);
    var sorted := SortByKey(rows, key, ids);
    assert forall id :: id in sorted <==> id in ids by {
      forall id ensures id in sorted <==> id in ids {
        assert id in sorted <==> id in multiset(sorted);
      }
    }
    forall id ensures multiset(sorted)[id] <= 1 {
      if id in ids {
        IncreasingOnce(ids, id);
      }
    }
    sorted
  }

  /** `SELECT ... WHERE keep` with `.get()` and no ORDER BY: the kept row with the lowest id. */
  function First<T>(rows: seq<T>, keep: T -> bool): (r: Option<Id>)
    ensures r.None? <==> forall id :: Has(rows, id) ==> !keep(rows[id - 1])
    ensures r.Some? ==> Has(rows, r.value) && keep(rows[r.value - 1])
    ensures r.Some? ==> forall id :: Has(rows, id) && id < r.value ==> !keep(rows[id - 1])
  {
    var ids := Select(rows, keep);
    if ids == [] then None
    else
      assert ids[0] in ids;
      assert forall id :: Has(rows, id) && keep(rows[id - 1]) ==> id in ids;
      assert forall id :: id in ids && id != ids[0] ==> ids[0] < id by {
        forall id | id in ids && id != ids[0] ensures ids[0] < id {
          var k :| 0 <= k < |ids| && ids[k] == id;
        }
      }
      Some(ids[0])
  }
}
