/** The list operations every admin page performs on its local copy of a
    table after the server answers: append the created record, replace the
    updated record (`list.map(x => x.id === id ? updated : x)`), drop the
    deleted one (`list.filter(x => x.id !== id)`), search
    (`list.filter(pred)`), and the "most recent first" ordering of the staff
    page's department picker. Records are generic; `id` reads a record's id. */
module ListOps {
  import opened Wrappers

  /** `xs.filter(p)`: the elements satisfying `p`, in their original order. */
  function Filter<T>(xs: seq<T>, p: T -> bool): (r: seq<T>)
    ensures |r| <= |xs|
    ensures forall i :: 0 <= i < |r| ==> r[i] in xs && p(r[i])
    ensures forall i :: 0 <= i < |xs| && p(xs[i]) ==> xs[i] in r
  {
    if xs == [] then []
    else if p(xs[0]) then [xs[0]] + Filter(xs[1..], p)
    else Filter(xs[1..], p)
  }

  /** A filter that every element passes changes nothing. */
  lemma {:induction false} FilterKeepsAll<T>(xs: seq<T>, p: T -> bool)
    requires forall i :: 0 <= i < |xs| ==> p(xs[i])
    ensures Filter(xs, p) == xs
  {
    if xs != [] {
      FilterKeepsAll(xs[1..], p);
    }
  }

  /** Two predicates that agree on every element filter alike. */
  lemma {:induction false} FilterAgreeing<T>(xs: seq<T>, p: T -> bool, q: T -> bool)
    requires forall i :: 0 <= i < |xs| ==> p(xs[i]) == q(xs[i])
    ensures Filter(xs, p) == Filter(xs, q)
  {
    if xs != [] {
      FilterAgreeing(xs[1..], p, q);
    }
  }

  /** Filtering a concatenation filters each part: appending a record and
      then searching is searching and then appending the record if it
      matches. */
  lemma {:induction false} FilterAppend<T>(xs: seq<T>, ys: seq<T>, p: T -> bool)
    ensures Filter(xs + ys, p) == Filter(xs, p) + Filter(ys, p)
  {
    if xs == [] {
      assert xs + ys == ys;
    } else {
      assert (xs + ys)[1..] == xs[1..] + ys;
      FilterAppend(xs[1..], ys, p);
    }
  }

  /** No two elements share a key (an id, an email, a (staff, date) pair). */
  predicate UniqueKeys<T, K(==)>(xs: seq<T>, key: T -> K) {
    forall i, j :: 0 <= i < j < |xs| ==> key(xs[i]) != key(xs[j])
  }

  predicate HasKey<T, K(==)>(xs: seq<T>, key: T -> K, k: K) {
    exists i :: 0 <= i < |xs| && key(xs[i]) == k
  }

  /** Filtering never creates a clash of keys. */
  lemma {:induction false} FilterKeepsUniqueKeys<T, K>(xs: seq<T>, p: T -> bool, key: T -> K)
    requires UniqueKeys(xs, key)
    ensures UniqueKeys(Filter(xs, p), key)
  {
    if xs != [] {
      var tail := xs[1..];
      assert UniqueKeys(tail, key) by {
        forall i, j | 0 <= i < j < |tail|
          ensures key(tail[i]) != key(tail[j])
        {
          assert tail[i] == xs[i + 1] && tail[j] == xs[j + 1];
        }
      }
      FilterKeepsUniqueKeys(tail, p, key);
      if p(xs[0]) {
        var r := Filter(xs, p);
        var rest := Filter(tail, p);
        assert r == [xs[0]] + rest;
        forall i, j | 0 <= i < j < |r|
          ensures key(r[i]) != key(r[j])
        {
          if i == 0 {
            assert r[j] == rest[j - 1];
            assert rest[j - 1] in tail;
            var h :| 0 <= h < |tail| && tail[h] == rest[j - 1];
            assert tail[h] == xs[h + 1];
          } else {
            assert r[i] == rest[i - 1] && r[j] == rest[j - 1];
          }
        }
      }
    }
  }

  /** `xs[j]` is the first element of `xs` with id `k`. */
  predicate FirstWithId<T>(xs: seq<T>, id: T -> int, k: int, j: int) {
    0 <= j < |xs| && id(xs[j]) == k && forall i :: 0 <= i < j ==> id(xs[i]) != k
  }

  /** `xs.find(x => id(x) === k)`: the first element with that id. */
  function FindById<T>(xs: seq<T>, id: T -> int, k: int): (r: Option<T>)
    ensures r.None? <==> forall i :: 0 <= i < |xs| ==> id(xs[i]) != k
    ensures r.Some? ==> exists j :: FirstWithId(xs, id, k, j) && xs[j] == r.value
  {
    if xs == [] then None
    else if id(xs[0]) == k then
      assert FirstWithId(xs, id, k, 0);
      Some(xs[0])
    else
      var r := FindById(xs[1..], id, k);
      FirstWithIdShift(xs, id, k, r);
      r
  }

  /** A first match in the tail, behind a head with another id, is a first
      match in the whole list. */
  lemma FirstWithIdShift<T>(xs: seq<T>, id: T -> int, k: int, r: Option<T>)
    requires xs != [] && id(xs[0]) != k
    requires r.Some? ==> exists j :: FirstWithId(xs[1..], id, k, j) && xs[1..][j] == r.value
    ensures r.Some? ==> exists j :: FirstWithId(xs, id, k, j) && xs[j] == r.value
  {
    if r.Some? {
      var j :| FirstWithId(xs[1..], id, k, j) && xs[1..][j] == r.value;
      forall i | 0 <= i < j + 1
        ensures id(xs[i]) != k
      {
        if i > 0 {
          assert xs[i] == xs[1..][i - 1];
        }
      }
      assert FirstWithId(xs, id, k, j + 1);
    }
  }

  /** After a successful create: the returned record goes at the end. */
  function Append<T>(xs: seq<T>, y: T): (r: seq<T>)
    ensures |r| == |xs| + 1 && r[..|xs|] == xs && r[|xs|] == y
  {
    xs + [y]
  }

  lemma AppendKeepsUniqueKeys<T, K>(xs: seq<T>, id: T -> K, y: T)
    requires UniqueKeys(xs, id) && !HasKey(xs, id, id(y))
    ensures UniqueKeys(Append(xs, y), id)
  {
    var r := Append(xs, y);
    forall i, j | 0 <= i < j < |r|
      ensures id(r[i]) != id(r[j])
    {
      if j == |xs| {
        assert r[i] == xs[i];
      } else {
        assert r[i] == xs[i] && r[j] == xs[j];
      }
    }
  }

  /** After a successful update: every element whose id is `k` becomes `y`,
      every other element stays where it was. */
  function ReplaceById<T>(xs: seq<T>, id: T -> int, k: int, y: T): (r: seq<T>)
    ensures |r| == |xs|
    ensures forall i :: 0 <= i < |xs| && id(xs[i]) != k ==> r[i] == xs[i]
    ensures forall i :: 0 <= i < |xs| && id(xs[i]) == k ==> r[i] == y
  {
    if xs == [] then []
    else [if id(xs[0]) == k then y else xs[0]] + ReplaceById(xs[1..], id, k, y)
  }

  /** After a successful delete: the elements whose id is not `k`. */
  function RemoveById<T>(xs: seq<T>, id: T -> int, k: int): (r: seq<T>)
    ensures forall i :: 0 <= i < |r| ==> r[i] in xs && id(r[i]) != k
    ensures forall i :: 0 <= i < |xs| && id(xs[i]) != k ==> xs[i] in r
  {
    Filter(xs, x => id(x) != k)
  }

  /** Deleting keeps the table's order and each remaining record once: the
      result for a list with one more record at the end is the result for
      the list, followed by that record unless it is the deleted one. */
  lemma RemoveByIdAppend<T>(xs: seq<T>, x: T, id: T -> int, k: int)
    ensures RemoveById([], id, k) == []
    ensures RemoveById(xs + [x], id, k) == RemoveById(xs, id, k) + (if id(x) != k then [x] else [])
  {
    FilterAppend(xs, [x], y => id(y) != k);
    assert [x][1..] == [];
  }

  /** Replacing a record that is not in the list leaves the list alone. */
  lemma {:induction false} ReplaceAbsent<T>(xs: seq<T>, id: T -> int, k: int, y: T)
    requires !HasKey(xs, id, k)
    ensures ReplaceById(xs, id, k, y) == xs
  {
    if xs != [] {
      assert !HasKey(xs[1..], id, k) by {
        forall i | 0 <= i < |xs| - 1
          ensures id(xs[1..][i]) != k
        {
          assert xs[1..][i] == xs[i + 1];
        }
      }
      ReplaceAbsent(xs[1..], id, k, y);
    }
  }

  /** Deleting a record that is not in the list leaves the list alone. */
  lemma RemoveAbsent<T>(xs: seq<T>, id: T -> int, k: int)
    requires !HasKey(xs, id, k)
    ensures RemoveById(xs, id, k) == xs
  {
    FilterKeepsAll(xs, x => id(x) != k);
  }

  /** Deleting twice is deleting once. */
  lemma RemoveIdempotent<T>(xs: seq<T>, id: T -> int, k: int)
    ensures RemoveById(RemoveById(xs, id, k), id, k) == RemoveById(xs, id, k)
  {
    RemoveAbsent(RemoveById(xs, id, k), id, k);
  }

  /** Updating a record and then deleting it leaves the same list as deleting
      it straight away: an update touches nothing but the edited record. */
  lemma {:induction false} RemoveAfterReplace<T>(xs: seq<T>, id: T -> int, k: int, y: T)
    requires id(y) == k
    ensures RemoveById(ReplaceById(xs, id, k, y), id, k) == RemoveById(xs, id, k)
  {
    if xs != [] {
      var r := ReplaceById(xs, id, k, y);
      assert r[1..] == ReplaceById(xs[1..], id, k, y);
      RemoveAfterReplace(xs[1..], id, k, y);
    }
  }

  /** An update whose result keeps the edited id keeps the ids unique. */
  lemma ReplaceKeepsUniqueKeys<T>(xs: seq<T>, id: T -> int, k: int, y: T)
    requires UniqueKeys(xs, id) && id(y) == k
    ensures UniqueKeys(ReplaceById(xs, id, k, y), id)
  {
    var r := ReplaceById(xs, id, k, y);
    assert forall i :: 0 <= i < |xs| ==> id(r[i]) == id(xs[i]);
  }

  /** In a list with unique ids, deleting a present id removes exactly one
      element. */
  lemma {:induction false} RemoveOneOfUnique<T>(xs: seq<T>, id: T -> int, k: int)
    requires UniqueKeys(xs, id) && HasKey(xs, id, k)
    ensures |RemoveById(xs, id, k)| == |xs| - 1
  {
    var tail := xs[1..];
    assert UniqueKeys(tail, id) by {
      forall i, j | 0 <= i < j < |tail|
        ensures id(tail[i]) != id(tail[j])
      {
        assert tail[i] == xs[i + 1] && tail[j] == xs[j + 1];
      }
    }
    if id(xs[0]) == k {
      assert !HasKey(tail, id, k) by {
        forall i | 0 <= i < |tail|
          ensures id(tail[i]) != k
        {
          assert tail[i] == xs[i + 1];
        }
      }
      RemoveAbsent(tail, id, k);
    } else {
      var i :| 0 <= i < |xs| && id(xs[i]) == k;
      assert id(tail[i - 1]) == k;
      RemoveOneOfUnique(tail, id, k);
    }
  }

  // ---------------------------------------------------------------------
  // Ordering by descending id

  predicate SortedByIdDesc<T>(xs: seq<T>, id: T -> int) {
    forall i, j :: 0 <= i < j < |xs| ==> id(xs[i]) >= id(xs[j])
  }

  /** A sorted list stays sorted with an element in front whose id is at
      least every id in it. */
  lemma ConsSorted<T>(h: T, t: seq<T>, id: T -> int)
    requires SortedByIdDesc(t, id)
    requires forall k :: 0 <= k < |t| ==> id(t[k]) <= id(h)
    ensures SortedByIdDesc([h] + t, id)
  {
    var r := [h] + t;
    forall i, j | 0 <= i < j < |r|
      ensures id(r[i]) >= id(r[j])
    {
      if i > 0 {
        assert r[i] == t[i - 1] && r[j] == t[j - 1];
      } else {
        assert r[j] == t[j - 1];
      }
    }
  }

  /** Puts `x` into a list sorted by descending id, ahead of the elements
      whose id is not larger than its own. */
  function InsertByIdDesc<T>(x: T, xs: seq<T>, id: T -> int): (r: seq<T>)
    requires SortedByIdDesc(xs, id)
    ensures SortedByIdDesc(r, id)
    ensures multiset(r) == multiset(xs) + multiset{x}
  {
    if xs == [] || id(x) >= id(xs[0]) then
      ConsSorted(x, xs, id);
      [x] + xs
    else
      var rest := InsertByIdDesc(x, xs[1..], id);
      assert xs == [xs[0]] + xs[1..];
      InsertedBelowHead(x, xs, id, rest);
      ConsSorted(xs[0], rest, id);
      [xs[0]] + rest
  }

  /** Every element of the rest, the tail with `x` put in, has an id no
      larger than the head's. */
  lemma InsertedBelowHead<T>(x: T, xs: seq<T>, id: T -> int, rest: seq<T>)
    requires SortedByIdDesc(xs, id) && xs != [] && id(x) < id(xs[0])
    requires multiset(rest) == multiset(xs[1..]) + multiset{x}
    ensures forall k :: 0 <= k < |rest| ==> id(rest[k]) <= id(xs[0])
  {
    forall k | 0 <= k < |rest|
      ensures id(rest[k]) <= id(xs[0])
    {
      assert rest[k] in multiset(rest);
      if rest[k] != x {
        assert rest[k] in multiset(xs[1..]);
        var h :| 0 <= h < |xs[1..]| && xs[1..][h] == rest[k];
        assert xs[h + 1] == rest[k];
      }
    }
  }

  /** `xs.sort((a, b) => id(b) - id(a))`: the same elements, highest id first. */
  function SortByIdDesc<T>(xs: seq<T>, id: T -> int): (r: seq<T>)
    ensures SortedByIdDesc(r, id)
    ensures multiset(r) == multiset(xs)
    ensures |r| == |xs|
  {
    if xs == [] then []
    else
      assert xs == [xs[0]] + xs[1..];
      InsertByIdDesc(xs[0], SortByIdDesc(xs[1..], id), id)
  }

  /** `xs.sort(...).slice(0, n)` with the comparator above: at most `n`
      elements of `xs`, highest id first, and an element of `xs` whose id
      beats a kept one's is itself kept. */
  function TopByIdDesc<T>(xs: seq<T>, id: T -> int, n: nat): (r: seq<T>)
    ensures |r| == if |xs| < n then |xs| else n
    ensures SortedByIdDesc(r, id)
    ensures multiset(r) <= multiset(xs)
    ensures forall i, j :: 0 <= i < |xs| && 0 <= j < |r| && id(xs[i]) > id(r[j]) ==> xs[i] in r
  {
    var m := if |xs| < n then |xs| else n;
    PrefixOfSortedKeepsHighest(xs, id, m);
    SortByIdDesc(xs, id)[..m]
  }

  lemma PrefixOfSortedKeepsHighest<T>(xs: seq<T>, id: T -> int, m: nat)
    requires m <= |xs|
    ensures var r := SortByIdDesc(xs, id)[..m];
      && multiset(r) <= multiset(xs)
      && forall i, j :: 0 <= i < |xs| && 0 <= j < |r| && id(xs[i]) > id(r[j]) ==> xs[i] in r
  {
    var sorted := SortByIdDesc(xs, id);
    var r := sorted[..m];
    assert sorted == r + sorted[m..];
    assert multiset(sorted) == multiset(r) + multiset(sorted[m..]);
    forall i, j | 0 <= i < |xs| && 0 <= j < |r| && id(xs[i]) > id(r[j])
      ensures xs[i] in r
    {
      assert xs[i] in multiset(sorted);
      assert xs[i] in sorted;
      var h :| 0 <= h < |sorted| && sorted[h] == xs[i];
      assert sorted[j] == r[j];
      assert h < m;
      assert r[h] == xs[i];
    }
  }
}
