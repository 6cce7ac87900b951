/** The MongoDB queries the route handlers issue, over a collection held
    as a map from id to document: `find` with a filter, `sort`, the
    `findOne(...).sort({ order: -1 })` that picks the next order number,
    `$pull`, and `skip`/`limit` pagination. */
module Query {
  import opened Common

  predicate Decreasing(s: seq<Id>) {
    forall i, j :: 0 <= i < j < |s| ==> s[i] > s[j]
  }

  /** `Model.find(filter)` over a collection whose ids are all below `n`:
      the ids of the documents that satisfy `keep`, newest (highest id)
      first, each once. */
  function Select<T>(m: map<Id, T>, n: nat, keep: T -> bool): (r: seq<Id>)
    ensures forall id :: id in r <==> id < n && id in m && keep(m[id])
    ensures Decreasing(r)
  {
    if n == 0 then []
    else
      var rest := Select(m, n - 1, keep);
      assert forall k :: 0 <= k < |rest| ==> rest[k] in rest;
      if n - 1 in m && keep(m[n - 1]) then [n - 1] + rest else rest
  }

  /** A strictly decreasing sequence holds each of its elements once. */
  lemma {:induction false} DecreasingOnce(s: seq<Id>)
    requires Decreasing(s)
    ensures forall x :: multiset(s)[x] == if x in s then 1 else 0
  {
    if s != [] {
      DecreasingOnce(s[1..]);
      assert s == [s[0]] + s[1..];
      assert s[0] !in s[1..];
    }
  }

  /** `Model.deleteMany(filter)`: the documents that match go, the others
      stay as they were. */
  function DeleteMany<T>(m: map<Id, T>, matches: T -> bool): (r: map<Id, T>)
    ensures forall id :: id in r <==> id in m && !matches(m[id])
    ensures forall id :: id in r ==> r[id] == m[id]
  {
    map id | id in m && !matches(m[id]) :: m[id]
  }

  /** Ids sorted by a key, ascending. */
  predicate SortedBy(s: seq<Id>, key: Id -> nat) {
    forall i, j :: 0 <= i < j < |s| ==> key(s[i]) <= key(s[j])
  }

  /** `.sort({ order: 1 })`. The order of documents with equal keys is
      not fixed by the database; this one keeps their input order. */
  function SortBy(s: seq<Id>, key: Id -> nat): (r: seq<Id>)
    ensures SortedBy(r, key)
    ensures multiset(r) == multiset(s)
  {
    if s == [] then []
    else
      var t := SortBy(s[1..], key);
      InsertSorted(s[0], t, key);
      assert s == [s[0]] + s[1..];
      Insert(s[0], t, key)
  }

  function Insert(x: Id, s: seq<Id>, key: Id -> nat): (r: seq<Id>)
    ensures multiset(r) == multiset(s) + multiset{x}
  {
    if s == [] then [x]
    else if key(x) <= key(s[0]) then [x] + s
    else
      assert s == [s[0]] + s[1..];
      [s[0]] + Insert(x, s[1..], key)
  }

  /** Every element of `s` has a key of at least `k`. */
  predicate KeysFrom(s: seq<Id>, key: Id -> nat, k: nat) {
    forall i :: 0 <= i < |s| ==> k <= key(s[i])
  }

  lemma {:induction false} InsertLower(x: Id, s: seq<Id>, key: Id -> nat, k: nat)
    requires KeysFrom(s, key, k) && k <= key(x)
    ensures KeysFrom(Insert(x, s, key), key, k)
  {
    if s == [] {
    } else if key(x) <= key(s[0]) {
      var r := [x] + s;
      assert forall i :: 1 <= i < |r| ==> r[i] == s[i - 1];
    } else {
      var t := Insert(x, s[1..], key);
      InsertLower(x, s[1..], key, k);
      var r := [s[0]] + t;
      assert forall i :: 1 <= i < |r| ==> r[i] == t[i - 1];
    }
  }

  lemma {:induction false} InsertSorted(x: Id, s: seq<Id>, key: Id -> nat)
    requires SortedBy(s, key)
    ensures SortedBy(Insert(x, s, key), key)
  {
    if s != [] && key(x) > key(s[0]) {
      InsertSorted(x, s[1..], key);
      InsertLower(x, s[1..], key, key(s[0]));
    }
  }

  /** Sorting keeps exactly the ids it was given. */
  lemma SortMembers(s: seq<Id>, key: Id -> nat)
    ensures forall id :: id in SortBy(s, key) <==> id in s
    ensures |SortBy(s, key)| == |s|
  {
    var r := SortBy(s, key);
    assert forall id :: id in r <==> id in multiset(r);
    assert forall id :: id in s <==> id in multiset(s);
    assert |r| == |multiset(r)| == |multiset(s)| == |s|;
  }

  /** `lastDoc ? lastDoc.order + 1 : 1` with `lastDoc` the sibling of
      highest order: 1 for the first child, otherwise one more than the
      largest order among the siblings. */
  function NextOrder(ids: seq<Id>, key: Id -> nat): (r: nat)
    ensures r >= 1
    ensures forall i :: 0 <= i < |ids| ==> key(ids[i]) < r
    ensures ids == [] ==> r == 1
    ensures ids != [] ==> exists i :: 0 <= i < |ids| && r == key(ids[i]) + 1
  {
    if ids == [] then 1
    else
      var rest := NextOrder(ids[1..], key);
      if ids[1..] == [] || key(ids[0]) + 1 >= rest then key(ids[0]) + 1
      else
        assert exists i :: 1 <= i < |ids| && rest == key(ids[i]) + 1 by {
          var i :| 0 <= i < |ids[1..]| && rest == key(ids[1..][i]) + 1;
          assert ids[1..][i] == ids[i + 1];
        }
        rest
  }

  /** `findOne(filter).sort({ order: -1 })` and then
      `lastDoc ? lastDoc.order + 1 : 1`: one more than the largest key among
      the documents that match, 1 when none does. */
  function NextOrderAmong<T>(m: map<Id, T>, n: nat, keep: T -> bool, key: Id -> nat): (r: nat)
    requires forall id :: id in m ==> id < n
    ensures r >= 1
    ensures forall id :: id in m && keep(m[id]) ==> key(id) < r
    ensures (forall id :: id in m ==> !keep(m[id])) ==> r == 1
    ensures (exists id :: id in m && keep(m[id])) ==> exists id :: id in m && keep(m[id]) && r == key(id) + 1
  {
    var siblings := Select(m, n, keep);
    assert forall id :: id in m && keep(m[id]) ==> exists i :: 0 <= i < |siblings| && siblings[i] == id;
    assert (exists id :: id in m && keep(m[id])) ==> siblings != [];
    NextOrder(siblings, key)
  }

  /** `find(filter).sort({ order: 1 })`: the documents that match, each
      once, ascending by key. */
  function FindSorted<T>(m: map<Id, T>, n: nat, keep: T -> bool, key: Id -> nat): (r: seq<Id>)
    requires forall id :: id in m ==> id < n
    ensures forall id :: id in r <==> id in m && keep(m[id])
    ensures forall id :: multiset(r)[id] <= 1
    ensures SortedBy(r, key)
  {
    var found := Select(m, n, keep);
    DecreasingOnce(found);
    SortMembers(found, key);
    SortBy(found, key)
  }

  /** `$pull: { field: x }`: every occurrence of `x` goes, the other
      entries stay in their order. */
  function Pull(s: seq<Id>, x: Id): (r: seq<Id>)
    ensures x !in r
    ensures forall y :: y != x ==> multiset(r)[y] == multiset(s)[y]
    ensures |r| <= |s|
  {
    if s == [] then []
    else
      var rest := Pull(s[1..], x);
      assert s == [s[0]] + s[1..];
      if s[0] == x then rest else [s[0]] + rest
  }

  /** Pulling an id that is not listed changes nothing. */
  lemma {:induction false} PullAbsent(s: seq<Id>, x: Id)
    requires x !in s
    ensures Pull(s, x) == s
  {
    if s != [] {
      PullAbsent(s[1..], x);
      assert s == [s[0]] + s[1..];
    }
  }

  /** Pushing a new id and then pulling it restores the list. */
  lemma {:induction false} PullPushed(s: seq<Id>, x: Id)
    requires x !in s
    ensures Pull(s + [x], x) == s
  {
    if s == [] {
      assert Pull([x], x) == Pull([], x);
    } else {
      assert (s + [x])[1..] == s[1..] + [x];
      PullPushed(s[1..], x);
      assert s == [s[0]] + s[1..];
    }
  }

  /** `.skip(skip).limit(limit)`; a limit of 0 means no limit. */
  function Page(s: seq<Id>, skip: nat, limit: nat): (r: seq<Id>)
    ensures limit > 0 ==> |r| <= limit
    ensures skip >= |s| ==> r == []
    ensures skip < |s| ==> |r| > 0 && r[0] == s[skip] && (limit == 0 ==> r == s[skip..])
    ensures forall i :: 0 <= i < |r| ==> skip + i < |s| && r[i] == s[skip + i]
    ensures skip < |s| && limit > 0 ==> r == s[skip..if skip + limit <= |s| then skip + limit else |s|]
  {
    if skip >= |s| then []
    else if limit == 0 || skip + limit >= |s| then s[skip..]
    else s[skip..skip + limit]
  }

  /** `Math.ceil(total / limit)` for a positive limit. */
  function CeilDiv(total: nat, limit: nat): (r: nat)
    requires limit > 0
    ensures r * limit >= total
    ensures r == 0 || (r - 1) * limit < total
  {
    (total + limit - 1) / limit
  }
}
