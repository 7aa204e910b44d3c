/** The buffer updaters the client runs on every inbound event:
    `prev.some(x => x.id === m.id) ? prev : [...prev, m].sort(cmp)` and
    `prev.filter(x => x.id !== id)`.

    `Array.prototype.sort` is stable, so sorting by a numeric key with the
    comparator `(a, b) => key(b) - key(a)` puts larger keys first and keeps
    equal keys in their original order.  `SortBy` is that stable sort, written
    as an insertion sort.  An ascending sort (`a.created_at - b.created_at`) is
    `SortBy` on the negated key. */
module Ordering {

  /** Larger keys first. */
  ghost predicate SortedBy<T>(s: seq<T>, key: T -> int) {
    forall i, j :: 0 <= i < j < |s| ==> key(s[i]) >= key(s[j])
  }

  /** How many leading elements of `s` have a key at least `key(x)`. */
  function InsertionPoint<T>(s: seq<T>, x: T, key: T -> int): (k: nat)
    ensures k <= |s|
    ensures forall i :: 0 <= i < k ==> key(s[i]) >= key(x)
    ensures k < |s| ==> key(s[k]) < key(x)
  {
    if s == [] || key(s[0]) < key(x) then 0 else 1 + InsertionPoint(s[1..], x, key)
  }

  /** Puts `x` after the leading elements whose key is at least `key(x)`:
      one step of the stable insertion sort. */
  function Insert<T>(s: seq<T>, x: T, key: T -> int): seq<T> {
    var k := InsertionPoint(s, x, key);
    s[..k] + [x] + s[k..]
  }

  lemma {:induction false} InsertMultiset<T>(s: seq<T>, x: T, key: T -> int)
    ensures multiset(Insert(s, x, key)) == multiset(s) + multiset{x}
  {
    var k := InsertionPoint(s, x, key);
    assert s == s[..k] + s[k..];
  }

  /** Where each element of `Insert(s, x, key)` comes from. */
  lemma InsertIndex<T>(s: seq<T>, x: T, key: T -> int, i: int)
    requires 0 <= i <= |s|
    ensures |Insert(s, x, key)| == |s| + 1
    ensures var k := InsertionPoint(s, x, key);
            Insert(s, x, key)[i] == if i < k then s[i] else if i == k then x else s[i - 1]
  {
  }

  /** On a sorted sequence the insertion point separates the elements at
      least as large as `x` from the smaller ones, so the result is sorted. */
  lemma {:induction false} InsertSorted<T>(s: seq<T>, x: T, key: T -> int)
    requires SortedBy(s, key)
    ensures forall i :: InsertionPoint(s, x, key) <= i < |s| ==> key(s[i]) < key(x)
    ensures SortedBy(Insert(s, x, key), key)
  {
    var k := InsertionPoint(s, x, key);
    var r := Insert(s, x, key);
    assert forall i :: k <= i < |s| ==> key(s[i]) < key(x) by {
      forall i | k <= i < |s| ensures key(s[i]) < key(x) {
        assert key(s[k]) >= key(s[i]);
      }
    }
    forall i, j | 0 <= i < j < |r| ensures key(r[i]) >= key(r[j]) {
      InsertIndex(s, x, key, i);
      InsertIndex(s, x, key, j);
    }
  }

  /** The stable sort, larger keys first. */
  function SortBy<T>(s: seq<T>, key: T -> int): (r: seq<T>)
    ensures multiset(r) == multiset(s)
  {
    if s == [] then []
    else
      var init, x := s[..|s| - 1], s[|s| - 1];
      assert s == init + [x];
      var sorted := SortBy(init, key);
      InsertMultiset(sorted, x, key);
      Insert(sorted, x, key)
  }

  /** `SortBy` orders by key, larger first. */
  lemma {:induction false} SortByOrders<T>(s: seq<T>, key: T -> int)
    ensures SortedBy(SortBy(s, key), key)
  {
    if s != [] {
      var init := s[..|s| - 1];
      SortByOrders(init, key);
      InsertSorted(SortBy(init, key), s[|s| - 1], key);
    }
  }

  lemma {:induction false} InsertionPointPastAll<T>(s: seq<T>, x: T, key: T -> int)
    requires forall i :: 0 <= i < |s| ==> key(s[i]) >= key(x)
    ensures InsertionPoint(s, x, key) == |s|
  {
    if s != [] {
      InsertionPointPastAll(s[1..], x, key);
    }
  }

  /** Dropping the last element of a sorted sequence leaves it sorted, above
      the dropped element. */
  lemma SortedInit<T>(s: seq<T>, init: seq<T>, key: T -> int)
    requires SortedBy(s, key) && s != [] && init == s[..|s| - 1]
    ensures SortedBy(init, key)
    ensures forall i :: 0 <= i < |init| ==> key(init[i]) >= key(s[|s| - 1])
  {
    forall i, j | 0 <= i < j < |init| ensures key(init[i]) >= key(init[j]) {
      assert init[i] == s[i] && init[j] == s[j];
    }
  }

  lemma InitLast<T>(s: seq<T>)
    requires s != []
    ensures s == s[..|s| - 1] + [s[|s| - 1]]
  {
  }

  /** Sorting what is already sorted changes nothing. */
  lemma {:induction false} SortBySorted<T>(s: seq<T>, key: T -> int)
    requires SortedBy(s, key)
    ensures SortBy(s, key) == s
  {
    if s != [] {
      var init, x := s[..|s| - 1], s[|s| - 1];
      InitLast(s);
      SortedInit(s, init, key);
      SortBySorted(init, key);
      InsertionPointPastAll(init, x, key);
      assert init[..|init|] == init && init[|init|..] == [];
    }
  }

  // ---------------------------------------------------------------------
  // Identity-based deduplication

  predicate HasId<T>(s: seq<T>, v: string, id: T -> string) {
    exists i :: 0 <= i < |s| && id(s[i]) == v
  }

  ghost predicate UniqueIds<T>(s: seq<T>, id: T -> string) {
    forall i, j :: 0 <= i < j < |s| ==> id(s[i]) != id(s[j])
  }

  /** The updater of an inbound event: a known id leaves the buffer as it
      is, a new one is appended and the buffer re-sorted. */
  function Accept<T>(prev: seq<T>, x: T, id: T -> string, key: T -> int): seq<T> {
    if HasId(prev, id(x), id) then prev else SortBy(prev + [x], key)
  }

  /** What a new element does to a buffer that is sorted and free of
      duplicate ids: it lands right after the elements whose key is at least
      its own, and the buffer stays sorted and free of duplicates. */
  lemma {:induction false} AcceptNew<T>(prev: seq<T>, x: T, id: T -> string, key: T -> int)
    requires SortedBy(prev, key) && UniqueIds(prev, id)
    requires !HasId(prev, id(x), id)
    ensures Accept(prev, x, id, key) == Insert(prev, x, key)
    ensures SortedBy(Accept(prev, x, id, key), key)
    ensures UniqueIds(Accept(prev, x, id, key), id)
  {
    assert (prev + [x])[..|prev|] == prev;
    SortBySorted(prev, key);
    InsertSorted(prev, x, key);
    var r := Insert(prev, x, key);
    forall i, j | 0 <= i < j < |r| ensures id(r[i]) != id(r[j]) {
      InsertIndex(prev, x, key, i);
      InsertIndex(prev, x, key, j);
    }
  }

  /** A delivery adds exactly the new element, or nothing when its id is
      already buffered; either way the id is buffered afterwards. */
  lemma {:induction false} AcceptContents<T>(prev: seq<T>, x: T, id: T -> string, key: T -> int)
    ensures HasId(Accept(prev, x, id, key), id(x), id)
    ensures multiset(Accept(prev, x, id, key))
              == if HasId(prev, id(x), id) then multiset(prev) else multiset(prev) + multiset{x}
  {
    if !HasId(prev, id(x), id) {
      var r := SortBy(prev + [x], key);
      assert x in multiset(prev + [x]);
      assert x in multiset(r);
      var i :| 0 <= i < |r| && r[i] == x;
      assert HasId(r, id(x), id);
    }
  }

  /** The buffer invariant (sorted, no duplicate ids) survives every delivery. */
  lemma {:induction false} AcceptKeepsInvariant<T>(prev: seq<T>, x: T, id: T -> string, key: T -> int)
    requires SortedBy(prev, key) && UniqueIds(prev, id)
    ensures SortedBy(Accept(prev, x, id, key), key)
    ensures UniqueIds(Accept(prev, x, id, key), id)
  {
    if !HasId(prev, id(x), id) {
      AcceptNew(prev, x, id, key);
    }
  }

  /** Delivering the same event again changes nothing. */
  lemma {:induction false} AcceptIdempotent<T>(prev: seq<T>, x: T, id: T -> string, key: T -> int)
    ensures Accept(Accept(prev, x, id, key), x, id, key) == Accept(prev, x, id, key)
  {
    AcceptContents(prev, x, id, key);
  }

  /** Delivers `xs` one after the other. */
  function AcceptAll<T>(prev: seq<T>, xs: seq<T>, id: T -> string, key: T -> int): seq<T>
    decreases |xs|
  {
    if xs == [] then prev else AcceptAll(Accept(prev, xs[0], id, key), xs[1..], id, key)
  }

  function Repeat<T>(x: T, n: nat): (r: seq<T>)
    ensures |r| == n
  {
    if n == 0 then [] else [x] + Repeat(x, n - 1)
  }

  /** N deliveries of one event leave the same buffer as one delivery. */
  lemma {:induction false} AcceptRepeated<T>(prev: seq<T>, x: T, n: nat, id: T -> string, key: T -> int)
    requires n >= 1
    decreases n
    ensures AcceptAll(prev, Repeat(x, n), id, key) == Accept(prev, x, id, key)
  {
    var xs := Repeat(x, n);
    var once := Accept(prev, x, id, key);
    assert xs[0] == x && xs[1..] == Repeat(x, n - 1);
    assert AcceptAll(prev, xs, id, key) == AcceptAll(once, Repeat(x, n - 1), id, key);
    if n > 1 {
      AcceptRepeated(once, x, n - 1, id, key);
      AcceptIdempotent(prev, x, id, key);
    }
  }

  /** Two buffers with the same elements hold the same ids. */
  lemma SameIds<T>(a: seq<T>, b: seq<T>, v: string, id: T -> string)
    requires multiset(a) == multiset(b)
    ensures HasId(a, v, id) <==> HasId(b, v, id)
  {
    if HasId(a, v, id) {
      var i :| 0 <= i < |a| && id(a[i]) == v;
      assert a[i] in multiset(b);
      var j :| 0 <= j < |b| && b[j] == a[i];
    }
    if HasId(b, v, id) {
      var j :| 0 <= j < |b| && id(b[j]) == v;
      assert b[j] in multiset(a);
      var i :| 0 <= i < |a| && a[i] == b[j];
    }
  }

  /** After a delivery the buffer holds the ids it held and the delivered one. */
  lemma AcceptIds<T>(prev: seq<T>, x: T, v: string, id: T -> string, key: T -> int)
    ensures HasId(Accept(prev, x, id, key), v, id) <==> HasId(prev, v, id) || id(x) == v
  {
    if !HasId(prev, id(x), id) {
      var r := SortBy(prev + [x], key);
      SameIds(r, prev + [x], v, id);
      if HasId(prev + [x], v, id) && !HasId(prev, v, id) {
        var i :| 0 <= i < |prev + [x]| && id((prev + [x])[i]) == v;
        assert i == |prev|;
      }
      if HasId(prev, v, id) {
        var i :| 0 <= i < |prev| && id(prev[i]) == v;
        assert (prev + [x])[i] == prev[i];
      }
      assert (prev + [x])[|prev|] == x;
    } else if id(x) == v {
      assert HasId(prev, v, id);
    }
  }

  /** After a run of deliveries the buffer holds exactly the ids it held
      and those delivered. */
  lemma {:induction false} AcceptAllIds<T>(prev: seq<T>, xs: seq<T>, v: string, id: T -> string, key: T -> int)
    ensures HasId(AcceptAll(prev, xs, id, key), v, id) <==> HasId(prev, v, id) || HasId(xs, v, id)
    decreases |xs|
  {
    if xs != [] {
      AcceptIds(prev, xs[0], v, id, key);
      AcceptAllIds(Accept(prev, xs[0], id, key), xs[1..], v, id, key);
      if HasId(xs, v, id) && id(xs[0]) != v {
        var i :| 0 <= i < |xs| && id(xs[i]) == v;
        assert xs[1..][i - 1] == xs[i];
      }
      if HasId(xs[1..], v, id) {
        var i :| 0 <= i < |xs[1..]| && id(xs[1..][i]) == v;
        assert xs[i + 1] == xs[1..][i];
      }
    }
  }

  /** `s.filter(y => id(y) !== v)` */
  function DropId<T>(s: seq<T>, v: string, id: T -> string): (r: seq<T>)
    ensures |r| <= |s|
  {
    if s == [] then []
    else if id(s[0]) == v then DropId(s[1..], v, id)
    else [s[0]] + DropId(s[1..], v, id)
  }

  /** Exactly the elements with id `v` go, and nothing new appears. */
  lemma {:induction false} DropRemoves<T>(s: seq<T>, v: string, id: T -> string)
    ensures !HasId(DropId(s, v, id), v, id)
    ensures forall j :: 0 <= j < |DropId(s, v, id)| ==> DropId(s, v, id)[j] in s
    ensures !HasId(s, v, id) ==> DropId(s, v, id) == s
  {
    if s != [] {
      var tail := s[1..];
      DropRemoves(tail, v, id);
      var rest := DropId(tail, v, id);
      var r := DropId(s, v, id);
      if id(s[0]) != v {
        assert r == [s[0]] + rest;
        forall j | 0 <= j < |r| ensures r[j] in s && id(r[j]) != v {
          if j > 0 { assert r[j] == rest[j - 1] && rest[j - 1] in tail; }
        }
      } else {
        forall j | 0 <= j < |r| ensures r[j] in s {
          assert r[j] in tail;
        }
      }
      if !HasId(s, v, id) {
        forall k | 0 <= k < |tail| ensures id(tail[k]) != v {
          assert tail[k] == s[k + 1];
        }
      }
    }
  }

  /** Every element whose id is not `v` stays, as often as it was there. */
  lemma {:induction false} DropKeepsOthers<T>(s: seq<T>, v: string, id: T -> string)
    ensures forall i :: 0 <= i < |s| && id(s[i]) != v ==>
              multiset(DropId(s, v, id))[s[i]] == multiset(s)[s[i]]
  {
    if s != [] {
      var tail := s[1..];
      DropKeepsOthers(tail, v, id);
      DropRemoves(tail, v, id);
      var rest := DropId(tail, v, id);
      var r := DropId(s, v, id);
      assert s == [s[0]] + tail;
      assert multiset(s) == multiset{s[0]} + multiset(tail);
      assert multiset(r) == if id(s[0]) != v then multiset{s[0]} + multiset(rest) else multiset(rest) by {
        if id(s[0]) != v { assert r == [s[0]] + rest; }
      }
      forall i | 0 <= i < |s| && id(s[i]) != v
        ensures multiset(r)[s[i]] == multiset(s)[s[i]]
      {
        if i > 0 {
          assert s[i] == tail[i - 1];
        } else if s[0] in tail {
          var k :| 0 <= k < |tail| && tail[k] == s[0];
        } else {
          assert s[0] !in rest by {
            forall j | 0 <= j < |rest| ensures rest[j] != s[0] {
              assert rest[j] in tail;
            }
          }
        }
      }
    }
  }

  /** Removing by id keeps the order of what remains, so a sorted buffer
      without duplicate ids stays so. */
  lemma {:induction false} DropKeepsInvariant<T>(s: seq<T>, v: string, id: T -> string, key: T -> int)
    requires SortedBy(s, key) && UniqueIds(s, id)
    ensures SortedBy(DropId(s, v, id), key) && UniqueIds(DropId(s, v, id), id)
  {
    if s != [] {
      var tail := s[1..];
      assert SortedBy(tail, key) && UniqueIds(tail, id);
      DropKeepsInvariant(tail, v, id, key);
      DropRemoves(tail, v, id);
      var rest := DropId(tail, v, id);
      if id(s[0]) != v {
        forall j | 0 <= j < |rest|
          ensures key(s[0]) >= key(rest[j]) && id(s[0]) != id(rest[j])
        {
          var k :| 0 <= k < |tail| && tail[k] == rest[j];
          assert s[k + 1] == rest[j];
        }
        PrependKeepsInvariant(s[0], rest, id, key);
      }
    }
  }

  lemma {:induction false} PrependKeepsInvariant<T>(x: T, rest: seq<T>, id: T -> string, key: T -> int)
    requires SortedBy(rest, key) && UniqueIds(rest, id)
    requires forall j :: 0 <= j < |rest| ==> key(x) >= key(rest[j]) && id(x) != id(rest[j])
    ensures SortedBy([x] + rest, key) && UniqueIds([x] + rest, id)
  {
    var r := [x] + rest;
    forall i, j | 0 <= i < j < |r| ensures key(r[i]) >= key(r[j]) && id(r[i]) != id(r[j]) {
      assert r[j] == rest[j - 1];
      if i > 0 { assert r[i] == rest[i - 1]; }
    }
  }
}
