/** Reading a table back as a sequence, and the newest-first ordering that
    the product and order listings ask the store for. */
module Listing {

  /** `s` is ordered by `id`, smallest first, with no id twice. */
  predicate Ascending<T>(s: seq<T>, id: T -> int)
  {
    forall i, j :: 0 <= i < j < |s| ==> id(s[i]) < id(s[j])
  }

  /** The rows of `m` whose keys lie in [lo, hi), one per key, in ascending
      key order; `id` gives back the key each row is stored under. */
  function Rows<T(!new)>(m: map<int, T>, lo: int, hi: int, id: T -> int): (r: seq<T>)
    requires forall k :: k in m ==> id(m[k]) == k
    ensures forall x :: x in r <==> exists k :: lo <= k < hi && k in m && m[k] == x
    ensures forall x :: x in r ==> lo <= id(x) < hi
    ensures Ascending(r, id)
    decreases hi - lo
  {
    if lo >= hi then []
    else
      var rest := Rows(m, lo + 1, hi, id);
      if lo in m then
        var r := [m[lo]] + rest;
        assert forall j :: 0 < j < |r| ==> r[j] == rest[j - 1] && r[j] in rest;
        r
      else rest
  }

  /** In a sequence with ascending ids every element occurs once. */
  lemma {:induction false} AscendingCountsOnce<T>(s: seq<T>, id: T -> int)
    requires Ascending(s, id)
    ensures forall x :: multiset(s)[x] == if x in s then 1 else 0
  {
    if s != [] {
      var t := s[1..];
      assert Ascending(t, id) by {
        forall i, j | 0 <= i < j < |t| ensures id(t[i]) < id(t[j]) {
          assert t[i] == s[i + 1] && t[j] == s[j + 1];
        }
      }
      AscendingCountsOnce(t, id);
      assert s == [s[0]] + t;
      assert s[0] !in t by {
        forall k | 0 <= k < |t| ensures t[k] != s[0] {
          assert t[k] == s[k + 1];
        }
      }
      forall x ensures multiset(s)[x] == if x in s then 1 else 0 {
        assert multiset(s)[x] == multiset([s[0]])[x] + multiset(t)[x];
        assert x in s <==> x == s[0] || x in t;
      }
    }
  }

  /** `s` is ordered by `key`, largest key first. */
  predicate Descending<T>(s: seq<T>, key: T -> int)
  {
    forall i, j :: 0 <= i < j < |s| ==> key(s[i]) >= key(s[j])
  }

  /** Puts `x` into `s` before the first element whose key is not larger. */
  function Insert<T>(x: T, s: seq<T>, key: T -> int): seq<T>
  {
    if s == [] || key(x) >= key(s[0]) then [x] + s
    else [s[0]] + Insert(x, s[1..], key)
  }

  /** A stable insertion sort, newest (largest key) first. */
  function NewestFirst<T>(s: seq<T>, key: T -> int): seq<T>
  {
    if s == [] then [] else Insert(s[0], NewestFirst(s[1..], key), key)
  }

  lemma {:induction false} InsertPermutes<T>(x: T, s: seq<T>, key: T -> int)
    ensures multiset(Insert(x, s, key)) == multiset(s) + multiset{x}
  {
    if s != [] && key(x) < key(s[0]) {
      InsertPermutes(x, s[1..], key);
      assert s == [s[0]] + s[1..];
    }
  }

  lemma {:induction false} InsertKeepsDescending<T>(x: T, s: seq<T>, key: T -> int)
    requires Descending(s, key)
    ensures Descending(Insert(x, s, key), key)
  {
    if s != [] && key(x) < key(s[0]) {
      var tail := s[1..];
      assert Descending(tail, key) by {
        forall i, j | 0 <= i < j < |tail| ensures key(tail[i]) >= key(tail[j]) {
          assert tail[i] == s[i + 1] && tail[j] == s[j + 1];
        }
      }
      InsertKeepsDescending(x, tail, key);
      InsertPermutes(x, tail, key);
      var ins := Insert(x, tail, key);
      forall k | 0 <= k < |ins| ensures key(s[0]) >= key(ins[k]) {
        assert ins[k] in multiset(ins);
        if ins[k] != x {
          assert ins[k] in multiset(tail);
          var m :| 0 <= m < |tail| && tail[m] == ins[k];
          assert tail[m] == s[m + 1];
        }
      }
      var r := [s[0]] + ins;
      forall i, j | 0 <= i < j < |r| ensures key(r[i]) >= key(r[j]) {
        if i > 0 {
          assert r[i] == ins[i - 1] && r[j] == ins[j - 1];
        } else {
          assert r[j] == ins[j - 1];
        }
      }
    }
  }

  /** The sorted listing holds exactly the elements of `s`, each as often. */
  lemma {:induction false} NewestFirstPermutes<T>(s: seq<T>, key: T -> int)
    ensures multiset(NewestFirst(s, key)) == multiset(s)
  {
    if s != [] {
      NewestFirstPermutes(s[1..], key);
      InsertPermutes(s[0], NewestFirst(s[1..], key), key);
      assert s == [s[0]] + s[1..];
    }
  }

  /** The sorted listing is ordered newest first. */
  lemma {:induction false} NewestFirstDescending<T>(s: seq<T>, key: T -> int)
    ensures Descending(NewestFirst(s, key), key)
  {
    if s != [] {
      NewestFirstDescending(s[1..], key);
      InsertKeepsDescending(s[0], NewestFirst(s[1..], key), key);
    }
  }

  /** Sorting newest first keeps exactly the elements, in descending order. */
  function SortedNewestFirst<T(!new)>(s: seq<T>, key: T -> int): (r: seq<T>)
    ensures multiset(r) == multiset(s)
    ensures forall x :: x in r <==> x in s
    ensures Descending(r, key)
  {
    NewestFirstPermutes(s, key);
    NewestFirstDescending(s, key);
    var r := NewestFirst(s, key);
    assert forall x :: x in r <==> x in multiset(r);
    assert forall x :: x in s <==> x in multiset(s);
    r
  }
}
