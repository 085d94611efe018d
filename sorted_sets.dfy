/**
 * Ordered sets as the standard library keeps them: a sequence without
 * duplicates in ascending order under a strict total order, so that
 * iterating a set visits its elements from the least up.
 */
module SortedSets {
  import opened Wrappers
  import opened Strings

  /** `less` is irreflexive, transitive and total. */
  ghost predicate IsStrictTotalOrder<T(!new)>(less: (T, T) -> bool)
  {
    (forall a :: !less(a, a))
    && (forall a, b, c :: less(a, b) && less(b, c) ==> less(a, c))
    && (forall a, b :: a == b || less(a, b) || less(b, a))
  }

  /** Strictly ascending, hence free of duplicates. */
  predicate Ascending<T>(s: seq<T>, less: (T, T) -> bool)
  {
    forall i, j :: 0 <= i < j < |s| ==> less(s[i], s[j])
  }

  /** `std::set::insert`: the element goes where the order puts it, unless it is already there. */
  function Insert<T(==,!new)>(s: seq<T>, x: T, less: (T, T) -> bool): (r: seq<T>)
    ensures forall y :: y in r <==> y in s || y == x
    decreases |s|
  {
    if |s| == 0 then [x]
    else if s[0] == x then s
    else if less(x, s[0]) then [x] + s
    else [s[0]] + Insert(s[1..], x, less)
  }

  /** Inserting keeps the sequence ascending and adds exactly the new element. */
  lemma {:induction false} InsertKeepsOrder<T(!new)>(s: seq<T>, x: T, less: (T, T) -> bool)
    requires IsStrictTotalOrder(less) && Ascending(s, less)
    ensures Ascending(Insert(s, x, less), less)
    decreases |s|
  {
    if |s| == 0 || s[0] == x {
    } else if less(x, s[0]) {
      var r := [x] + s;
      forall i, j | 0 <= i < j < |r|
        ensures less(r[i], r[j])
      {
        if i > 0 {
          assert r[i] == s[i - 1] && r[j] == s[j - 1];
        } else if j > 1 {
          assert less(s[0], s[j - 1]);
        }
      }
    } else {
      var tail := Insert(s[1..], x, less);
      InsertKeepsOrder(s[1..], x, less);
      var r := [s[0]] + tail;
      forall i, j | 0 <= i < j < |r|
        ensures less(r[i], r[j])
      {
        if i > 0 {
          assert r[i] == tail[i - 1] && r[j] == tail[j - 1];
        } else {
          assert r[j] in tail;
          assert r[j] in s[1..] || r[j] == x;
        }
      }
    }
  }

  /** `std::set{first, last}`: the elements of a sequence, inserted one by one. */
  function FromSeq<T(==,!new)>(xs: seq<T>, less: (T, T) -> bool): seq<T>
    decreases |xs|
  {
    if |xs| == 0 then [] else Insert(FromSeq(xs[..|xs| - 1], less), xs[|xs| - 1], less)
  }

  lemma {:induction false} FromSeqKeepsElements<T(!new)>(xs: seq<T>, less: (T, T) -> bool)
    requires IsStrictTotalOrder(less)
    ensures Ascending(FromSeq(xs, less), less)
    ensures forall y :: y in FromSeq(xs, less) <==> y in xs
    decreases |xs|
  {
    if |xs| > 0 {
      var init := xs[..|xs| - 1];
      FromSeqKeepsElements(init, less);
      InsertKeepsOrder(FromSeq(init, less), xs[|xs| - 1], less);
      assert xs == init + [xs[|xs| - 1]];
    }
  }

  /** An ascending sequence is fixed by its elements: two with the same elements are equal. */
  lemma {:induction false} AscendingUnique<T(!new)>(a: seq<T>, b: seq<T>, less: (T, T) -> bool)
    requires IsStrictTotalOrder(less) && Ascending(a, less) && Ascending(b, less)
    requires forall y :: y in a <==> y in b
    ensures a == b
    decreases |a|
  {
    if |a| > 0 {
      assert a[0] in a;
    }
    if |b| > 0 {
      assert b[0] in b;
    }
    if |a| > 0 && |b| > 0 {
      if a[0] != b[0] {
        assert false;
      }
      assert a[0] == b[0];
      forall y
        ensures y in a[1..] <==> y in b[1..]
      {
        if y in a[1..] {
          var k :| 1 <= k < |a| && a[k] == y;
          assert less(a[0], y);
        }
        if y in b[1..] {
          var k :| 1 <= k < |b| && b[k] == y;
          assert less(b[0], y);
        }
        assert y in a <==> y == a[0] || y in a[1..];
        assert y in b <==> y == b[0] || y in b[1..];
      }
      AscendingUnique(a[1..], b[1..], less);
      assert a == [a[0]] + a[1..] && b == [b[0]] + b[1..];
    }
  }

  /** `std::less<std::string>`, the order of maps keyed by strings. */
  const StringOrder: (string, string) -> bool := (a: string, b: string) => LexLess(a, b)

  lemma StringOrderIsStrict()
    ensures IsStrictTotalOrder(StringOrder)
  {
    forall a: string, b: string, c: string
      ensures !StringOrder(a, a) && (StringOrder(a, b) && StringOrder(b, c) ==> StringOrder(a, c))
      ensures a == b || StringOrder(a, b) || StringOrder(b, a)
    {
      LexLessIrreflexive(a);
      LexLessTrichotomy(a, b);
      if LexLess(a, b) && LexLess(b, c) {
        LexLessTransitive(a, b, c);
      }
    }
  }

  /** Sorted association lists: `std::map` with its keys in ascending order. */
  predicate KeysAscending<K, V>(m: seq<(K, V)>, less: (K, K) -> bool)
  {
    forall i, j :: 0 <= i < j < |m| ==> less(m[i].0, m[j].0)
  }

  /** `std::map::operator[]` followed by an assignment: the entry for `k` now holds `v`. */
  function Put<K(==), V>(m: seq<(K, V)>, k: K, v: V, less: (K, K) -> bool): seq<(K, V)>
    decreases |m|
  {
    if |m| == 0 then [(k, v)]
    else if m[0].0 == k then [(k, v)] + m[1..]
    else if less(k, m[0].0) then [(k, v)] + m
    else [m[0]] + Put(m[1..], k, v, less)
  }

  /** `std::map::find` */
  function Lookup<K(==), V>(m: seq<(K, V)>, k: K): (r: Option<V>)
    ensures r.Some? ==> (k, r.value) in m
    ensures r.None? ==> forall i :: 0 <= i < |m| ==> m[i].0 != k
    decreases |m|
  {
    if |m| == 0 then None else if m[0].0 == k then Some(m[0].1) else Lookup(m[1..], k)
  }

  /** After `Put`, the key holds the new value, every other key its old one, and the keys stay ascending. */
  lemma {:induction false} PutMeaning<K(!new), V>(m: seq<(K, V)>, k: K, v: V, less: (K, K) -> bool)
    requires IsStrictTotalOrder(less) && KeysAscending(m, less)
    ensures KeysAscending(Put(m, k, v, less), less)
    ensures Lookup(Put(m, k, v, less), k) == Some(v)
    ensures forall q :: q != k ==> Lookup(Put(m, k, v, less), q) == Lookup(m, q)
    decreases |m|
  {
    var r := Put(m, k, v, less);
    if |m| == 0 {
    } else if m[0].0 == k {
      forall i, j | 0 <= i < j < |r|
        ensures less(r[i].0, r[j].0)
      {
        assert r[i].0 == m[i].0 && r[j].0 == m[j].0;
      }
      forall q | q != k
        ensures Lookup(r, q) == Lookup(m, q)
      {
        assert r[1..] == m[1..];
      }
    } else if less(k, m[0].0) {
      forall i, j | 0 <= i < j < |r|
        ensures less(r[i].0, r[j].0)
      {
        if i > 0 {
          assert r[i] == m[i - 1] && r[j] == m[j - 1];
        } else if j > 1 {
          assert less(m[0].0, m[j - 1].0);
        }
      }
      forall q | q != k
        ensures Lookup(r, q) == Lookup(m, q)
      {
        assert r[1..] == m;
      }
    } else {
      var tail := Put(m[1..], k, v, less);
      PutMeaning(m[1..], k, v, less);
      PutKeys(m[1..], k, v, less);
      forall i, j | 0 <= i < j < |r|
        ensures less(r[i].0, r[j].0)
      {
        if i > 0 {
          assert r[i] == tail[i - 1] && r[j] == tail[j - 1];
        } else {
          assert r[j] == tail[j - 1];
          assert r[j].0 == k || exists n :: 1 <= n < |m| && m[n].0 == r[j].0;
        }
      }
      assert r[1..] == tail;
    }
  }

  /** `Put` adds the key and no other. */
  lemma {:induction false} PutKeys<K, V>(m: seq<(K, V)>, k: K, v: V, less: (K, K) -> bool)
    ensures forall i :: 0 <= i < |Put(m, k, v, less)| ==>
      Put(m, k, v, less)[i].0 == k || exists n :: 0 <= n < |m| && m[n].0 == Put(m, k, v, less)[i].0
    decreases |m|
  {
    var r := Put(m, k, v, less);
    if |m| > 0 && m[0].0 != k && !less(k, m[0].0) {
      PutKeys(m[1..], k, v, less);
      forall i | 0 < i < |r|
        ensures r[i].0 == k || exists n :: 0 <= n < |m| && m[n].0 == r[i].0
      {
        var tail := Put(m[1..], k, v, less);
        assert r[i] == tail[i - 1];
        if tail[i - 1].0 != k {
          var n :| 0 <= n < |m[1..]| && m[1..][n].0 == tail[i - 1].0;
          assert m[n + 1].0 == r[i].0;
        }
      }
      assert r[0] == m[0];
    } else if |m| > 0 && m[0].0 == k {
      forall i | 0 < i < |r|
        ensures r[i].0 == k || exists n :: 0 <= n < |m| && m[n].0 == r[i].0
      {
        assert r[i] == m[i];
      }
    } else if |m| > 0 {
      forall i | 0 < i < |r|
        ensures r[i].0 == k || exists n :: 0 <= n < |m| && m[n].0 == r[i].0
      {
        assert r[i] == m[i - 1];
      }
    }
  }

  /** Every entry after `Put` is the one put or one that was there before. */
  lemma {:induction false} PutEntries<K, V>(m: seq<(K, V)>, k: K, v: V, less: (K, K) -> bool)
    ensures forall e :: e in Put(m, k, v, less) ==> e == (k, v) || e in m
    decreases |m|
  {
    if |m| > 0 && m[0].0 != k && !less(k, m[0].0) {
      PutEntries(m[1..], k, v, less);
      assert forall e :: e in m[1..] ==> e in m;
    } else if |m| > 0 && m[0].0 == k {
      assert forall e :: e in m[1..] ==> e in m;
    }
  }
}
