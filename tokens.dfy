/**
 * The `cell` library's compile-time keyword tables: entries keyed by a
 * string, hashed with 64-bit FNV-1a, kept in an array sorted by (hash, key)
 * and searched with a lower bound followed by a scan over equal hashes.
 *
 * `size_t` is taken to be 64 bits wide, so the hash is a `bv64` and its
 * multiplication wraps around as the library's does.
 */
module Tokens {
  import opened Strings

  const FNV_PRIME: bv64 := 1099511628211
  const FNV_OFFSET: bv64 := 14695981039346656037

  /** One step of FNV-1a: xor in the byte, then multiply by the prime. */
  function Mix(h: bv64, c: char): bv64
  {
    (h ^ ((c as int % 256) as bv64)) * FNV_PRIME
  }

  /** `ce_1a_hash`, byte by byte from the back. */
  function Hash(s: string): bv64
    decreases |s|
  {
    if |s| == 0 then FNV_OFFSET else Mix(Hash(s[..|s| - 1]), s[|s| - 1])
  }

  /** FNV-1a from a given state, front to back: the way the loop reads its input. */
  function HashFrom(h: bv64, s: string): bv64
    decreases |s|
  {
    if |s| == 0 then h else HashFrom(Mix(h, s[0]), s[1..])
  }

  lemma {:induction false} HashFromSnoc(h: bv64, s: string, c: char)
    ensures HashFrom(h, s + [c]) == Mix(HashFrom(h, s), c)
    decreases |s|
  {
    if |s| > 0 {
      HashFromSnoc(Mix(h, s[0]), s[1..], c);
      assert (s + [c])[1..] == s[1..] + [c];
    }
  }

  /** The hash starts at the offset basis and mixes in every byte in order. */
  lemma {:induction false} HashIsFold(s: string)
    ensures Hash(s) == HashFrom(FNV_OFFSET, s)
    decreases |s|
  {
    if |s| > 0 {
      var init := s[..|s| - 1];
      HashIsFold(init);
      HashFromSnoc(FNV_OFFSET, init, s[|s| - 1]);
      assert init + [s[|s| - 1]] == s;
    }
  }

  /** The empty string hashes to the offset basis; "a" to the published FNV-1a value. */
  lemma HashKnownValues()
    ensures Hash("") == FNV_OFFSET
    ensures Hash("a") == 0xaf63dc4c8601ec8c
  {
    assert "a"[..0] == "";
    MixOfA();
  }

  /** The one step for "a", on constants. */
  lemma MixOfA()
    ensures Mix(FNV_OFFSET, 'a') == 0xaf63dc4c8601ec8c
  {
    var x: bv64 := 0xcbf29ce484222344;
    assert ('a' as int % 256) as bv64 == 0x61;
    assert FNV_OFFSET ^ 0x61 == x;
    assert x * FNV_PRIME == 0xaf63dc4c8601ec8c;
  }

  lemma HashSnoc(view: string, k: nat)
    requires k < |view|
    ensures Hash(view[..k + 1]) == Mix(Hash(view[..k]), view[k])
  {
    assert view[..k + 1][..k] == view[..k];
  }

  /** `ce_1a_hash`: the loop over the bytes of the view. */
  method Ce1aHash(view: string) returns (hash: bv64)
    ensures hash == Hash(view)
  {
    hash := FNV_OFFSET;
    for k := 0 to |view|
      invariant hash == Hash(view[..k])
    {
      HashSnoc(view, k);
      hash := Mix(hash, view[k]);
    }
    assert view[..|view|] == view;
  }

  // ------------------------------------------------------------- entries

  /**
   * `set_entry` and `map_entry`: the key, its hash, and (for maps) a payload
   * that takes no part in ordering. The hash is kept as the unsigned number
   * the `size_t` holds.
   */
  datatype Entry<P> = Entry(hashed: int, key: string, value: P)

  /** The hash of a key as an unsigned number. */
  function HashValue(v: string): int
  {
    Hash(v) as int
  }

  function MakeEntry<P>(v: string, payload: P): (r: Entry<P>)
  {
    Entry(HashValue(v), v, payload)
  }

  /** `set_entry::operator<` on the (hash, key) pairs: the hash first, then the key. */
  predicate KeyLess(h1: int, k1: string, h2: int, k2: string)
  {
    if h1 == h2 then LexLess(k1, k2) else h1 < h2
  }

  predicate Less<P>(a: Entry<P>, b: Entry<P>)
  {
    KeyLess(a.hashed, a.key, b.hashed, b.key)
  }

  /** The order is strict and total on (hash, key) pairs. */
  lemma KeyLessIsStrictTotalOrder(h1: int, k1: string, h2: int, k2: string, h3: int, k3: string)
    ensures !KeyLess(h1, k1, h1, k1)
    ensures KeyLess(h1, k1, h2, k2) && KeyLess(h2, k2, h3, k3) ==> KeyLess(h1, k1, h3, k3)
    ensures (h1 == h2 && k1 == k2) || KeyLess(h1, k1, h2, k2) || KeyLess(h2, k2, h1, k1)
    ensures !(KeyLess(h1, k1, h2, k2) && KeyLess(h2, k2, h1, k1))
  {
    LexLessIrreflexive(k1);
    LexLessTrichotomy(k1, k2);
    if KeyLess(h1, k1, h2, k2) && KeyLess(h2, k2, h3, k3) && h1 == h2 && h2 == h3 {
      LexLessTransitive(k1, k2, k3);
    }
  }

  /** Ascending: no entry is below one before it. */
  predicate SortedBetween<P>(s: seq<Entry<P>>, lo: int, hi: int)
    requires 0 <= lo <= hi <= |s|
  {
    forall i, j :: lo <= i < j < hi ==> !Less(s[j], s[i])
  }

  /** In an ascending list, whatever is below a probe comes before whatever is not. */
  lemma SortedSplits<P>(s: seq<Entry<P>>, i: int, j: int, h: int, k: string)
    requires 0 <= i <= j < |s| && SortedBetween(s, 0, |s|)
    ensures KeyLess(s[j].hashed, s[j].key, h, k) ==> KeyLess(s[i].hashed, s[i].key, h, k)
  {
    if i < j && KeyLess(s[j].hashed, s[j].key, h, k) {
      KeyLessIsStrictTotalOrder(s[i].hashed, s[i].key, s[j].hashed, s[j].key, h, k);
    }
  }

  // ---------------------------------------------------------- token_tree

  /** `token_tree`: the entries, sorted once at construction. */
  class TokenTree<P(==)> {
    const items: array<Entry<P>>

    /** Sorted by (hash, key), every hash the hash of its key. */
    ghost predicate Valid()
      reads this, items
    {
      SortedBetween(items[..], 0, items.Length)
      && forall i :: 0 <= i < items.Length ==> items[i].hashed == HashValue(items[i].key)
    }

    /** The constructor: one entry per argument, then `sort_impl(0, N)`. */
    constructor (entries: seq<(string, P)>)
      ensures Valid() && fresh(items)
      ensures multiset(items[..]) == multiset(seq(|entries|, i requires 0 <= i < |entries| => MakeEntry(entries[i].0, entries[i].1)))
    {
      items := new Entry<P>[|entries|](i requires 0 <= i < |entries| => MakeEntry(entries[i].0, entries[i].1));
      new;
      ghost var initial := items[..];
      assert initial == seq(|entries|, i requires 0 <= i < |entries| => MakeEntry(entries[i].0, entries[i].1));
      assert forall i :: 0 <= i < items.Length ==> items[i].hashed == HashValue(items[i].key);
      SortImpl(0, items.Length);
      assert items[0..items.Length] == items[..];
      assert initial[0..items.Length] == initial;
      HashesKept(initial, items[..]);
    }

    /** `swap`: exchange two entries. */
    method Swap(l: nat, r: nat)
      requires l < items.Length && r < items.Length
      modifies items
      ensures items[..] == old(items[..])[l := old(items[r])][r := old(items[l])]
    {
      var tmp := items[l];
      items[l] := items[r];
      items[r] := tmp;
    }

    /**
     * The partition step of `sort_impl`: the first entry is the pivot, every
     * entry below it is swapped to the front, and the pivot then swapped
     * into place at `m`.
     */
    method Partition(left: nat, right: nat) returns (m: nat)
      requires left < right <= items.Length
      modifies items
      ensures left <= m < right
      ensures items[..left] == old(items[..left]) && items[right..] == old(items[right..])
      ensures multiset(items[left..right]) == multiset(old(items[left..right]))
      ensures forall i :: left <= i < m ==> Less(items[i], items[m])
      ensures forall i :: m < i < right ==> !Less(items[i], items[m])
    {
      m := left;
      for i := left + 1 to right
        invariant left <= m < i
        invariant items[left] == old(items[left])
        invariant PartedAround(items[..], left, m, i)
        invariant items[..left] == old(items[..left]) && items[right..] == old(items[right..])
        invariant multiset(items[left..right]) == multiset(old(items[left..right]))
      {
        m := PartitionNext(left, right, m, i);
      }
      PlacePivot(items[..], left, m, right);
      Swap(left, m);
    }

    /** One turn of the partition loop: an entry below the pivot is swapped to just past the lower part. */
    method PartitionNext(left: nat, right: nat, m: nat, i: nat) returns (m': nat)
      requires left <= m < i < right <= items.Length
      requires PartedAround(items[..], left, m, i)
      modifies items
      ensures m <= m' <= m + 1 && m' <= i
      ensures items[left] == old(items[left])
      ensures PartedAround(items[..], left, m', i + 1)
      ensures items[..left] == old(items[..left]) && items[right..] == old(items[right..])
      ensures multiset(items[left..right]) == multiset(old(items[left..right]))
    {
      m' := m;
      if Less(items[i], items[left]) {
        m' := m + 1;
        ghost var s := items[..];
        SwapInRange(s, m', i, left, right);
        SwapKeepsParted(s, left, m, i);
        Swap(m', i);
        ghost var t := items[..];
        assert t == s[m' := s[i]][i := s[m']];
        assert t[left] == s[left];
      }
    }

    /** `sort_impl(left, right)`: quicksort of `[left, right)` in place. */
    method SortImpl(left: nat, right: nat)
      requires left <= right <= items.Length
      modifies items
      ensures SortedBetween(items[..], left, right)
      ensures multiset(items[left..right]) == multiset(old(items[left..right]))
      ensures items[..left] == old(items[..left]) && items[right..] == old(items[right..])
      decreases right - left
    {
      if left < right {
        ghost var o := items[..];
        var m := Partition(left, right);
        ghost var a := items[..];
        SortImpl(left, m);
        ghost var b := items[..];
        SortImpl(m + 1, right);
        ghost var c := items[..];
        SortedAfterRecursion(a, b, c, left, m, right);
        FramesChain(o, a, b, c, left, m, right);
      }
    }

    /** `std::lower_bound`: the first entry not below the probe. */
    method LowerBound(h: int, key: string) returns (lo: nat)
      requires Valid()
      ensures lo <= items.Length
      ensures forall i :: 0 <= i < lo ==> KeyLess(items[i].hashed, items[i].key, h, key)
      ensures forall i :: lo <= i < items.Length ==> !KeyLess(items[i].hashed, items[i].key, h, key)
    {
      lo := 0;
      var hi := items.Length;
      while lo < hi
        invariant 0 <= lo <= hi <= items.Length
        invariant forall i :: 0 <= i < lo ==> KeyLess(items[i].hashed, items[i].key, h, key)
        invariant forall i :: hi <= i < items.Length ==> !KeyLess(items[i].hashed, items[i].key, h, key)
        decreases hi - lo
      {
        var mid := lo + (hi - lo) / 2;
        if KeyLess(items[mid].hashed, items[mid].key, h, key) {
          forall i | 0 <= i < mid + 1
            ensures KeyLess(items[i].hashed, items[i].key, h, key)
          {
            SortedSplits(items[..], i, mid, h, key);
          }
          lo := mid + 1;
        } else {
          forall i | mid <= i < items.Length
            ensures !KeyLess(items[i].hashed, items[i].key, h, key)
          {
            SortedSplits(items[..], mid, i, h, key);
          }
          hi := mid;
        }
      }
    }

    /**
     * `find`: from the lower bound, step over entries of the same hash but
     * another key; the entry reached is the answer when its hash is the
     * probe's, otherwise there is none (`items.Length` stands for `end()`).
     */
    method Find(tested: string) returns (r: nat)
      requires Valid()
      ensures r <= items.Length
      ensures r < items.Length ==> items[r].key == tested
      ensures r == items.Length <==> forall i :: 0 <= i < items.Length ==> items[i].key != tested
    {
      var hash := Ce1aHash(tested);
      var h := hash as int;
      var lb := LowerBound(h, tested);
      LexLessIrreflexive(tested);
      var it := SkipOtherKeys(lb, h, tested);
      if it != items.Length && items[it].hashed == h {
        return it;
      }
      forall i | it <= i < items.Length
        ensures items[i].key != tested
      {
        NoKeyPastOtherHash(items[..], lb, it, i, h, tested);
      }
      return items.Length;
    }

    /** The scan of `find`: step over entries of hash `h` whose key is not the tested one. */
    method SkipOtherKeys(lb: nat, h: int, tested: string) returns (it: nat)
      requires lb <= items.Length
      requires forall i :: 0 <= i < lb ==> items[i].key != tested
      ensures lb <= it <= items.Length
      ensures forall i :: 0 <= i < it ==> items[i].key != tested
      ensures forall i :: lb <= i < it ==> items[i].hashed == h
      ensures it < items.Length ==> items[it].hashed != h || items[it].key == tested
    {
      it := lb;
      while it != items.Length && items[it].hashed == h && items[it].key != tested
        invariant lb <= it <= items.Length
        invariant forall i :: 0 <= i < it ==> items[i].key != tested
        invariant forall i :: lb <= i < it ==> items[i].hashed == h
        decreases items.Length - it
      {
        it := it + 1;
      }
    }

    /** `has`: some entry's key is the tested string. */
    method Has(tested: string) returns (r: bool)
      requires Valid()
      ensures r <==> exists i :: 0 <= i < items.Length && items[i].key == tested
    {
      var it := Find(tested);
      r := it != items.Length;
    }
  }

  /** `[left+1, m]` holds entries below the pivot at `left`, `(m, i)` entries not below it. */
  predicate PartedAround<P>(s: seq<Entry<P>>, left: nat, m: nat, i: nat)
    requires left <= m < i <= |s|
  {
    (forall k :: left < k <= m ==> Less(s[k], s[left]))
    && (forall k :: m < k < i ==> !Less(s[k], s[left]))
  }

  /** Swapping an entry below the pivot to `m + 1` grows the lower part by one. */
  lemma SwapKeepsParted<P>(s: seq<Entry<P>>, left: nat, m: nat, i: nat)
    requires left <= m < i < |s| && PartedAround(s, left, m, i) && Less(s[i], s[left])
    ensures PartedAround(s[m + 1 := s[i]][i := s[m + 1]], left, m + 1, i + 1)
  {
  }

  /** Swapping the pivot into place at `m` leaves the lower part before it and the rest after it. */
  lemma PlacePivot<P>(s: seq<Entry<P>>, left: nat, m: nat, right: nat)
    requires left <= m < right <= |s| && PartedAround(s, left, m, right)
    ensures var t := s[left := s[m]][m := s[left]];
      t[..left] == s[..left] && t[right..] == s[right..]
      && multiset(t[left..right]) == multiset(s[left..right])
      && (forall i :: left <= i < m ==> Less(t[i], t[m]))
      && (forall i :: m < i < right ==> !Less(t[i], t[m]))
  {
    SwapInRange(s, left, m, left, right);
  }

  /** Swapping two positions inside a range keeps the range's entries and everything outside it. */
  lemma SwapInRange<P>(a: seq<Entry<P>>, l: nat, r: nat, lo: nat, hi: nat)
    requires lo <= l < hi && lo <= r < hi && hi <= |a|
    ensures var b := a[l := a[r]][r := a[l]];
      b[..lo] == a[..lo] && b[hi..] == a[hi..] && multiset(b[lo..hi]) == multiset(a[lo..hi])
  {
    var b := a[l := a[r]][r := a[l]];
    assert b[lo..hi] == a[lo..hi][l - lo := a[r]][r - lo := a[l]];
  }

  /**
   * After the partition and both recursive sorts, `[left, right)` is
   * ascending: each side kept its entries, so everything on the left is
   * still below the pivot and nothing on the right is.
   */
  lemma SortedAfterRecursion<P>(a: seq<Entry<P>>, b: seq<Entry<P>>, c: seq<Entry<P>>, left: nat, m: nat, right: nat)
    requires left <= m < right <= |a| && |b| == |a| && |c| == |a|
    requires forall i :: left <= i < m ==> Less(a[i], a[m])
    requires forall i :: m < i < right ==> !Less(a[i], a[m])
    requires SortedBetween(b, left, m) && multiset(b[left..m]) == multiset(a[left..m])
    requires b[..left] == a[..left] && b[m..] == a[m..]
    requires SortedBetween(c, m + 1, right) && multiset(c[m + 1..right]) == multiset(b[m + 1..right])
    requires c[..m + 1] == b[..m + 1] && c[right..] == b[right..]
    ensures SortedBetween(c, left, right)
    ensures multiset(c[left..right]) == multiset(a[left..right])
  {
    var p := a[m];
    SidesKept(a, b, c, left, m, right);
    BelowCarried(a[left..m], b[left..m], p);
    NotBelowCarried(a[m + 1..right], c[m + 1..right], p);
    JoinSorted(c[left..m], p, c[m + 1..right]);
    assert c[left..right] == c[left..m] + [p] + c[m + 1..right];
    assert a[left..right] == a[left..m] + [p] + a[m + 1..right];
  }

  /** The first recursive sort leaves the pivot and the right side alone, the second the left side and the pivot. */
  lemma SidesKept<P>(a: seq<Entry<P>>, b: seq<Entry<P>>, c: seq<Entry<P>>, left: nat, m: nat, right: nat)
    requires left <= m < right <= |a| && |b| == |a| && |c| == |a|
    requires b[m..] == a[m..] && c[..m + 1] == b[..m + 1]
    ensures c[m] == a[m] && b[m + 1..right] == a[m + 1..right] && c[left..m] == b[left..m]
  {
    SuffixKept(a, b, m, m, right);
    PrefixKept(b, c, m + 1, left, m);
    assert b[m] == b[m..][0] && a[m] == a[m..][0];
    assert c[m] == c[..m + 1][m] && b[m] == b[..m + 1][m];
  }

  /** Equal suffixes from `m` agree on every range inside them. */
  lemma SuffixKept<P>(a: seq<Entry<P>>, b: seq<Entry<P>>, m: nat, lo: nat, hi: nat)
    requires m <= lo <= hi <= |a| && |b| == |a| && b[m..] == a[m..]
    ensures b[lo..hi] == a[lo..hi]
  {
    forall k | lo <= k < hi
      ensures b[k] == a[k]
    {
      assert b[k] == b[m..][k - m] && a[k] == a[m..][k - m];
    }
  }

  /** Equal prefixes up to `n` agree on every range inside them. */
  lemma PrefixKept<P>(b: seq<Entry<P>>, c: seq<Entry<P>>, n: nat, lo: nat, hi: nat)
    requires lo <= hi <= n <= |b| && |c| == |b| && c[..n] == b[..n]
    ensures c[lo..hi] == b[lo..hi]
  {
    forall k | lo <= k < hi
      ensures c[k] == b[k]
    {
      assert c[k] == c[..n][k] && b[k] == b[..n][k];
    }
  }

  /** Three steps that keep what lies outside their ranges keep what lies outside `[left, right)`. */
  lemma FramesChain<P>(o: seq<Entry<P>>, a: seq<Entry<P>>, b: seq<Entry<P>>, c: seq<Entry<P>>, left: nat, m: nat, right: nat)
    requires left <= m < right <= |o| && |a| == |o| && |b| == |o| && |c| == |o|
    requires a[..left] == o[..left] && a[right..] == o[right..]
    requires b[..left] == a[..left] && b[m..] == a[m..]
    requires c[..m + 1] == b[..m + 1] && c[right..] == b[right..]
    ensures c[..left] == o[..left] && c[right..] == o[right..]
  {
    assert b[right..] == b[m..][right - m..];
    assert a[right..] == a[m..][right - m..];
    assert c[..left] == c[..m + 1][..left];
    assert b[..left] == b[..m + 1][..left];
  }

  /** Entries all below `p` stay so under any reordering. */
  lemma BelowCarried<P>(a: seq<Entry<P>>, b: seq<Entry<P>>, p: Entry<P>)
    requires forall i :: 0 <= i < |a| ==> Less(a[i], p)
    requires multiset(b) == multiset(a)
    ensures forall i :: 0 <= i < |b| ==> Less(b[i], p)
  {
    forall i | 0 <= i < |b|
      ensures Less(b[i], p)
    {
      assert b[i] in multiset(b);
      assert b[i] in a;
    }
  }

  /** Entries none below `p` stay so under any reordering. */
  lemma NotBelowCarried<P>(a: seq<Entry<P>>, b: seq<Entry<P>>, p: Entry<P>)
    requires forall i :: 0 <= i < |a| ==> !Less(a[i], p)
    requires multiset(b) == multiset(a)
    ensures forall i :: 0 <= i < |b| ==> !Less(b[i], p)
  {
    forall i | 0 <= i < |b|
      ensures !Less(b[i], p)
    {
      assert b[i] in multiset(b);
      assert b[i] in a;
    }
  }

  /** An ascending run below the pivot, the pivot, and an ascending run not below it form one ascending run. */
  lemma JoinSorted<P>(lo: seq<Entry<P>>, p: Entry<P>, hi: seq<Entry<P>>)
    requires SortedBetween(lo, 0, |lo|) && SortedBetween(hi, 0, |hi|)
    requires forall i :: 0 <= i < |lo| ==> Less(lo[i], p)
    requires forall i :: 0 <= i < |hi| ==> !Less(hi[i], p)
    ensures SortedBetween(lo + [p] + hi, 0, |lo| + 1 + |hi|)
  {
    var s := lo + [p] + hi;
    var m := |lo|;
    forall i, j | 0 <= i < j < |s|
      ensures !Less(s[j], s[i])
    {
      if j < m {
        assert s[i] == lo[i] && s[j] == lo[j];
      } else if i > m {
        assert s[i] == hi[i - m - 1] && s[j] == hi[j - m - 1];
      } else if i < m && m < j {
        assert s[i] == lo[i] && s[j] == hi[j - m - 1];
        KeyLessIsStrictTotalOrder(s[j].hashed, s[j].key, s[i].hashed, s[i].key, p.hashed, p.key);
      } else if i < m {
        assert s[i] == lo[i] && s[j] == p;
        KeyLessIsStrictTotalOrder(s[i].hashed, s[i].key, p.hashed, p.key, s[i].hashed, s[i].key);
      } else {
        assert s[i] == p && s[j] == hi[j - m - 1];
      }
    }
  }

  /**
   * Past the lower bound, an entry whose hash differs from the probe's
   * shows that no entry from there on can carry the probe's key.
   */
  /** Reordering the entries keeps every hash that of its key. */
  lemma HashesKept<P>(s: seq<Entry<P>>, t: seq<Entry<P>>)
    requires multiset(t) == multiset(s)
    requires forall k :: 0 <= k < |s| ==> s[k].hashed == HashValue(s[k].key)
    ensures forall k :: 0 <= k < |t| ==> t[k].hashed == HashValue(t[k].key)
  {
    forall k | 0 <= k < |t|
      ensures t[k].hashed == HashValue(t[k].key)
    {
      assert t[k] in multiset(t);
      assert t[k] in s;
    }
  }

  lemma NoKeyPastOtherHash<P>(s: seq<Entry<P>>, lb: nat, it: nat, i: nat, h: int, tested: string)
    requires lb <= it <= i < |s| && SortedBetween(s, 0, |s|)
    requires forall k :: 0 <= k < |s| ==> s[k].hashed == HashValue(s[k].key)
    requires h == HashValue(tested)
    requires forall k :: lb <= k < |s| ==> !KeyLess(s[k].hashed, s[k].key, h, tested)
    requires s[it].hashed != h
    ensures s[i].key != tested
  {
    assert it < i ==> !Less(s[i], s[it]);
    assert !KeyLess(s[it].hashed, s[it].key, h, tested);
  }
}
