/**
 * A JavaScript `Set` viewed as a sequence in insertion order: iteration
 * visits the oldest element first and the newest last. The cache uses such a
 * set as its recency queue, so the two `Set` operations it relies on are
 * modelled here on `seq<K>`:
 *   - `Remove` is `Set.prototype.delete`: the element disappears, the others
 *     keep their order;
 *   - `Add` is `Set.prototype.add`: a new element goes to the end, an element
 *     that is already present stays where it is.
 */
module InsertionOrderedSet {

  /** Every element occurs at most once: what a `Set` guarantees. */
  predicate Distinct<K(==)>(s: seq<K>) {
    forall i, j :: 0 <= i < j < |s| ==> s[i] != s[j]
  }

  /** The elements of `s`, forgetting their order. */
  function Elems<K(==)>(s: seq<K>): set<K> {
    set x | x in s
  }

  /** `Set.prototype.delete`: drop `k`, keep the order of everything else. */
  function Remove<K(==)>(s: seq<K>, k: K): (r: seq<K>)
    ensures Elems(r) == Elems(s) - {k}
    ensures |r| <= |s|
    ensures k !in s ==> r == s
  {
    if s == [] then []
    else
      var rest := Remove(s[1..], k);
      assert Elems(s) == {s[0]} + Elems(s[1..]);
      if s[0] == k then rest
      else
        assert Elems([s[0]] + rest) == {s[0]} + Elems(rest);
        [s[0]] + rest
  }

  /** `Set.prototype.add`: append `k` unless it is already there. */
  function Add<K(==)>(s: seq<K>, k: K): (r: seq<K>)
    ensures Elems(r) == Elems(s) + {k}
    ensures |r| == if k in s then |s| else |s| + 1
    ensures r[..|s|] == s
    ensures Distinct(s) ==> Distinct(r)
  {
    if k in s then s else s + [k]
  }

  /** Deleting from a set leaves a set, with one element fewer when it was there. */
  lemma {:induction false} RemoveDistinct<K>(s: seq<K>, k: K)
    requires Distinct(s)
    ensures Distinct(Remove(s, k))
    ensures k in s ==> |Remove(s, k)| == |s| - 1
  {
    if s != [] {
      var tail := s[1..];
      DistinctTail(s);
      RemoveDistinct(tail, k);
      if s[0] != k {
        var rest := Remove(tail, k);
        var r := Remove(s, k);
        assert r == [s[0]] + rest;
        forall i, j | 0 <= i < j < |r| ensures r[i] != r[j] {
          assert r[j] == rest[j - 1];
          if i == 0 {
            assert rest[j - 1] in Elems(rest);
          } else {
            assert r[i] == rest[i - 1];
          }
        }
      }
    }
  }

  /** The tail of a set is a set that does not hold the head. */
  lemma DistinctTail<K>(s: seq<K>)
    requires Distinct(s) && s != []
    ensures Distinct(s[1..]) && s[0] !in s[1..]
  {
  }

  /** In a set, deleting the first (oldest) element leaves exactly the rest, in order. */
  lemma RemoveOldest<K>(s: seq<K>)
    requires Distinct(s) && s != []
    ensures Remove(s, s[0]) == s[1..]
  {
  }

  /** In a set no element also occurs before or after its own position. */
  lemma DistinctPrefix<K>(s: seq<K>, i: int)
    requires Distinct(s) && 0 <= i < |s|
    ensures s[i] !in s[..i]
    ensures s[i] !in s[i + 1..]
  {
  }

  /** Removing from a concatenation removes from each part. */
  lemma {:induction false} RemoveConcat<K>(a: seq<K>, b: seq<K>, k: K)
    ensures Remove(a + b, k) == Remove(a, k) + Remove(b, k)
  {
    if a == [] {
      assert a + b == b;
    } else {
      assert (a + b)[0] == a[0];
      assert (a + b)[1..] == a[1..] + b;
      RemoveConcat(a[1..], b, k);
    }
  }

  /**
   * Deleting the element at position `i` of a set leaves the elements before
   * it and the elements after it, each part in its old order.
   */
  lemma RemoveAt<K>(s: seq<K>, i: int)
    requires Distinct(s) && 0 <= i < |s|
    ensures Remove(s, s[i]) == s[..i] + s[i + 1..]
  {
    var k, before, after := s[i], s[..i], s[i + 1..];
    SplitAt(s, i);
    DistinctPrefix(s, i);
    calc {
      Remove(s, k);
      Remove(before + ([k] + after), k);
      { RemoveConcat(before, [k] + after, k); }
      Remove(before, k) + Remove([k] + after, k);
      { RemoveLeading(k, after); }
      before + after;
    }
  }

  /** A sequence is its prefix, the element at `i` and its suffix. */
  lemma SplitAt<K>(s: seq<K>, i: int)
    requires 0 <= i < |s|
    ensures s == s[..i] + ([s[i]] + s[i + 1..])
  {
    assert s[..i] + ([s[i]] + s[i + 1..]) == s[..i] + s[i..];
  }

  /** Deleting the first element of `[k] + t` is deleting from `t`. */
  lemma RemoveLeading<K>(k: K, t: seq<K>)
    ensures Remove([k] + t, k) == Remove(t, k)
  {
    assert ([k] + t)[1..] == t;
  }

  /**
   * Deleting a key and adding it again (the cache's `moveKeyToEnd`) puts the
   * key last and leaves every other key where it was relative to the rest:
   * taking the key out again gives the same sequence as just deleting it.
   */
  lemma MoveToEnd<K>(s: seq<K>, k: K)
    ensures Add(Remove(s, k), k) == Remove(s, k) + [k]
    ensures Remove(Add(Remove(s, k), k), k) == Remove(s, k)
  {
    var rest := Remove(s, k);
    assert k !in Elems(rest);
    RemoveConcat(rest, [k], k);
    assert Remove([k], k) == [] by {
      assert [k][1..] == [];
    }
    assert rest + [] == rest;
  }

  /** Moving a present key of a set to the end keeps a set with the same elements and size. */
  lemma MoveToEndKeepsSet<K>(s: seq<K>, k: K)
    requires Distinct(s)
    ensures Distinct(Add(Remove(s, k), k))
    ensures k in s ==> Elems(Add(Remove(s, k), k)) == Elems(s)
    ensures k in s ==> |Add(Remove(s, k), k)| == |s|
  {
    RemoveDistinct(s, k);
  }

  /** A sequence without duplicates has as many elements as its set does. */
  lemma {:induction false} DistinctCard<K>(s: seq<K>)
    requires Distinct(s)
    ensures |Elems(s)| == |s|
  {
    if s != [] {
      var tail := s[1..];
      DistinctTail(s);
      DistinctCard(tail);
      assert Elems(s) == Elems(tail) + {s[0]};
    }
  }
}
