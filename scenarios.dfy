/**
 * Client code that drives the cache only through its constructor and
 * methods, so everything asserted here follows from their contracts alone.
 * The scenarios are those the repository's test suite exercises.
 */
module Scenarios {
  import opened InsertionOrderedSet
  import opened MaxSize
  import opened Cache

  /** Capacities of at least 1 and +Infinity are kept; everything else becomes 1. */
  method ConstructorClamps() {
    var c1 := new FixedCapacityCache<char, string>(Number(1));
    var c10 := new FixedCapacityCache<char, string>(Number(10));
    var cInf := new FixedCapacityCache<char, string>(PositiveInfinity);
    assert c1.maxSize == AtMost(1) && c10.maxSize == AtMost(10) && cInf.maxSize == Unbounded;
    var c0 := new FixedCapacityCache<char, string>(Number(0));
    var cNeg := new FixedCapacityCache<char, string>(Number(-5));
    var cNegInf := new FixedCapacityCache<char, string>(NegativeInfinity);
    var cMissing := new FixedCapacityCache<char, string>(Missing);
    assert c0.maxSize == cNeg.maxSize == cNegInf.maxSize == cMissing.maxSize == AtMost(1);
  }

  /** Capacity 3 and the writes A, B, C, D: the fourth write evicts A. */
  method WriteFourIntoThree() returns (c: FixedCapacityCache<char, string>)
    ensures fresh(c) && c.Valid()
    ensures c.keySet == ['B', 'C', 'D'] && 'A' !in c.cache
    ensures 'B' in c.cache && c.cache['B'] == "b"
    ensures 'C' in c.cache && c.cache['C'] == "c"
    ensures 'D' in c.cache && c.cache['D'] == "d"
  {
    c := new FixedCapacityCache<char, string>(Number(3));
    var _ := c.Set('A', "a");
    assert |c.keySet| == 1 && c.keySet[0] == 'A' && 'B' !in c.cache;
    var _ := c.Set('B', "b");
    assert |c.keySet| == 2 && c.keySet[0] == 'A' && 'C' !in c.cache;
    var _ := c.Set('C', "c");
    assert |c.keySet| == 3 && c.keySet[0] == 'A' && 'D' !in c.cache;
    var _ := c.Set('D', "d");
  }

  /** After the overflow, A reads as absent, the other three as written, and the size is 3. */
  method OverflowEvictsFirst() {
    var c := WriteFourIntoThree();
    var r1 := c.Get('A');
    var r2 := c.Get('B');
    var r3 := c.Get('C');
    var r4 := c.Get('D');
    assert r1 == None && r2 == Some("b") && r3 == Some("c") && r4 == Some("d");
    var n := c.Size();
    assert n == 3;
  }

  /** Capacity 3, writes A, B, C, then a read of A: A becomes the newest key. */
  method WriteThreeReadFirst() returns (c: FixedCapacityCache<char, string>)
    ensures fresh(c) && c.Valid() && c.Full()
    ensures c.keySet == ['B', 'C', 'A'] && c.cache['A'] == "a"
  {
    c := new FixedCapacityCache<char, string>(Number(3));
    var _ := c.Set('A', "a");
    var _ := c.Set('B', "b");
    var _ := c.Set('C', "c");
    assert c.keySet == ['A', 'B', 'C'];
    RemoveOldest(c.keySet);
    var a := c.Get('A');
  }

  /**
   * Reading a key before it would be evicted protects it: after A, B, C and
   * a read of A, the writes D and E evict B and then C, never A.
   */
  method ReadPromotes() {
    var c := WriteThreeReadFirst();
    assert 'D' !in c.cache;
    var _ := c.Set('D', "d");
    assert |c.keySet| == 3 && c.keySet[0] == 'C' && 'B' !in c.cache && 'E' !in c.cache;
    var _ := c.Set('E', "e");
    assert 'C' !in c.cache && 'A' in c.cache && c.cache['A'] == "a";
    var a := c.Get('A');
    var b := c.Get('B');
    var cc := c.Get('C');
    assert a == Some("a") && b == None && cc == None;
  }

  /**
   * A read while the key is the newest (here the only) key changes nothing,
   * so it does not protect it: capacity 3, set A, read A, then set B, C and D,
   * and A is the key evicted.
   */
  method EarlyReadDoesNotProtect() {
    var c := new FixedCapacityCache<char, string>(Number(3));
    var _ := c.Set('A', "a");
    var r := c.Get('A');
    assert |c.keySet| == 1 && c.keySet[0] == 'A' && 'B' !in c.cache;
    var _ := c.Set('B', "b");
    assert |c.keySet| == 2 && c.keySet[0] == 'A' && 'C' !in c.cache;
    var _ := c.Set('C', "c");
    assert |c.keySet| == 3 && c.keySet[0] == 'A' && 'D' !in c.cache;
    var _ := c.Set('D', "d");
    r := c.Get('A');
    assert r == None;
  }

  /**
   * Writing one key again and again into a cache of capacity 3 keeps a single
   * entry, holding the last value.
   */
  method OverwriteKeepsOneEntry() {
    var c := new FixedCapacityCache<char, string>(Number(3));
    var _ := c.Set('A', "a");
    var _ := c.Set('A', "b");
    var _ := c.Set('A', "c");
    var _ := c.Set('A', "d");
    var _ := c.Set('A', "e");
    var n := c.Size();
    var r := c.Get('A');
    assert n == 1 && r == Some("e");
  }

  /** Deleting a cached key and an absent key; clearing a full and an empty cache. */
  method DeleteAndClear() {
    var c := new FixedCapacityCache<char, string>(Number(3));
    var n := c.Size();
    assert n == 0;
    c.Delete('A');
    n := c.Size();
    var r := c.Get('A');
    assert n == 0 && r == None;
    var _ := c.Set('A', "a");
    n := c.Size();
    assert n == 1;
    c.Delete('A');
    n := c.Size();
    r := c.Get('A');
    assert n == 0 && r == None;
    var _ := c.Set('A', "a");
    var _ := c.Set('B', "b");
    var _ := c.Set('C', "c");
    n := c.Size();
    assert n == 3;
    c.Clear();
    n := c.Size();
    assert n == 0;
    c.Clear();
    n := c.Size();
    assert n == 0;
  }

  /**
   * For any capacity n >= 1: writing n distinct keys fills the cache without
   * evicting anything, and the queue is the keys in the order written.
   */
  method FillToCapacity<K(==), V>(n: int, keys: seq<K>, values: seq<V>)
    returns (c: FixedCapacityCache<K, V>)
    requires n >= 1 && |keys| >= n && |values| == |keys|
    requires Distinct(keys)
    ensures fresh(c) && c.Valid() && c.maxSize == AtMost(n)
    ensures c.keySet == keys[..n]
    ensures forall j :: 0 <= j < n ==> keys[j] in c.cache && c.cache[keys[j]] == values[j]
  {
    c := new FixedCapacityCache(Number(n));
    var i := 0;
    while i < n
      invariant 0 <= i <= n
      invariant c.Valid() && c.maxSize == AtMost(n)
      invariant c.keySet == keys[..i]
      invariant forall j :: 0 <= j < i ==> keys[j] in c.cache && c.cache[keys[j]] == values[j]
    {
      DistinctPrefix(keys, i);
      var _ := c.Set(keys[i], values[i]);
      assert keys[..i + 1] == keys[..i] + [keys[i]];
      i := i + 1;
    }
  }

  /**
   * For any capacity n >= 1: after writing n + 1 distinct keys with no read in
   * between, the cache holds exactly the last n of them, oldest first, and
   * the first key is gone.
   */
  method FillThenOverflow<K(==), V>(n: int, keys: seq<K>, values: seq<V>)
    returns (c: FixedCapacityCache<K, V>)
    requires n >= 1 && |keys| == n + 1 && |values| == |keys|
    requires Distinct(keys)
    ensures fresh(c) && c.Valid() && c.maxSize == AtMost(n)
    ensures c.keySet == keys[1..]
    ensures keys[0] !in c.cache
    ensures forall i :: 1 <= i < |keys| ==> keys[i] in c.cache && c.cache[keys[i]] == values[i]
  {
    c := FillToCapacity(n, keys, values);
    DistinctPrefix(keys, n);
    ghost var before := c.cache;
    var _ := c.Set(keys[n], values[n]);
    assert keys[..n][1..] + [keys[n]] == keys[1..];
    assert c.cache == (before - {keys[0]})[keys[n] := values[n]];
  }

  /**
   * For any requested capacity: after writing distinct keys, the size is the
   * number of keys written, or the effective capacity once that is smaller.
   * So a capacity of one more than the number of writes reports every write,
   * and one of one fewer reports the capacity (1 when 0 was requested).
   */
  method SizeAfterDistinctWrites<K(==), V>(requested: int, keys: seq<K>, values: seq<V>)
    returns (c: FixedCapacityCache<K, V>, n: nat)
    requires |values| == |keys| && Distinct(keys)
    ensures fresh(c) && c.Valid()
    ensures c.maxSize == AtMost(if requested < 1 then 1 else requested)
    ensures n == if |keys| <= c.maxSize.limit then |keys| else c.maxSize.limit
  {
    c := new FixedCapacityCache(Number(requested));
    var limit := c.maxSize.limit;
    var i := 0;
    while i < |keys|
      invariant 0 <= i <= |keys|
      invariant c.Valid() && c.maxSize == AtMost(limit)
      invariant |c.keySet| == if i <= limit then i else limit
      invariant forall x :: x in c.cache ==> x in keys[..i]
    {
      DistinctPrefix(keys, i);
      var _ := c.Set(keys[i], values[i]);
      assert keys[..i + 1] == keys[..i] + [keys[i]];
      i := i + 1;
    }
    n := c.Size();
  }
}
