/**
 * The redundant indexes that billiard/heap.py keeps of its free blocks: by start, by stop and
 * by length, and the sorted list of lengths.  Each predicate says when an index describes a
 * given set of blocks; together they determine the indexes from the set.
 */
module FreeIndex {
  import opened Blocks
  import opened Tally

  datatype Key = Key(arena: nat, pos: nat)

  function StartKey(b: Block): Key { Key(b.arena, b.start) }
  function StopKey(b: Block): Key { Key(b.arena, b.stop) }

  ghost predicate ByStart(free: set<Block>, m: map<Key, Block>) {
    && (forall b :: b in free ==> StartKey(b) in m && m[StartKey(b)] == b)
    && (forall k :: k in m ==> m[k] in free && k == StartKey(m[k]))
  }

  ghost predicate ByStop(free: set<Block>, m: map<Key, Block>) {
    && (forall b :: b in free ==> StopKey(b) in m && m[StopKey(b)] == b)
    && (forall k :: k in m ==> m[k] in free && k == StopKey(m[k]))
  }

  ghost predicate ByLength(free: set<Block>, m: map<int, seq<Block>>) {
    && (forall n :: n in m ==> m[n] != [] && Distinct(m[n]))
    && (forall n, b :: n in m && b in m[n] ==> b in free && Length(b) == n)
    && (forall b :: b in free ==> Length(b) in m && b in m[Length(b)])
  }

  ghost predicate SortedKeys(s: seq<int>, keys: set<int>) {
    && (forall i, j :: 0 <= i < j < |s| ==> s[i] < s[j])
    && (forall n :: n in s <==> n in keys)
  }

  // ----- Operations on Python lists -----

  /** list.remove: drops the first occurrence. */
  function Remove<T(==)>(s: seq<T>, x: T): seq<T>
    requires x in s
  {
    if s[0] == x then s[1..] else [s[0]] + Remove(s[1..], x)
  }

  lemma {:induction false} RemoveDistinct<T>(s: seq<T>, x: T)
    requires Distinct(s) && x in s
    ensures Distinct(Remove(s, x))
    ensures forall y :: y in Remove(s, x) <==> y in s && y != x
  {
    assert s == [s[0]] + s[1..];
    if s[0] == x {
      assert x !in s[1..];
    } else {
      RemoveDistinct(s[1..], x);
      var r := Remove(s[1..], x);
      assert s[0] !in s[1..] && s[0] !in r;
      assert Remove(s, x) == [s[0]] + r;
    }
  }

  /** bisect.bisect_left: the first position whose element is not below x. */
  function BisectLeft(s: seq<int>, x: int): (i: nat)
    ensures i <= |s|
    ensures forall j :: 0 <= j < i ==> s[j] < x
    ensures i < |s| ==> s[i] >= x
  {
    if s == [] || s[0] >= x then 0 else 1 + BisectLeft(s[1..], x)
  }

  /** bisect.insort, for an x that is not in the list. */
  function Insort(s: seq<int>, x: int): seq<int> {
    var i := BisectLeft(s, x);
    s[..i] + [x] + s[i..]
  }

  lemma InsertMembers(s: seq<int>, i: nat, x: int, n: int)
    requires i <= |s|
    ensures n in s[..i] + [x] + s[i..] <==> n in s || n == x
  {
    assert s == s[..i] + s[i..];
  }

  lemma SortedInsort(s: seq<int>, keys: set<int>, x: int)
    requires SortedKeys(s, keys) && x !in keys
    ensures SortedKeys(Insort(s, x), keys + {x})
  {
    var i := BisectLeft(s, x);
    var r := Insort(s, x);
    forall n
      ensures n in r <==> n in keys + {x}
    {
      InsertMembers(s, i, x, n);
    }
    if i < |s| {
      assert s[i] in s && s[i] > x;
    }
    forall j, k | 0 <= j < k < |r|
      ensures r[j] < r[k]
    {
      assert r[j] == if j < i then s[j] else if j == i then x else s[j - 1];
      assert r[k] == if k < i then s[k] else if k == i then x else s[k - 1];
    }
  }

  lemma SortedDelete(s: seq<int>, keys: set<int>, i: nat)
    requires SortedKeys(s, keys) && i < |s|
    ensures SortedKeys(s[..i] + s[i + 1..], keys - {s[i]})
  {
    var r := s[..i] + s[i + 1..];
    assert s == s[..i] + [s[i]] + s[i + 1..];
    forall n
      ensures n in r <==> n in keys - {s[i]}
    {
      assert n in r <==> n in s[..i] || n in s[i + 1..];
      assert n in s <==> n in s[..i] || n == s[i] || n in s[i + 1..];
    }
  }

  lemma {:induction false} SortedRemove(s: seq<int>, keys: set<int>, x: int)
    requires SortedKeys(s, keys) && x in s
    ensures SortedKeys(Remove(s, x), keys - {x})
  {
    var i := BisectLeft(s, x);
    RemoveAt(s, x, i);
    SortedDelete(s, keys, i);
  }

  lemma {:induction false} RemoveAt(s: seq<int>, x: int, i: nat)
    requires i < |s| && s[i] == x && forall j :: 0 <= j < i ==> s[j] != x
    ensures Remove(s, x) == s[..i] + s[i + 1..]
  {
    if i > 0 {
      RemoveAt(s[1..], x, i - 1);
    }
  }

  // ----- Taking a block out of the indexes, and entering one -----

  /** The new value of `_len_to_seq` when `seq`, the entry for `length`, becomes `s`. */
  function WithSeq(m: map<int, seq<Block>>, length: int, s: seq<Block>): map<int, seq<Block>> {
    if s == [] then m - {length} else m[length := s]
  }

  lemma ByLengthShrink(free: set<Block>, m: map<int, seq<Block>>, b: Block, s: seq<Block>)
    requires ByLength(free, m) && b in free && Distinct(s)
    requires forall c :: c in s <==> c in m[Length(b)] && c != b
    ensures ByLength(free - {b}, WithSeq(m, Length(b), s))
  {
    var m' := WithSeq(m, Length(b), s);
    forall c | c in free - {b}
      ensures Length(c) in m' && c in m'[Length(c)]
    {
      assert c in m[Length(c)];
      if Length(c) == Length(b) {
        assert c in s;
      }
    }
  }

  lemma ByLengthGrow(free: set<Block>, m: map<int, seq<Block>>, b: Block)
    requires ByLength(free, m) && b !in free
    ensures ByLength(free + {b}, m[Length(b) := (if Length(b) in m then m[Length(b)] else []) + [b]])
  {
    var n := Length(b);
    var s := if n in m then m[n] else [];
    assert b !in s;
    var m' := m[n := s + [b]];
    forall c | c in free + {b}
      ensures Length(c) in m' && c in m'[Length(c)]
    {
      if c != b {
        assert c in m[Length(c)];
      }
    }
  }

  lemma ByStartDrop(free: set<Block>, m: map<Key, Block>, b: Block)
    requires ByStart(free, m) && b in free
    ensures ByStart(free - {b}, m - {StartKey(b)})
  {
  }

  lemma ByStopDrop(free: set<Block>, m: map<Key, Block>, b: Block)
    requires ByStop(free, m) && b in free
    ensures ByStop(free - {b}, m - {StopKey(b)})
  {
  }

  lemma ByStartEnter(free: set<Block>, m: map<Key, Block>, b: Block)
    requires ByStart(free, m) && forall c :: c in free ==> StartKey(c) != StartKey(b)
    ensures ByStart(free + {b}, m[StartKey(b) := b])
  {
  }

  lemma ByStopEnter(free: set<Block>, m: map<Key, Block>, b: Block)
    requires ByStop(free, m) && forall c :: c in free ==> StopKey(c) != StopKey(b)
    ensures ByStop(free + {b}, m[StopKey(b) := b])
  {
  }

  lemma SortedEnter(s: seq<int>, m: map<int, seq<Block>>, n: int, v: seq<Block>)
    requires SortedKeys(s, m.Keys)
    ensures SortedKeys(if n in m then s else Insort(s, n), m[n := v].Keys)
  {
    if n in m {
      assert m[n := v].Keys == m.Keys;
    } else {
      SortedInsort(s, m.Keys, n);
      assert m[n := v].Keys == m.Keys + {n};
    }
  }

  /** The four indexes. */
  datatype Index = Index(lengths: seq<int>, lenToSeq: map<int, seq<Block>>,
                         startToBlock: map<Key, Block>, stopToBlock: map<Key, Block>)

  ghost predicate Describes(ix: Index, free: set<Block>) {
    && ByStart(free, ix.startToBlock)
    && ByStop(free, ix.stopToBlock)
    && ByLength(free, ix.lenToSeq)
    && SortedKeys(ix.lengths, ix.lenToSeq.Keys)
  }

  /** The indexes without `b`, when `s` is what is left of the list of its length. */
  ghost predicate Dropped(ix: Index, b: Block, s: seq<Block>, ix': Index) {
    && ix'.startToBlock == ix.startToBlock - {StartKey(b)}
    && ix'.stopToBlock == ix.stopToBlock - {StopKey(b)}
    && ix'.lenToSeq == WithSeq(ix.lenToSeq, Length(b), s)
    && SortedKeys(ix'.lengths, ix'.lenToSeq.Keys)
  }

  lemma DropDescribes(ix: Index, free: set<Block>, b: Block, s: seq<Block>, ix': Index)
    requires Describes(ix, free) && b in free && Dropped(ix, b, s, ix') && Distinct(s)
    requires forall c :: c in s <==> c in ix.lenToSeq[Length(b)] && c != b
    ensures Describes(ix', free - {b})
  {
    ByStartDrop(free, ix.startToBlock, b);
    ByStopDrop(free, ix.stopToBlock, b);
    ByLengthShrink(free, ix.lenToSeq, b, s);
  }

  /** What the bookkeeping of `_absorb` may rely on. */
  lemma AbsorbReady(ix: Index, free: set<Block>, b: Block)
    requires Describes(ix, free) && b in free
    ensures StartKey(b) in ix.startToBlock && StopKey(b) in ix.stopToBlock
    ensures Length(b) in ix.lenToSeq && b in ix.lenToSeq[Length(b)] && Length(b) in ix.lengths
    ensures var s := Remove(ix.lenToSeq[Length(b)], b);
            Distinct(s) && forall c :: c in s <==> c in ix.lenToSeq[Length(b)] && c != b
    ensures SortedKeys(Remove(ix.lengths, Length(b)), ix.lenToSeq.Keys - {Length(b)})
  {
    RemoveDistinct(ix.lenToSeq[Length(b)], b);
    SortedRemove(ix.lengths, ix.lenToSeq.Keys, Length(b));
  }

  /** The indexes with `b` entered. */
  function Entered(ix: Index, b: Block): Index {
    var n := Length(b);
    Index(
      if n in ix.lenToSeq then ix.lengths else Insort(ix.lengths, n),
      ix.lenToSeq[n := (if n in ix.lenToSeq then ix.lenToSeq[n] else []) + [b]],
      ix.startToBlock[StartKey(b) := b],
      ix.stopToBlock[StopKey(b) := b])
  }

  lemma EnterDescribes(ix: Index, free: set<Block>, b: Block)
    requires Describes(ix, free) && b !in free
    requires forall c :: c in free ==> StartKey(c) != StartKey(b) && StopKey(c) != StopKey(b)
    ensures Describes(Entered(ix, b), free + {b})
  {
    ByStartEnter(free, ix.startToBlock, b);
    ByStopEnter(free, ix.stopToBlock, b);
    ByLengthGrow(free, ix.lenToSeq, b);
    var n := Length(b);
    SortedEnter(ix.lengths, ix.lenToSeq, n, (if n in ix.lenToSeq then ix.lenToSeq[n] else []) + [b]);
  }

  // ----- The set of free blocks determines the indexes -----

  lemma ByStartUnique(free: set<Block>, a: map<Key, Block>, b: map<Key, Block>)
    requires ByStart(free, a) && ByStart(free, b)
    ensures a == b
  {
    assert forall k :: k in a ==> k in b && b[k] == a[k];
    assert forall k :: k in b ==> k in a && a[k] == b[k];
  }

  lemma ByStopUnique(free: set<Block>, a: map<Key, Block>, b: map<Key, Block>)
    requires ByStop(free, a) && ByStop(free, b)
    ensures a == b
  {
    assert forall k :: k in a ==> k in b && b[k] == a[k];
    assert forall k :: k in b ==> k in a && a[k] == b[k];
  }

  lemma ByLengthKeys(free: set<Block>, a: map<int, seq<Block>>, b: map<int, seq<Block>>)
    requires ByLength(free, a) && ByLength(free, b)
    ensures a.Keys <= b.Keys
    ensures forall n, x :: n in a && x in a[n] ==> n in b && x in b[n]
  {
    forall n | n in a
      ensures n in b && forall x :: x in a[n] ==> x in b[n]
    {
      var x := a[n][0];
      assert n in a && x in a[n] && Length(x) == n;
      assert Length(x) in b;
      forall y | y in a[n]
        ensures y in b[n]
      {
        assert y in b[Length(y)];
      }
    }
  }

  lemma ByLengthUnique(free: set<Block>, a: map<int, seq<Block>>, b: map<int, seq<Block>>)
    requires ByLength(free, a) && ByLength(free, b)
    ensures a.Keys == b.Keys
    ensures forall n :: n in a && n in b ==> multiset(a[n]) == multiset(b[n])
  {
    ByLengthKeys(free, a, b);
    ByLengthKeys(free, b, a);
    forall n | n in a && n in b
      ensures multiset(a[n]) == multiset(b[n])
    {
      SameElements(a[n], b[n]);
    }
  }

  lemma {:induction false} DistinctCount<T>(s: seq<T>, x: T)
    requires Distinct(s)
    ensures multiset(s)[x] == if x in s then 1 else 0
  {
    if s != [] {
      var n := |s| - 1;
      assert s == s[..n] + [s[n]];
      DistinctCount(s[..n], x);
    }
  }

  lemma SameElements<T>(a: seq<T>, b: seq<T>)
    requires Distinct(a) && Distinct(b) && forall x :: x in a <==> x in b
    ensures multiset(a) == multiset(b)
  {
    forall x
      ensures multiset(a)[x] == multiset(b)[x]
    {
      DistinctCount(a, x);
      DistinctCount(b, x);
    }
  }

  lemma SortedHead(a: seq<int>, b: seq<int>, keys: set<int>)
    requires SortedKeys(a, keys) && SortedKeys(b, keys) && a != []
    ensures b != [] && b[0] <= a[0]
  {
    assert a[0] in a && a[0] in b;
  }

  lemma SortedTail(a: seq<int>, keys: set<int>)
    requires SortedKeys(a, keys) && a != []
    ensures SortedKeys(a[1..], keys - {a[0]})
  {
    SortedDelete(a, keys, 0);
    assert a[..0] + a[1..] == a[1..];
  }

  lemma {:induction false} SortedUnique(a: seq<int>, b: seq<int>, keys: set<int>)
    requires SortedKeys(a, keys) && SortedKeys(b, keys)
    ensures a == b
    decreases |a|
  {
    hide SortedKeys;
    if b != [] {
      SortedHead(b, a, keys);
    }
    if a != [] {
      SortedHead(a, b, keys);
      SortedTail(a, keys);
      SortedTail(b, keys);
      SortedUnique(a[1..], b[1..], keys - {a[0]});
      assert a == [a[0]] + a[1..] && b == [b[0]] + b[1..];
    }
  }
}
