/**
 * The shared-memory allocator of billiard/heap.py: best fit, splitting what is too large,
 * merging what is freed with its free neighbours, and putting off frees that arrive while
 * the heap's lock is taken.
 */
module SharedHeap {
  import opened Blocks
  import opened FreeIndex
  import opened Rounding
  import opened Tally

  const MAX_SIZE: nat := 0x7fff_ffff_ffff_ffff   // sys.maxsize

  datatype Outcome<+T> = Ok(value: T) | AssertionError | KeyError

  // ----- Frees, on the set of live blocks and the list of pending ones -----

  /** What draining the pending list leaves: the live blocks, the rest of the list, and whether
      every block popped was live. */
  datatype Drain = Drain(live: set<Block>, rest: seq<Block>, ok: bool)

  function DrainAll(live: set<Block>, pending: seq<Block>): Drain {
    if pending == [] then Drain(live, [], true)
    else
      var n := |pending| - 1;
      if pending[n] !in live then Drain(live, pending[..n], false)
      else DrainAll(live - {pending[n]}, pending[..n])
  }

  /** One call of `free`: `locked` says whether it got the lock. */
  datatype FreeCall = FreeCall(block: Block, locked: bool)

  function DoFree(live: set<Block>, pending: seq<Block>, c: FreeCall): Drain {
    if !c.locked then Drain(live, pending + [c.block], true)
    else
      var d := DrainAll(live, pending);
      if d.ok && c.block in d.live then d.(live := d.live - {c.block}) else d.(ok := false)
  }

  /** Draining fails exactly when a pending block is not live or is pending twice. */
  lemma {:induction false} DrainOkIff(live: set<Block>, pending: seq<Block>)
    ensures DrainAll(live, pending).ok <==> Distinct(pending) && Elements(pending) <= live
    ensures DrainAll(live, pending).ok ==>
              DrainAll(live, pending) == Drain(live - Elements(pending), [], true)
  {
    if pending != [] {
      var n := |pending| - 1;
      var b, rest := pending[n], pending[..n];
      assert pending == rest + [b];
      assert Elements(pending) == Elements(rest) + {b};
      if b in live {
        DrainOkIff(live - {b}, rest);
        assert Distinct(pending) <==> Distinct(rest) && b !in rest by {
          DistinctSnoc(rest, b);
        }
        assert live - {b} - Elements(rest) == live - Elements(pending);
      }
    } else {
      assert live - Elements(pending) == live;
    }
  }

  /** Where draining fails, it has popped blocks off the end of the list, freeing each of them, up
      to and including one that is not live. */
  lemma {:induction false} DrainStopsAt(live: set<Block>, pending: seq<Block>)
    requires !DrainAll(live, pending).ok
    ensures var d := DrainAll(live, pending);
            var n := |d.rest|;
            && n < |pending| && d.rest == pending[..n] && pending[n] !in d.live
            && d.live == live - Elements(pending[n + 1..]) && Elements(pending[n + 1..]) <= live
  {
    hide Elements;
    var m := |pending| - 1;
    var b := pending[m];
    if b in live {
      DrainStopsAt(live - {b}, pending[..m]);
      var n := |DrainAll(live, pending).rest|;
      assert pending[n + 1..] == pending[..m][n + 1..] + [b];
      ElementsSnoc(pending[..m][n + 1..], b);
    } else {
      assert pending[m + 1..] == [];
      ElementsNone<Block>();
    }
  }

  // ----- Any order of frees, now or later -----

  function BlocksOf(calls: seq<FreeCall>): seq<Block> {
    seq(|calls|, i requires 0 <= i < |calls| => calls[i].block)
  }

  /** A series of calls of `free`, up to the first one that fails. */
  function FreeRun(live: set<Block>, pending: seq<Block>, calls: seq<FreeCall>): Drain
    decreases |calls|
  {
    if calls == [] then Drain(live, pending, true)
    else
      var d := DoFree(live, pending, calls[0]);
      if d.ok then FreeRun(d.live, d.rest, calls[1..]) else d
  }

  /** Nothing is freed twice and only live blocks are freed. */
  ghost predicate Proper(live: set<Block>, pending: seq<Block>, calls: seq<FreeCall>) {
    && Elements(pending) <= live && Elements(BlocksOf(calls)) <= live
    && Distinct(pending) && Distinct(BlocksOf(calls))
    && Elements(pending) !! Elements(BlocksOf(calls))
  }

  lemma ProperStep(live: set<Block>, pending: seq<Block>, calls: seq<FreeCall>)
    requires Proper(live, pending, calls) && calls != []
    ensures var d := DoFree(live, pending, calls[0]);
            && d.ok && Proper(d.live, d.rest, calls[1..])
            && d.live - Elements(d.rest) == live - Elements(pending) - {calls[0].block}
    ensures Elements(BlocksOf(calls)) == Elements(BlocksOf(calls[1..])) + {calls[0].block}
  {
    var b, later := calls[0].block, BlocksOf(calls[1..]);
    assert BlocksOf(calls) == [b] + later;
    assert Distinct(later) && b !in later by {
      forall i | 0 <= i < |later|
        ensures later[i] != b
      {
        assert BlocksOf(calls)[i + 1] == later[i] && BlocksOf(calls)[0] == b;
      }
      forall i, j | 0 <= i < j < |later|
        ensures later[i] != later[j]
      {
        assert BlocksOf(calls)[i + 1] == later[i] && BlocksOf(calls)[j + 1] == later[j];
      }
    }
    assert b in BlocksOf(calls);
    if calls[0].locked {
      DrainOkIff(live, pending);
    } else {
      DistinctSnoc(pending, b);
      assert Elements(pending + [b]) == Elements(pending) + {b};
    }
  }

  /** After proper frees, immediate or deferred, what is live and not pending is what it was
      without the freed blocks; no call fails. */
  lemma {:induction false} FreeRunEffect(live: set<Block>, pending: seq<Block>, calls: seq<FreeCall>)
    requires Proper(live, pending, calls)
    ensures var d := FreeRun(live, pending, calls);
            && d.ok && Proper(d.live, d.rest, [])
            && d.live - Elements(d.rest) == live - Elements(pending) - Elements(BlocksOf(calls))
    decreases |calls|
  {
    if calls == [] {
      assert BlocksOf(calls) == [];
    } else {
      ProperStep(live, pending, calls);
      var d := DoFree(live, pending, calls[0]);
      FreeRunEffect(d.live, d.rest, calls[1..]);
    }
  }

  /** Frees that do not get the lock are kept in the order in which they come. */
  lemma {:induction false} DeferredInOrder(live: set<Block>, pending: seq<Block>, calls: seq<FreeCall>)
    requires forall k :: 0 <= k < |calls| ==> !calls[k].locked
    ensures FreeRun(live, pending, calls) == Drain(live, pending + BlocksOf(calls), true)
    decreases |calls|
  {
    if calls == [] {
      assert pending + BlocksOf(calls) == pending;
    } else {
      DeferredInOrder(live, pending + [calls[0].block], calls[1..]);
      assert pending + [calls[0].block] + BlocksOf(calls[1..]) == pending + BlocksOf(calls);
    }
  }

  /** The live blocks after the calls and a final draining of the pending list. */
  function LiveAfter(live: set<Block>, calls: seq<FreeCall>): set<Block> {
    var d := FreeRun(live, [], calls);
    DrainAll(d.live, d.rest).live
  }

  /** The order of frees, and whether each is immediate or deferred, makes no difference: two
      heaps that start with the same live blocks, free the same blocks and have drained their
      pending lists have the same free blocks and the same indexes. */
  lemma OrderIndependent(arenas: seq<nat>, live: set<Block>, a: seq<FreeCall>, b: seq<FreeCall>,
                         ia: Index, fa: set<Block>, ib: Index, fb: set<Block>)
    requires Proper(live, [], a) && Proper(live, [], b)
    requires Elements(BlocksOf(a)) == Elements(BlocksOf(b))
    requires Describes(ia, fa) && Kept(arenas, fa, LiveAfter(live, a))
    requires Describes(ib, fb) && Kept(arenas, fb, LiveAfter(live, b))
    ensures LiveAfter(live, a) == LiveAfter(live, b) == live - Elements(BlocksOf(a))
    ensures fa == fb && SameIndex(ia, ib)
  {
    hide Kept, Describes, SameIndex, Proper, FreeRun;
    LiveAfterFrees(live, a);
    LiveAfterFrees(live, b);
    Canonical(arenas, live - Elements(BlocksOf(a)), ia, fa, ib, fb);
  }

  lemma LiveAfterFrees(live: set<Block>, calls: seq<FreeCall>)
    requires Proper(live, [], calls)
    ensures LiveAfter(live, calls) == live - Elements(BlocksOf(calls))
  {
    FreeRunEffect(live, [], calls);
    var d := FreeRun(live, [], calls);
    DrainOkIff(d.live, d.rest);
    assert Elements<Block>([]) == {};
  }

  /** Equal up to the order within each list of `_len_to_seq`. */
  ghost predicate SameIndex(a: Index, b: Index) {
    && a.lengths == b.lengths
    && a.startToBlock == b.startToBlock && a.stopToBlock == b.stopToBlock
    && a.lenToSeq.Keys == b.lenToSeq.Keys
    && forall n :: n in a.lenToSeq && n in b.lenToSeq ==> multiset(a.lenToSeq[n]) == multiset(b.lenToSeq[n])
  }

  /** A well-kept heap is determined by its arenas and its live blocks. */
  lemma Canonical(arenas: seq<nat>, live: set<Block>, ia: Index, fa: set<Block>, ib: Index, fb: set<Block>)
    requires Describes(ia, fa) && Kept(arenas, fa, live)
    requires Describes(ib, fb) && Kept(arenas, fb, live)
    ensures fa == fb && SameIndex(ia, ib)
    ensures forall g :: g in fa <==> MaximalGap(arenas, live, g)
  {
    hide MaximalGap, Tiles, NoneTouch, Aligned, ByStart, ByStop, ByLength, SortedKeys;
    forall g
      ensures g in fa <==> MaximalGap(arenas, live, g)
      ensures g in fb <==> MaximalGap(arenas, live, g)
    {
      FreeIffGap(arenas, live, fa, g);
      FreeIffGap(arenas, live, fb, g);
    }
    assert fa == fb;
    ByStartUnique(fa, ia.startToBlock, ib.startToBlock);
    ByStopUnique(fa, ia.stopToBlock, ib.stopToBlock);
    ByLengthUnique(fa, ia.lenToSeq, ib.lenToSeq);
    SortedUnique(ia.lengths, ib.lengths, ia.lenToSeq.Keys);
  }

  // ----- BufferWrapper -----

  /** The memory views of two BufferWrappers that are both alive lie inside their arenas and
      do not share a byte. */
  lemma ViewsDisjoint(arenas: seq<nat>, free: set<Block>, live: set<Block>, b: Block, n: nat, c: Block, m: nat)
    requires Kept(arenas, free, live) && b in live && c in live && b != c
    requires n <= Length(b) && m <= Length(c)
    ensures b.start + n <= arenas[b.arena] && c.start + m <= arenas[c.arena]
    ensures b.arena == c.arena ==> b.start + n <= c.start || c.start + m <= b.start
  {
    assert b in free + live && c in free + live;
    assert InArena(arenas, b) && InArena(arenas, c) && !Overlap(b, c);
  }

  /** `n` fits into the gap `g`. */
  ghost predicate Fits(arenas: seq<nat>, live: set<Block>, n: nat, g: Block) {
    MaximalGap(arenas, live, g) && Length(g) >= n
  }

  /** `g` is a smallest gap into which `n` fits. */
  ghost predicate BestFit(arenas: seq<nat>, live: set<Block>, n: nat, g: Block) {
    Fits(arenas, live, n, g) && forall h :: Fits(arenas, live, n, h) ==> Length(g) <= Length(h)
  }

  /** What `malloc` of `n` bytes promises, for a heap with arenas `base` and `_size` equal to
      `size` whose pending frees leave `d`: the result `r` and the new arenas, size, live blocks
      and pending list. */
  ghost predicate Allocated(base: seq<nat>, d: Drain, n: nat, size: nat, pageShift: nat, r: Outcome<Block>,
                            arenas: seq<nat>, newSize: nat, live: set<Block>, pending: seq<Block>)
  {
    && pending == d.rest
    && (r.KeyError? <==> !d.ok)
    && (r.KeyError? ==> arenas == base && newSize == size && live == d.live)
    && (r.Ok? ==>
          var b, want := r.value, RoundUp(n, 3);
          && Length(b) == want && b.start % 8 == 0 && InArena(arenas, b)
          && live == d.live + {b} && b !in d.live
          && (forall c :: c in d.live ==> !Overlap(b, c))
          && Placed(base, d.live, want, size, pageShift, b, arenas, newSize))
  }

  /** Where a block of `want` bytes goes: to the start of a smallest gap it fits in, or if it
      fits in none to the start of one new arena of whole pages, and then the next arena will be
      twice as large. */
  ghost predicate Placed(base: seq<nat>, live: set<Block>, want: nat, size: nat, pageShift: nat,
                         b: Block, arenas: seq<nat>, newSize: nat)
  {
    if exists g :: Fits(base, live, want, g)
    then arenas == base && newSize == size &&
         exists g :: BestFit(base, live, want, g) && g.arena == b.arena && g.start == b.start
    else arenas == base + [RoundUp(if size > want then size else want, pageShift)]
         && b.arena == |base| && b.start == 0 && newSize == 2 * size
  }

  /** Fitting a free block and fitting a maximal gap are the same. */
  lemma FitsGaps(arenas: seq<nat>, live: set<Block>, free: set<Block>, n: nat)
    requires Kept(arenas, free, live)
    ensures forall g :: Fits(arenas, live, n, g) <==> g in free && Length(g) >= n
  {
    forall g
      ensures Fits(arenas, live, n, g) <==> g in free && Length(g) >= n
    {
      FreeIffGap(arenas, live, free, g);
    }
  }

  lemma KeptNew(arenas: seq<nat>, free: set<Block>, live: set<Block>, b: Block)
    requires Kept(arenas, free, live + {b}) && b !in live
    ensures InArena(arenas, b) && b.start % 8 == 0
    ensures forall c :: c in live ==> !Overlap(b, c)
  {
    assert b in free + (live + {b});
  }

  lemma LooseAligned(arenas: seq<nat>, free: set<Block>, live: set<Block>, b: Block)
    requires Loose(arenas, free, live, b)
    ensures b.start % 8 == 0 && b.stop % 8 == 0
  {
    assert b in free + live + {b};
  }

  /** A key that is present in an index leads to a free block that ends (begins) there. */
  lemma PrevFree(ix: Index, free: set<Block>, k: Key)
    requires Describes(ix, free) && k in ix.stopToBlock
    ensures ix.stopToBlock[k] in free && StopKey(ix.stopToBlock[k]) == k
  {
  }

  lemma NextFree(ix: Index, free: set<Block>, k: Key)
    requires Describes(ix, free) && k in ix.startToBlock
    ensures ix.startToBlock[k] in free && StartKey(ix.startToBlock[k]) == k
  {
  }

  /** A key that is missing from an index means that no free block ends (begins) there. */
  lemma NoPrev(ix: Index, free: set<Block>, b: Block)
    requires Describes(ix, free) && Key(b.arena, b.start) !in ix.stopToBlock
    ensures !EndsAt(free, b.arena, b.start)
  {
    forall c | c in free
      ensures !(c.arena == b.arena && c.stop == b.start)
    {
      assert StopKey(c) in ix.stopToBlock;
    }
  }

  lemma NoNext(ix: Index, free: set<Block>, b: Block)
    requires Describes(ix, free) && Key(b.arena, b.stop) !in ix.startToBlock
    ensures !BeginsAt(free, b.arena, b.stop)
  {
    forall c | c in free
      ensures !(c.arena == b.arena && c.start == b.stop)
    {
      assert StartKey(c) in ix.startToBlock;
    }
  }

  /** Position i of the sorted lengths separates what is too short from what fits. */
  lemma BisectFinds(ix: Index, free: set<Block>, n: int, i: nat)
    requires Describes(ix, free) && i == BisectLeft(ix.lengths, n)
    ensures i == |ix.lengths| ==> forall g :: g in free ==> Length(g) < n
    ensures i < |ix.lengths| ==>
              && ix.lengths[i] >= n
              && (exists g :: g in free && Length(g) >= n)
              && forall g :: g in free && Length(g) >= n ==> ix.lengths[i] <= Length(g)
  {
    hide ByStart, ByStop;
    forall g | g in free
      ensures i == |ix.lengths| ==> Length(g) < n
      ensures i < |ix.lengths| && Length(g) >= n ==> ix.lengths[i] <= Length(g)
    {
      BisectSplits(ix.lengths, ix.lenToSeq.Keys, n, Length(g));
    }
    if i < |ix.lengths| {
      PopReady(ix, free, i);
    }
  }

  lemma BisectSplits(s: seq<int>, keys: set<int>, n: int, x: int)
    requires SortedKeys(s, keys) && x in keys
    ensures var i := BisectLeft(s, n); if i == |s| then x < n else x < n || s[i] <= x
  {
    assert x in s;
  }

  /** The indexes after `_malloc` has popped the last block of the i-th length. */
  function Popped(ix: Index, i: nat): Index
    requires i < |ix.lengths| && ix.lengths[i] in ix.lenToSeq && ix.lenToSeq[ix.lengths[i]] != []
  {
    var n := ix.lengths[i];
    var s := ix.lenToSeq[n];
    var b := s[|s| - 1];
    Index(if |s| == 1 then ix.lengths[..i] + ix.lengths[i + 1..] else ix.lengths,
          WithSeq(ix.lenToSeq, n, s[..|s| - 1]),
          ix.startToBlock - {StartKey(b)},
          ix.stopToBlock - {StopKey(b)})
  }

  /** The list of a length on record is not empty, and popping its last block takes that
      block out of all four indexes. */
  lemma PopDescribes(ix: Index, free: set<Block>, i: nat)
    requires Describes(ix, free) && i < |ix.lengths|
    ensures ix.lengths[i] in ix.lenToSeq && ix.lenToSeq[ix.lengths[i]] != []
    ensures var s := ix.lenToSeq[ix.lengths[i]];
            var b := s[|s| - 1];
            && b in free && Length(b) == ix.lengths[i]
            && StartKey(b) in ix.startToBlock && StopKey(b) in ix.stopToBlock
            && Describes(Popped(ix, i), free - {b})
  {
    hide ByStart, ByStop, ByLength, Distinct;
    PopReady(ix, free, i);
    var n := ix.lengths[i];
    var s := ix.lenToSeq[n];
    PoppedLengths(ix.lengths, ix.lenToSeq, i, s[..|s| - 1]);
    DropDescribes(ix, free, s[|s| - 1], s[..|s| - 1], Popped(ix, i));
  }

  lemma PopReady(ix: Index, free: set<Block>, i: nat)
    requires Describes(ix, free) && i < |ix.lengths|
    ensures ix.lengths[i] in ix.lenToSeq && ix.lenToSeq[ix.lengths[i]] != []
    ensures var s := ix.lenToSeq[ix.lengths[i]];
            var b := s[|s| - 1];
            && b in free && Length(b) == ix.lengths[i]
            && StartKey(b) in ix.startToBlock && StopKey(b) in ix.stopToBlock
            && Distinct(s[..|s| - 1]) && forall c :: c in s[..|s| - 1] <==> c in s && c != b
  {
    hide SortedKeys;
    KeyOnRecord(ix.lengths, ix.lenToSeq.Keys, i);
    var n := ix.lengths[i];
    assert n in ix.lenToSeq && ix.lenToSeq[n] != [];
    var s := ix.lenToSeq[n];
    var b := s[|s| - 1];
    DistinctSnoc(s[..|s| - 1], b);
    assert s == s[..|s| - 1] + [b] && b in s;
  }

  lemma KeyOnRecord(lengths: seq<int>, keys: set<int>, i: nat)
    requires SortedKeys(lengths, keys) && i < |lengths|
    ensures lengths[i] in keys
  {
    assert lengths[i] in lengths;
  }

  lemma PoppedLengths(lengths: seq<int>, m: map<int, seq<Block>>, i: nat, s: seq<Block>)
    requires SortedKeys(lengths, m.Keys) && i < |lengths| && lengths[i] in m
    ensures SortedKeys(if s == [] then lengths[..i] + lengths[i + 1..] else lengths, WithSeq(m, lengths[i], s).Keys)
  {
    if s == [] {
      SortedDelete(lengths, m.Keys, i);
      assert (m - {lengths[i]}).Keys == m.Keys - {lengths[i]};
    } else {
      assert m[lengths[i] := s].Keys == m.Keys;
    }
  }

  /** A heap without arenas is well kept. */
  lemma EmptyHeap()
    ensures Describes(Index([], map[], map[], map[]), {}) && Kept([], {}, {})
  {
  }

  class Heap {
    const pageShift: nat
    var lastPid: nat
    var size: nat
    var lengths: seq<int>
    var lenToSeq: map<int, seq<Block>>
    var startToBlock: map<Key, Block>
    var stopToBlock: map<Key, Block>
    var allocatedBlocks: set<Block>
    var arenas: seq<nat>
    var pending: seq<Block>
    ghost var free: set<Block>

    function Ix(): Index
      reads this
    {
      Index(lengths, lenToSeq, startToBlock, stopToBlock)
    }

    ghost predicate Valid()
      reads this
    {
      Describes(Ix(), free) && Kept(arenas, free, allocatedBlocks) && pageShift >= 3
    }

    constructor (pageShift: nat, size: nat, pid: nat)
      requires pageShift >= 3
      ensures Valid() && allocatedBlocks == {} && pending == [] && arenas == []
      ensures this.pageShift == pageShift && this.size == size && lastPid == pid
    {
      this.pageShift := pageShift;
      lastPid := pid;
      this.size := size;
      lengths, lenToSeq, startToBlock, stopToBlock := [], map[], map[], map[];
      allocatedBlocks, arenas, pending, free := {}, [], [], {};
    }

    /** `__init__` again, in a process that has inherited the heap by a fork. */
    method Reinitialize(pid: nat)
      requires pageShift >= 3
      modifies this
      ensures Valid() && allocatedBlocks == {} && pending == [] && arenas == []
      ensures size == Pow2(pageShift) && lastPid == pid
    {
      hide Describes, Kept, Pow2;
      EmptyHeap();
      lastPid, size := pid, Pow2(pageShift);
      lengths, lenToSeq, startToBlock, stopToBlock := [], map[], map[], map[];
      allocatedBlocks, arenas, pending, free := {}, [], [], {};
    }

    /** `_absorb`: deregister a free block so that it can be merged with a neighbour. */
    method Absorb(block: Block) returns (start: nat, stop: nat)
      requires Describes(Ix(), free) && block in free
      modifies this`startToBlock, this`stopToBlock, this`lenToSeq, this`lengths, this`free
      ensures Describes(Ix(), free) && free == old(free) - {block}
      ensures start == block.start && stop == block.stop
    {
      AbsorbReady(Ix(), free, block);
      startToBlock := startToBlock - {StartKey(block)};
      stopToBlock := stopToBlock - {StopKey(block)};
      var length := Length(block);
      var s := Remove(lenToSeq[length], block);
      if s == [] {
        lengths := Remove(lengths, length);
        lenToSeq := lenToSeq - {length};
        assert lenToSeq.Keys == old(lenToSeq).Keys - {length};
      } else {
        lenToSeq := lenToSeq[length := s];
        assert lenToSeq.Keys == old(lenToSeq).Keys;
      }
      DropDescribes(old(Ix()), free, block, s, Ix());
      free := free - {block};
      return block.start, block.stop;
    }

    /** `_free`: give back a block, merged with its free neighbours. */
    method FreeBlock(block: Block, ghost live: set<Block>)
      requires Describes(Ix(), free) && Loose(arenas, free, live, block)
      modifies this`startToBlock, this`stopToBlock, this`lenToSeq, this`lengths, this`free
      ensures Describes(Ix(), free) && Kept(arenas, free, live)
    {
      hide Kept, Loose, EndsAt, BeginsAt, Describes;
      var arena, start, stop := block.arena, block.start, block.stop;
      if Key(arena, start) in stopToBlock {
        var prev := stopToBlock[Key(arena, start)];
        PrevFree(Ix(), free, Key(arena, start));
        LooseMergePrev(arenas, free, live, prev, block);
        var s, _ := Absorb(prev);
        start := s;
      } else {
        NoPrev(Ix(), free, block);
      }
      ghost var half := Block(arena, start, stop);
      assert Loose(arenas, free, live, half) && !EndsAt(free, arena, start);
      if Key(arena, stop) in startToBlock {
        var next := startToBlock[Key(arena, stop)];
        NextFree(Ix(), free, Key(arena, stop));
        LooseMergeNext(arenas, free, live, half, next);
        var _, e := Absorb(next);
        stop := e;
      } else {
        NoNext(Ix(), free, half);
      }
      var merged := Block(arena, start, stop);
      LooseToFree(arenas, free, live, merged);
      EnterDescribes(Ix(), free, merged);
      Register(merged);
    }

    /** The end of `_free`: enter a block into the indexes. */
    method Register(block: Block)
      modifies this`startToBlock, this`stopToBlock, this`lenToSeq, this`lengths, this`free
      ensures Ix() == Entered(old(Ix()), block) && free == old(free) + {block}
    {
      var length := Length(block);
      if length in lenToSeq {
        lenToSeq := lenToSeq[length := lenToSeq[length] + [block]];
      } else {
        assert [] + [block] == [block];
        lenToSeq := lenToSeq[length := [block]];
        lengths := Insort(lengths, length);
      }
      startToBlock := startToBlock[StartKey(block) := block];
      stopToBlock := stopToBlock[StopKey(block) := block];
      free := free + {block};
    }

    /** `_free_pending_blocks`, called with the lock held. */
    method FreePendingBlocks() returns (ok: bool)
      requires Valid()
      modifies this`startToBlock, this`stopToBlock, this`lenToSeq, this`lengths, this`free,
               this`allocatedBlocks, this`pending
      ensures Valid()
      ensures Drain(allocatedBlocks, pending, ok) == DrainAll(old(allocatedBlocks), old(pending))
    {
      while pending != []
        invariant Valid()
        invariant DrainAll(allocatedBlocks, pending) == DrainAll(old(allocatedBlocks), old(pending))
        decreases |pending|
      {
        var block := pending[|pending| - 1];
        pending := pending[..|pending| - 1];
        if block !in allocatedBlocks {
          return false;
        }
        LiveToLoose(arenas, free, allocatedBlocks, block);
        allocatedBlocks := allocatedBlocks - {block};
        FreeBlock(block, allocatedBlocks);
      }
      return true;
    }

    /** `free`: give back a block, now or, if the lock is taken, later. */
    method Free(block: Block, pid: nat, gotLock: bool) returns (r: Outcome<()>)
      requires Valid()
      modifies this`startToBlock, this`stopToBlock, this`lenToSeq, this`lengths, this`free,
               this`allocatedBlocks, this`pending
      ensures Valid()
      ensures pid != lastPid ==> r.AssertionError? && unchanged(this)
      ensures pid == lastPid ==>
                Drain(allocatedBlocks, pending, r.Ok?)
                == DoFree(old(allocatedBlocks), old(pending), FreeCall(block, gotLock))
      ensures pid == lastPid ==> r.Ok? || r.KeyError?
    {
      if pid != lastPid {
        return AssertionError;
      }
      if !gotLock {
        pending := pending + [block];
        return Ok(());
      }
      var ok := FreePendingBlocks();
      if !ok || block !in allocatedBlocks {
        return KeyError;
      }
      LiveToLoose(arenas, free, allocatedBlocks, block);
      allocatedBlocks := allocatedBlocks - {block};
      FreeBlock(block, allocatedBlocks);
      return Ok(());
    }

    /** One more arena, of whole pages, and twice as large the next time. */
    method NewArena(n: nat) returns (b: Block)
      requires Valid() && n > 0
      modifies this`arenas, this`size
      ensures Loose(arenas, free, allocatedBlocks, b) && Length(b) >= n
      ensures var length := RoundUp(if old(size) > n then old(size) else n, pageShift);
              arenas == old(arenas) + [length] && b == Block(|old(arenas)|, 0, length) && size == 2 * old(size)
    {
      hide Describes, Kept, Loose, RoundUp;
      var length := RoundUp(if size > n then size else n, pageShift);
      RoundUpIsCeiling(if size > n then size else n, pageShift);
      MultipleOfEight(length, pageShift);
      size := size * 2;
      ArenaToLoose(arenas, free, allocatedBlocks, length);
      b := Block(|arenas|, 0, length);
      arenas := arenas + [length];
    }

    /** `_malloc`: take out a free block of the smallest sufficient length, or a new arena. */
    method TakeBlock(n: nat) returns (b: Block)
      requires Valid() && n > 0
      modifies this`startToBlock, this`stopToBlock, this`lenToSeq, this`lengths, this`free,
               this`arenas, this`size
      ensures Describes(Ix(), free) && Loose(arenas, free, allocatedBlocks, b) && Length(b) >= n
      ensures if exists g :: g in old(free) && Length(g) >= n
              then arenas == old(arenas) && size == old(size) && b in old(free) &&
                   forall g :: g in old(free) && Length(g) >= n ==> Length(b) <= Length(g)
              else var length := RoundUp(if old(size) > n then old(size) else n, pageShift);
                   arenas == old(arenas) + [length] && b == Block(|old(arenas)|, 0, length) && size == 2 * old(size)
    {
      hide Describes, Kept, Loose, RoundUp;
      var i := BisectLeft(lengths, n);
      BisectFinds(Ix(), free, n, i);
      if i == |lengths| {
        b := NewArena(n);
      } else {
        PopDescribes(Ix(), free, i);
        var length := lengths[i];
        var s := lenToSeq[length];
        b := s[|s| - 1];
        s := s[..|s| - 1];
        if s == [] {
          lenToSeq := lenToSeq - {length};
          lengths := lengths[..i] + lengths[i + 1..];
        } else {
          lenToSeq := lenToSeq[length := s];
        }
        startToBlock := startToBlock - {StartKey(b)};
        stopToBlock := stopToBlock - {StopKey(b)};
        assert Ix() == Popped(old(Ix()), i);
        FreeToLoose(arenas, free, allocatedBlocks, b);
        free := free - {b};
      }
    }

    /** The middle of `malloc`: place a block of `want` bytes and keep the rest free. */
    method Carve(want: nat) returns (block: Block)
      requires Valid() && want > 0 && want % 8 == 0
      modifies this
      ensures Valid() && lastPid == old(lastPid) && pending == old(pending)
      ensures allocatedBlocks == old(allocatedBlocks) + {block} && Length(block) == want
      ensures block !in old(allocatedBlocks)
      ensures Placed(old(arenas), old(allocatedBlocks), want, old(size), pageShift, block, arenas, size)
    {
      hide Describes, Kept, Loose, MaximalGap, RoundUp;
      ghost var live := allocatedBlocks;
      FitsGaps(arenas, live, free, want);
      var whole := TakeBlock(want);
      var newStop := whole.start + want;
      block := Block(whole.arena, whole.start, newStop);
      if newStop < whole.stop {
        LooseAligned(arenas, free, live, whole);
        LooseSplit(arenas, free, live, whole, newStop);
        FreeBlock(Block(whole.arena, newStop, whole.stop), live + {block});
      } else {
        LooseToLive(arenas, free, live, whole);
      }
      allocatedBlocks := allocatedBlocks + {block};
      assert BestFit(old(arenas), live, want, whole) || !exists g :: Fits(old(arenas), live, want, g);
    }

    /** `malloc`: a block of exactly the rounded size, out of the smallest gap it fits in, or
        out of a new arena if it fits in none.  A heap inherited by a fork starts afresh. */
    method Malloc(n: int, pid: nat) returns (r: Outcome<Block>)
      requires Valid()
      modifies this
      ensures Valid()
      ensures !(0 <= n < MAX_SIZE) <==> r.AssertionError?
      ensures r.AssertionError? ==> unchanged(this)
      ensures 0 <= n < MAX_SIZE ==>
                lastPid == pid &&
                var forked := pid != old(lastPid);
                Allocated(if forked then [] else old(arenas),
                          DrainAll(if forked then {} else old(allocatedBlocks), if forked then [] else old(pending)),
                          if n > 0 then n else 1,
                          if forked then Pow2(pageShift) else old(size), pageShift,
                          r, arenas, size, allocatedBlocks, pending)
    {
      hide Placed, RoundUp, Pow2, Describes, Kept, DrainAll;
      if !(0 <= n < MAX_SIZE) {
        return AssertionError;
      }
      if pid != lastPid {
        Reinitialize(pid);
      }
      var ok := FreePendingBlocks();
      if !ok {
        return KeyError;
      }
      var want := RoundUp(if n > 0 then n else 1, 3);
      RoundUpIsCeiling(if n > 0 then n else 1, 3);
      MultipleOfEight(want, 3);
      ghost var live := allocatedBlocks;
      var block := Carve(want);
      KeptNew(arenas, free, live, block);
      return Ok(block);
    }
  }

  /** A series of calls of `free` on one heap does to its live and pending blocks what FreeRun
      says, and keeps it valid throughout. */
  method FreeSeries(h: Heap, calls: seq<FreeCall>) returns (ok: bool)
    requires h.Valid()
    modifies h
    ensures h.Valid() && h.arenas == old(h.arenas)
    ensures Drain(h.allocatedBlocks, h.pending, ok) == FreeRun(old(h.allocatedBlocks), old(h.pending), calls)
  {
    var i := 0;
    assert calls[0..] == calls;
    while i < |calls|
      invariant 0 <= i <= |calls|
      invariant h.Valid() && h.arenas == old(h.arenas) && h.lastPid == old(h.lastPid)
      invariant FreeRun(h.allocatedBlocks, h.pending, calls[i..])
             == FreeRun(old(h.allocatedBlocks), old(h.pending), calls)
    {
      assert calls[i..][0] == calls[i] && calls[i..][1..] == calls[i + 1..];
      var r := h.Free(calls[i].block, h.lastPid, calls[i].locked);
      if !r.Ok? {
        return false;
      }
      i := i + 1;
    }
    return true;
  }

  /** Two heaps with the same arenas and live blocks free the same blocks, each in its own order
      and each now or later, beginning with what is pending; once both have drained their pending
      lists they have the same live blocks, the same free blocks and the same indexes. */
  method FreeEitherWay(g: Heap, h: Heap, a: seq<FreeCall>, b: seq<FreeCall>)
    requires g != h && g.Valid() && h.Valid()
    requires g.arenas == h.arenas && g.allocatedBlocks == h.allocatedBlocks
    requires Proper(g.allocatedBlocks, g.pending, a) && Proper(h.allocatedBlocks, h.pending, b)
    requires Elements(g.pending) + Elements(BlocksOf(a)) == Elements(h.pending) + Elements(BlocksOf(b))
    modifies g, h
    ensures g.Valid() && h.Valid() && g.pending == h.pending == []
    ensures g.allocatedBlocks == h.allocatedBlocks
                              == old(g.allocatedBlocks) - old(Elements(g.pending)) - Elements(BlocksOf(a))
    ensures g.free == h.free && SameIndex(g.Ix(), h.Ix())
  {
    hide Describes, Kept, Proper, SameIndex, FreeRun, DrainAll;
    ghost var live, gone := g.allocatedBlocks, Elements(g.pending) + Elements(BlocksOf(a));
    assert live - gone == live - Elements(g.pending) - Elements(BlocksOf(a));
    assert live - gone == live - Elements(h.pending) - Elements(BlocksOf(b));
    FreeAndDrain(g, a);
    FreeAndDrain(h, b);
    Canonical(g.arenas, g.allocatedBlocks, g.Ix(), g.free, h.Ix(), h.free);
  }

  /** Proper frees and a final draining never fail, and take away exactly the freed blocks. */
  method FreeAndDrain(h: Heap, calls: seq<FreeCall>)
    requires h.Valid() && Proper(h.allocatedBlocks, h.pending, calls)
    modifies h
    ensures h.Valid() && h.pending == [] && h.arenas == old(h.arenas)
    ensures h.allocatedBlocks == old(h.allocatedBlocks) - old(Elements(h.pending)) - Elements(BlocksOf(calls))
  {
    hide Describes, Kept, FreeRun, DrainAll;
    FreeRunEffect(h.allocatedBlocks, h.pending, calls);
    var ok := FreeSeries(h, calls);
    DrainOkIff(h.allocatedBlocks, h.pending);
    ok := h.FreePendingBlocks();
  }
}
