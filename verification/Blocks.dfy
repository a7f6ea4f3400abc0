/**
 * Blocks of the arenas of billiard/heap.py, as values: what it means for a set of blocks to
 * tile the arenas, how merging and splitting keep a tiling, and why the free blocks of a
 * well-kept heap are determined by its live blocks.
 */
module Blocks {

  /** (arena, start, stop); an arena is named by its position in `_arenas`. */
  datatype Block = Block(arena: nat, start: nat, stop: nat)

  function Length(b: Block): int { b.stop - b.start }

  predicate InArena(arenas: seq<nat>, b: Block) {
    b.arena < |arenas| && b.start < b.stop <= arenas[b.arena]
  }

  predicate Overlap(b: Block, c: Block) {
    b.arena == c.arena && b.start < c.stop && c.start < b.stop
  }

  predicate Contains(b: Block, a: nat, x: nat) {
    b.arena == a && b.start <= x < b.stop
  }

  ghost predicate Covered(s: set<Block>, a: nat, x: nat) {
    exists b :: b in s && Contains(b, a, x)
  }

  /** The blocks lie inside their arenas, no two overlap, and every position is covered. */
  ghost predicate Tiles(arenas: seq<nat>, s: set<Block>) {
    && (forall b :: b in s ==> InArena(arenas, b))
    && (forall b, c :: b in s && c in s && b != c ==> !Overlap(b, c))
    && (forall a: nat, x: nat :: a < |arenas| && x < arenas[a] ==> Covered(s, a, x))
  }

  ghost predicate Aligned(s: set<Block>) {
    forall b :: b in s ==> b.start % 8 == 0 && b.stop % 8 == 0
  }

  /** No block ends where another begins. */
  ghost predicate NoneTouch(s: set<Block>) {
    forall b, c :: b in s && c in s && b.arena == c.arena ==> b.stop != c.start
  }

  /** A maximal stretch of an arena that no block of `live` covers. */
  ghost predicate MaximalGap(arenas: seq<nat>, live: set<Block>, g: Block) {
    && InArena(arenas, g)
    && (forall x: nat :: g.start <= x < g.stop ==> !Covered(live, g.arena, x))
    && (g.start == 0 || Covered(live, g.arena, g.start - 1))
    && (g.stop == arenas[g.arena] || Covered(live, g.arena, g.stop))
  }

  /** Two adjacent blocks of a tiling may be replaced by their union. */
  lemma TilesMerge(arenas: seq<nat>, s: set<Block>, p: Block, b: Block)
    requires Tiles(arenas, s) && p in s && b in s && p.arena == b.arena && p.stop == b.start
    ensures Block(p.arena, p.start, b.stop) !in s
    ensures Tiles(arenas, s - {p, b} + {Block(p.arena, p.start, b.stop)})
  {
    var m := Block(p.arena, p.start, b.stop);
    var t := s - {p, b} + {m};
    assert InArena(arenas, p) && InArena(arenas, b);
    assert Overlap(m, p) && m != p;
    forall a: nat, x: nat | a < |arenas| && x < arenas[a]
      ensures Covered(t, a, x)
    {
      assert Covered(s, a, x);
      var c :| c in s && Contains(c, a, x);
      if c == p || c == b {
        assert m in t && Contains(m, a, x);
      } else {
        assert c in t;
      }
    }
    forall c | c in s - {p, b}
      ensures !Overlap(c, m) && !Overlap(m, c)
    {
      assert !Overlap(c, p) && !Overlap(c, b);
    }
  }

  /** A block of a tiling may be cut in two. */
  lemma TilesSplit(arenas: seq<nat>, s: set<Block>, b: Block, mid: nat)
    requires Tiles(arenas, s) && b in s && b.start < mid < b.stop
    ensures Block(b.arena, b.start, mid) !in s && Block(b.arena, mid, b.stop) !in s
    ensures Tiles(arenas, s - {b} + {Block(b.arena, b.start, mid), Block(b.arena, mid, b.stop)})
  {
    var l, r := Block(b.arena, b.start, mid), Block(b.arena, mid, b.stop);
    var t := s - {b} + {l, r};
    assert InArena(arenas, b);
    assert Overlap(l, b) && Overlap(r, b);
    forall a: nat, x: nat | a < |arenas| && x < arenas[a]
      ensures Covered(t, a, x)
    {
      assert Covered(s, a, x);
      var c :| c in s && Contains(c, a, x);
      if c == b {
        assert Contains(l, a, x) || Contains(r, a, x);
        assert l in t && r in t;
      } else {
        assert c in t;
      }
    }
    forall c | c in s - {b}
      ensures !Overlap(c, l) && !Overlap(l, c) && !Overlap(c, r) && !Overlap(r, c)
    {
      assert !Overlap(c, b);
    }
  }

  /** A new arena is tiled by one block. */
  lemma TilesNewArena(arenas: seq<nat>, s: set<Block>, size: nat)
    requires Tiles(arenas, s) && size > 0
    ensures Block(|arenas|, 0, size) !in s
    ensures Tiles(arenas + [size], s + {Block(|arenas|, 0, size)})
  {
    var w := Block(|arenas|, 0, size);
    var t := s + {w};
    forall a: nat, x: nat | a < |arenas + [size]| && x < (arenas + [size])[a]
      ensures Covered(t, a, x)
    {
      if a < |arenas| {
        assert Covered(s, a, x);
        var c :| c in s && Contains(c, a, x);
        assert c in t;
      } else {
        assert w in t && Contains(w, a, x);
      }
    }
    forall b | b in s
      ensures InArena(arenas + [size], b) && !Overlap(b, w)
    {
      assert InArena(arenas, b);
    }
  }

  // ----- The free blocks are the maximal gaps between live blocks -----

  lemma FreeIsGap(arenas: seq<nat>, live: set<Block>, free: set<Block>, g: Block)
    requires Tiles(arenas, free + live) && free !! live && NoneTouch(free) && g in free
    ensures MaximalGap(arenas, live, g)
  {
    assert g in free + live;
    forall x: nat | g.start <= x < g.stop
      ensures !Covered(live, g.arena, x)
    {
      if Covered(live, g.arena, x) {
        var c :| c in live && Contains(c, g.arena, x);
        assert c in free + live && Overlap(c, g);
      }
    }
    if g.start > 0 {
      assert Covered(free + live, g.arena, g.start - 1);
      var c :| c in free + live && Contains(c, g.arena, g.start - 1);
      assert !Overlap(c, g) && c.stop == g.start;
      assert c in live;
    }
    if g.stop < arenas[g.arena] {
      assert Covered(free + live, g.arena, g.stop);
      var c :| c in free + live && Contains(c, g.arena, g.stop);
      assert !Overlap(c, g) && c.start == g.stop;
      assert c in live;
    }
  }

  /** Two maximal gaps that share a position are the same. */
  lemma GapUnique(arenas: seq<nat>, live: set<Block>, g: Block, h: Block, x: nat)
    requires MaximalGap(arenas, live, g) && MaximalGap(arenas, live, h)
    requires Contains(g, g.arena, x) && Contains(h, g.arena, x)
    ensures g == h
  {
  }

  /** Every well-kept heap is canonical: its free blocks are exactly the maximal gaps. */
  lemma FreeIffGap(arenas: seq<nat>, live: set<Block>, free: set<Block>, g: Block)
    requires Tiles(arenas, free + live) && free !! live && NoneTouch(free)
    ensures g in free <==> MaximalGap(arenas, live, g)
  {
    if g in free {
      FreeIsGap(arenas, live, free, g);
    } else if MaximalGap(arenas, live, g) {
      assert Covered(free + live, g.arena, g.start);
      var c :| c in free + live && Contains(c, g.arena, g.start);
      assert !Covered(live, g.arena, g.start);
      FreeIsGap(arenas, live, free, c);
      GapUnique(arenas, live, g, c, g.start);
    }
  }

  // ----- The block sets of a heap -----

  /** A well-kept heap: free and live blocks together tile the arenas, all of them aligned,
      and no two free blocks touch. */
  ghost predicate Kept(arenas: seq<nat>, free: set<Block>, live: set<Block>) {
    free !! live && NoneTouch(free) && Tiles(arenas, free + live) && Aligned(free + live)
  }

  /** As Kept, but for one block that is neither free nor live. */
  ghost predicate Loose(arenas: seq<nat>, free: set<Block>, live: set<Block>, b: Block) {
    && free !! live && b !in free && b !in live
    && NoneTouch(free) && Tiles(arenas, free + live + {b}) && Aligned(free + live + {b})
  }

  /** Some free block ends (begins) at position x. */
  ghost predicate EndsAt(free: set<Block>, a: nat, x: nat) {
    exists c :: c in free && c.arena == a && c.stop == x
  }

  ghost predicate BeginsAt(free: set<Block>, a: nat, x: nat) {
    exists c :: c in free && c.arena == a && c.start == x
  }

  lemma LooseMergePrev(arenas: seq<nat>, free: set<Block>, live: set<Block>, p: Block, b: Block)
    requires Loose(arenas, free, live, b) && p in free && p.arena == b.arena && p.stop == b.start
    ensures Loose(arenas, free - {p}, live, Block(b.arena, p.start, b.stop))
    ensures !EndsAt(free - {p}, b.arena, p.start)
  {
    var all, m := free + live + {b}, Block(b.arena, p.start, b.stop);
    TilesMerge(arenas, all, p, b);
    assert all - {p, b} + {m} == (free - {p}) + live + {m};
  }

  lemma LooseMergeNext(arenas: seq<nat>, free: set<Block>, live: set<Block>, b: Block, n: Block)
    requires Loose(arenas, free, live, b) && n in free && n.arena == b.arena && b.stop == n.start
    ensures Loose(arenas, free - {n}, live, Block(b.arena, b.start, n.stop))
    ensures !BeginsAt(free - {n}, b.arena, n.stop)
    ensures !EndsAt(free, b.arena, b.start) ==> !EndsAt(free - {n}, b.arena, b.start)
  {
    var all, m := free + live + {b}, Block(b.arena, b.start, n.stop);
    TilesMerge(arenas, all, b, n);
    assert all - {b, n} + {m} == (free - {n}) + live + {m};
  }

  /** A block without free neighbours becomes a free block. */
  lemma LooseToFree(arenas: seq<nat>, free: set<Block>, live: set<Block>, b: Block)
    requires Loose(arenas, free, live, b)
    requires !EndsAt(free, b.arena, b.start) && !BeginsAt(free, b.arena, b.stop)
    ensures Kept(arenas, free + {b}, live)
    ensures forall c :: c in free ==> c.arena == b.arena ==> c.start != b.start && c.stop != b.stop
  {
    assert (free + {b}) + live == free + live + {b};
    assert b in free + live + {b} && InArena(arenas, b);
    forall c | c in free && c.arena == b.arena
      ensures c.start != b.start && c.stop != b.stop
    {
      assert c in free + live + {b};
      assert !Overlap(c, b) && InArena(arenas, c);
    }
  }

  /** A loose block may also be counted as live. */
  lemma LooseToLive(arenas: seq<nat>, free: set<Block>, live: set<Block>, b: Block)
    requires Loose(arenas, free, live, b)
    ensures Kept(arenas, free, live + {b}) && b !in live
  {
    assert free + (live + {b}) == free + live + {b};
  }

  lemma LiveToLoose(arenas: seq<nat>, free: set<Block>, live: set<Block>, b: Block)
    requires Kept(arenas, free, live) && b in live
    ensures Loose(arenas, free, live - {b}, b)
  {
    assert free + (live - {b}) + {b} == free + live;
  }

  lemma FreeToLoose(arenas: seq<nat>, free: set<Block>, live: set<Block>, b: Block)
    requires Kept(arenas, free, live) && b in free
    ensures Loose(arenas, free - {b}, live, b)
  {
    assert (free - {b}) + live + {b} == free + live;
  }

  lemma ArenaToLoose(arenas: seq<nat>, free: set<Block>, live: set<Block>, size: nat)
    requires Kept(arenas, free, live) && size > 0 && size % 8 == 0
    ensures Loose(arenas + [size], free, live, Block(|arenas|, 0, size))
  {
    TilesNewArena(arenas, free + live, size);
  }

  /** Cutting a loose block: the first part becomes live, the second stays loose. */
  lemma LooseSplit(arenas: seq<nat>, free: set<Block>, live: set<Block>, b: Block, mid: nat)
    requires Loose(arenas, free, live, b) && b.start < mid < b.stop && mid % 8 == 0
    ensures Block(b.arena, b.start, mid) !in live
    ensures Loose(arenas, free, live + {Block(b.arena, b.start, mid)}, Block(b.arena, mid, b.stop))
  {
    var all, l, r := free + live + {b}, Block(b.arena, b.start, mid), Block(b.arena, mid, b.stop);
    TilesSplit(arenas, all, b, mid);
    assert all - {b} + {l, r} == free + (live + {l}) + {r};
    assert b in all && b.start % 8 == 0 && b.stop % 8 == 0;
  }
}
