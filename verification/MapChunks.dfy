/**
 * Pool.map in billiard/pool.py: the input is cut into batches, each batch is mapped by some
 * worker, and MapResult puts the pieces together as they arrive, in any order.
 */
module MapChunks {
  import opened Optional
  import opened Tally

  // ----- Cutting -----

  function Min(a: int, b: int): int { if a < b then a else b }

  /** Pool._get_tasks: successive slices of `size` elements until one is empty. */
  function Batches<X>(xs: seq<X>, size: nat): seq<seq<X>> {
    if xs == [] || size == 0 then []
    else
      var k := Min(size, |xs|);
      [xs[..k]] + Batches(xs[k..], size)
  }

  /** The generator loop.  A negative size is refused, with ValueError, before the first batch. */
  method GetTasks<X>(xs: seq<X>, size: int) returns (batches: seq<seq<X>>, raised: bool)
    ensures raised <==> size < 0
    ensures batches == Batches(xs, if size < 0 then 0 else size)
  {
    batches := [];
    if size < 0 {
      return [], true;
    }
    var rest := xs;
    while true
      invariant batches + Batches(rest, size) == Batches(xs, size)
      decreases |rest|
    {
      var k := Min(size, |rest|);
      var x := rest[..k];
      rest := rest[k..];
      if x == [] {
        return batches, false;
      }
      batches := batches + [x];
    }
  }

  /** The quotient, rounded up. */
  function NumberOfChunks(length: nat, chunksize: nat): nat
    requires chunksize > 0
  {
    length / chunksize + (if length % chunksize != 0 then 1 else 0)
  }

  /** The chunksize that `_map_async` works with: the one asked for, if any, or one that makes
      four chunks a worker.  None if the pool is empty, which divides by zero. */
  function ChooseChunksize(requested: Option<int>, length: nat, workers: nat): Option<int> {
    if requested.None? && workers == 0 then None
    else if length == 0 then Some(0)
    else if requested.None? then Some(NumberOfChunks(length, workers * 4))
    else requested
  }

  /** n chunks of size c are needed for a length that exceeds n - 1 of them. */
  predicate Needs(length: nat, c: nat, n: nat) {
    length <= n * c && (n > 0 ==> (n - 1) * c < length)
  }

  lemma NeedsUnique(length: nat, c: nat, m: nat, n: nat)
    requires c > 0 && Needs(length, c, m) && Needs(length, c, n)
    ensures m == n
  {
    if m < n {
      MulMono(m, n - 1, c);
    } else if n < m {
      MulMono(n, m - 1, c);
    }
  }

  lemma MulMono(a: nat, b: nat, c: nat)
    requires a <= b
    ensures a * c <= b * c
  {
  }

  lemma NumberIsNeeded(length: nat, c: nat)
    requires c > 0
    ensures Needs(length, c, NumberOfChunks(length, c))
  {
    var q, r := length / c, length % c;
    assert length == q * c + r && 0 <= r < c;
    assert (q + 1) * c == q * c + c;
    if r == 0 && q > 0 {
      assert (q - 1) * c == q * c - c;
    }
  }

  lemma {:induction false} BatchesNeeded<X>(xs: seq<X>, c: nat)
    requires c > 0
    ensures Needs(|xs|, c, |Batches(xs, c)|)
  {
    if xs != [] {
      var k := Min(c, |xs|);
      BatchesNeeded(xs[k..], c);
      var n := |Batches(xs[k..], c)|;
      assert |Batches(xs, c)| == n + 1;
      assert (n + 1) * c == n * c + c;
      if n > 0 {
        assert (n - 1) * c == n * c - c;
      }
    }
  }

  /** `_number_left` starts at the number of batches that are generated. */
  lemma NumberLeftMatches<X>(xs: seq<X>, c: nat)
    requires c > 0
    ensures |Batches(xs, c)| == NumberOfChunks(|xs|, c)
  {
    BatchesNeeded(xs, c);
    NumberIsNeeded(|xs|, c);
    NeedsUnique(|xs|, c, |Batches(xs, c)|, NumberOfChunks(|xs|, c));
  }

  /** i * c, by repeated addition. */
  ghost function Times(i: nat, c: nat): nat {
    if i == 0 then 0 else c + Times(i - 1, c)
  }

  lemma {:induction false} TimesIsProduct(i: nat, c: nat)
    ensures Times(i, c) == i * c
  {
    if i > 0 {
      TimesIsProduct(i - 1, c);
    }
  }

  lemma {:induction false} BatchFrom<X>(xs: seq<X>, c: nat, i: nat)
    requires c > 0 && i < |Batches(xs, c)|
    ensures Times(i, c) < |xs| && Batches(xs, c)[i] == xs[Times(i, c)..Min(Times(i, c) + c, |xs|)]
  {
    var k := Min(c, |xs|);
    if i > 0 {
      var lo := Times(i - 1, c);
      BatchFrom(xs[k..], c, i - 1);
      SliceOfDrop(xs, k, lo, Min(lo + c, |xs| - k));
    }
  }

  /** Batch i is the slice of the input from i * c to (i + 1) * c. */
  lemma BatchAt<X>(xs: seq<X>, c: nat, i: nat)
    requires c > 0 && i < |Batches(xs, c)|
    ensures i * c < |xs| && Batches(xs, c)[i] == xs[i * c..Min((i + 1) * c, |xs|)]
  {
    BatchFrom(xs, c, i);
    TimesIsProduct(i, c);
    assert (i + 1) * c == i * c + c;
  }

  lemma SliceOfDrop<X>(xs: seq<X>, k: nat, lo: nat, hi: nat)
    requires lo <= hi && k + hi <= |xs|
    ensures xs[k..][lo..hi] == xs[k + lo..k + hi]
  {
  }

  // ----- Putting together -----

  /** Replaces the slice from lo to hi, the bounds being clamped as Python does. */
  function SliceAssign<T>(v: seq<T>, lo: nat, hi: nat, r: seq<T>): seq<T>
    requires lo <= hi
  {
    v[..Min(lo, |v|)] + r + v[Min(hi, |v|)..]
  }

  /** What a worker sends for a chunk: the mapped values, or the exception (named by a number). */
  datatype ChunkResult<Y> = Good(ys: seq<Y>) | Bad(cause: nat)

  datatype Answer<Y> = Values(values: seq<Option<Y>>) | Error(cause: nat)

  /** The fields of a MapResult.  `cached` says whether the job is in the pool's cache. */
  datatype MapState<Y> = MapState(
    value: Answer<Y>, numberLeft: int, chunksize: int, length: nat, success: bool, ready: bool, cached: bool)

  function Nones<Y>(n: nat): seq<Option<Y>> { seq(n, i => None) }

  /** MapResult.__init__ */
  function Start<Y>(chunksize: int, length: nat): MapState<Y> {
    if chunksize <= 0
    then MapState(Values(Nones(length)), 0, chunksize, length, true, true, false)
    else MapState(Values(Nones(length)), NumberOfChunks(length, chunksize), chunksize, length, true, false, true)
  }

  function Somes<Y>(ys: seq<Y>): seq<Option<Y>> {
    seq(|ys|, i requires 0 <= i < |ys| => Some(ys[i]))
  }

  /** MapResult._set with the mapped values of chunk i. */
  function PutChunk<Y>(m: MapState<Y>, i: nat, ys: seq<Y>): MapState<Y>
    requires m.value.Values? && m.chunksize > 0
  {
    var value := Values(SliceAssign(m.value.values, i * m.chunksize, (i + 1) * m.chunksize, Somes(ys)));
    if m.numberLeft == 1
    then m.(value := value, numberLeft := 0, ready := true, cached := if m.length > 0 then false else m.cached)
    else m.(value := value, numberLeft := m.numberLeft - 1)
  }

  /** MapResult._set with a failure. */
  function PutError<Y>(m: MapState<Y>, cause: nat): MapState<Y> {
    m.(value := Error(cause), success := false, ready := true, cached := if m.length > 0 then false else m.cached)
  }

  class MapResult<Y> {
    var value: Answer<Y>
    var numberLeft: int
    const chunksize: int
    const length: nat
    var success: bool
    var ready: bool
    var cached: bool

    function View(): MapState<Y>
      reads this
    {
      MapState(value, numberLeft, chunksize, length, success, ready, cached)
    }

    constructor (chunksize: int, length: nat)
      ensures View() == Start(chunksize, length)
    {
      this.chunksize, this.length := chunksize, length;
      value, success, ready, cached := Values(Nones(length)), true, false, true;
      if chunksize <= 0 {
        numberLeft := 0;
        ready := true;
        cached := false;
      } else {
        numberLeft := NumberOfChunks(length, chunksize);
      }
    }

    method Set(i: nat, r: ChunkResult<Y>)
      requires value.Values? && chunksize > 0
      modifies this
      ensures View() == if r.Good? then PutChunk(old(View()), i, r.ys) else PutError(old(View()), r.cause)
    {
      if r.Good? {
        value := Values(SliceAssign(value.values, i * chunksize, (i + 1) * chunksize, Somes(r.ys)));
        numberLeft := numberLeft - 1;
        if numberLeft == 0 {
          if length > 0 {        // the list `_accepted` is not empty
            cached := false;
          }
          ready := true;
        }
      } else {
        success := false;
        value := Error(r.cause);
        if length > 0 {
          cached := false;
        }
        ready := true;
      }
    }
  }

  // ----- map is the sequential map -----

  function Mapped<X, Y>(f: X -> Y, xs: seq<X>): seq<Y> {
    seq(|xs|, i requires 0 <= i < |xs| => f(xs[i]))
  }

  /** Position k lies in one of the chunks `arrived`. */
  ghost predicate InArrived(c: nat, arrived: set<nat>, k: int) {
    exists i: nat :: i in arrived && i * c <= k < (i + 1) * c
  }

  /** The state after the chunks `arrived`: their positions hold the mapped values, all others
      None, and what is left is the number of the other chunks. */
  ghost predicate Assembled<X, Y>(m: MapState<Y>, f: X -> Y, xs: seq<X>, c: nat, arrived: set<nat>)
    requires c > 0
  {
    && m.chunksize == c && m.length == |xs| && m.success && m.value.Values?
    && |m.value.values| == |xs|
    && (forall k :: 0 <= k < |xs| ==>
          m.value.values[k] == if InArrived(c, arrived, k) then Some(f(xs[k])) else None)
    && m.numberLeft == |Batches(xs, c)| - |arrived|
    && m.ready == (m.numberLeft == 0)
    && m.cached == (m.numberLeft > 0)
    && (forall i :: i in arrived ==> i < |Batches(xs, c)|)
  }

  lemma StartAssembled<X, Y>(f: X -> Y, xs: seq<X>, c: nat)
    requires c > 0 && xs != []
    ensures Assembled(Start<Y>(c, |xs|), f, xs, c, {})
  {
    NumberLeftMatches(xs, c);
    assert |Batches(xs, c)| > 0;
  }

  lemma ChunkArrives<X, Y>(m: MapState<Y>, f: X -> Y, xs: seq<X>, c: nat, arrived: set<nat>, i: nat)
    requires c > 0 && xs != [] && Assembled(m, f, xs, c, arrived)
    requires i < |Batches(xs, c)| && i !in arrived
    ensures Assembled(PutChunk(m, i, Mapped(f, Batches(xs, c)[i])), f, xs, c, arrived + {i})
  {
    hide Batches, InArrived, SliceAssign, Mapped;
    ValuesArrive(m.value.values, f, xs, c, arrived, i);
    ArrivedBounded(arrived + {i}, |Batches(xs, c)|);
  }

  /** The values after the slice of chunk i has been replaced. */
  lemma ValuesArrive<X, Y>(v: seq<Option<Y>>, f: X -> Y, xs: seq<X>, c: nat, arrived: set<nat>, i: nat)
    requires c > 0 && i < |Batches(xs, c)| && |v| == |xs|
    requires forall k :: 0 <= k < |xs| ==> v[k] == if InArrived(c, arrived, k) then Some(f(xs[k])) else None
    ensures var r := SliceAssign(v, i * c, (i + 1) * c, Somes(Mapped(f, Batches(xs, c)[i])));
            && |r| == |xs|
            && forall k :: 0 <= k < |xs| ==> r[k] == if InArrived(c, arrived + {i}, k) then Some(f(xs[k])) else None
  {
    hide Batches, SliceAssign;
    BatchAt(xs, c, i);
    var lo, hi := i * c, Min((i + 1) * c, |xs|);
    assert (i + 1) * c == i * c + c;
    SliceAt(v, lo, (i + 1) * c, Somes(Mapped(f, Batches(xs, c)[i])));
    forall k | 0 <= k < |xs|
      ensures InArrived(c, arrived + {i}, k) <==> lo <= k < hi || InArrived(c, arrived, k)
    {
      if lo <= k < hi {
        assert i in arrived + {i} && InArrived(c, arrived + {i}, k);
      } else {
        InArrivedMore(c, arrived, i, k);
      }
    }
  }

  lemma InArrivedMore(c: nat, arrived: set<nat>, i: nat, k: int)
    requires !(i * c <= k < (i + 1) * c)
    ensures InArrived(c, arrived + {i}, k) <==> InArrived(c, arrived, k)
  {
    if InArrived(c, arrived, k) {
      var j: nat :| j in arrived && j * c <= k < (j + 1) * c;
      assert j in arrived + {i};
    }
  }

  lemma ArrivedBounded(s: set<nat>, n: nat)
    requires forall i :: i in s ==> i < n
    ensures |s| <= n && (|s| == n ==> forall i: nat :: i < n ==> i in s)
  {
    SubsetSize(s, Below(n));
  }

  /** The elements after a slice assignment that keeps the length. */
  lemma SliceAt<T>(v: seq<T>, lo: nat, hi: nat, r: seq<T>)
    requires lo <= hi && lo <= |v| && |r| == Min(hi, |v|) - lo
    ensures |SliceAssign(v, lo, hi, r)| == |v|
    ensures forall k :: 0 <= k < |v| ==>
              SliceAssign(v, lo, hi, r)[k] == if lo <= k < Min(hi, |v|) then r[k - lo] else v[k]
  {
  }

  /** The result after the chunks `order`, in that order of arrival. */
  function AfterArrivals<X, Y>(f: X -> Y, xs: seq<X>, c: nat, order: seq<nat>): MapState<Y>
    requires c > 0 && forall k :: 0 <= k < |order| ==> order[k] < |Batches(xs, c)|
    ensures AfterArrivals(f, xs, c, order).value.Values? && AfterArrivals(f, xs, c, order).chunksize == c
  {
    if order == [] then Start(c, |xs|)
    else
      var n := |order| - 1;
      PutChunk(AfterArrivals(f, xs, c, order[..n]), order[n], Mapped(f, Batches(xs, c)[order[n]]))
  }

  lemma {:induction false} ArrivalsAssemble<X, Y>(f: X -> Y, xs: seq<X>, c: nat, order: seq<nat>)
    requires c > 0 && xs != [] && Distinct(order)
    requires forall k :: 0 <= k < |order| ==> order[k] < |Batches(xs, c)|
    ensures Assembled(AfterArrivals(f, xs, c, order), f, xs, c, Elements(order))
    ensures |Elements(order)| == |order|
  {
    if order == [] {
      StartAssembled(f, xs, c);
    } else {
      var n := |order| - 1;
      ArrivalsAssemble(f, xs, c, order[..n]);
      assert order == order[..n] + [order[n]];
      assert Elements(order) == Elements(order[..n]) + {order[n]};
      assert order[n] !in order[..n];
      ChunkArrives(AfterArrivals(f, xs, c, order[..n]), f, xs, c, Elements(order[..n]), order[n]);
    }
  }

  /** map equals the sequential map: for every input, every chunksize of at least one and every
      order of arrival, the result is ready exactly when the last chunk has arrived, and then its
      value is the function mapped over the whole input. */
  lemma MapIsSequential<X, Y>(f: X -> Y, xs: seq<X>, c: nat, order: seq<nat>)
    requires c > 0 && xs != [] && Distinct(order)
    requires forall k :: 0 <= k < |order| ==> order[k] < |Batches(xs, c)|
    ensures var m := AfterArrivals(f, xs, c, order);
            && (m.ready <==> |order| == NumberOfChunks(|xs|, c))
            && (m.cached <==> !m.ready)
            && (m.ready ==> m.value == Values(Somes(Mapped(f, xs))))
  {
    hide Assembled, Batches, NumberOfChunks, AfterArrivals;
    ArrivalsAssemble(f, xs, c, order);
    NumberLeftMatches(xs, c);
    AssembledReady(AfterArrivals(f, xs, c, order), f, xs, c, Elements(order));
  }

  lemma AssembledReady<X, Y>(m: MapState<Y>, f: X -> Y, xs: seq<X>, c: nat, arrived: set<nat>)
    requires c > 0 && Assembled(m, f, xs, c, arrived)
    ensures m.ready <==> |arrived| == |Batches(xs, c)|
    ensures m.cached <==> !m.ready
    ensures m.ready ==> m.value == Values(Somes(Mapped(f, xs)))
  {
    ArrivedBounded(arrived, |Batches(xs, c)|);
    BatchesNeeded(xs, c);
    if m.ready {
      forall k | 0 <= k < |xs|
        ensures InArrived(c, arrived, k)
      {
        var i := ChunkOf(c, |Batches(xs, c)|, k);
        assert i in arrived;
      }
      assert m.value.values == Somes(Mapped(f, xs));
    }
  }

  /** Every position lies in one of the chunks. */
  lemma {:induction false} ChunkOf(c: nat, n: nat, k: nat) returns (i: nat)
    requires c > 0 && k < n * c
    ensures i < n && i * c <= k < (i + 1) * c
    decreases n
  {
    assert (n - 1) * c + c == n * c;
    if k >= (n - 1) * c {
      i := n - 1;
    } else {
      i := ChunkOf(c, n - 1, k);
    }
  }

  // ----- Chunks that fail -----

  /** A chunk comes back, mapped or with an exception. */
  datatype Arrival = Arrival(i: nat, failure: Option<nat>)

  /** What the result handler makes of the arrivals: it drops those of a job that is not in the
      cache any more. */
  function Handled<X, Y>(f: X -> Y, xs: seq<X>, c: nat, arrivals: seq<Arrival>): (m: MapState<Y>)
    requires c > 0 && xs != [] && forall k :: 0 <= k < |arrivals| ==> arrivals[k].i < |Batches(xs, c)|
    ensures m.length == |xs| && m.chunksize == c && (m.cached ==> m.value.Values?)
  {
    if arrivals == [] then Start(c, |xs|)
    else
      var m := Handled(f, xs, c, arrivals[..|arrivals| - 1]);
      var a := arrivals[|arrivals| - 1];
      if !m.cached then m
      else if a.failure.Some? then PutError(m, a.failure.value)
      else PutChunk(m, a.i, Mapped(f, Batches(xs, c)[a.i]))
  }

  function Indices(arrivals: seq<Arrival>): seq<nat> {
    seq(|arrivals|, k requires 0 <= k < |arrivals| => arrivals[k].i)
  }

  /** The exception of the first chunk that failed. */
  function FirstFailure(arrivals: seq<Arrival>): Option<nat> {
    if arrivals == [] then None
    else
      var n := |arrivals| - 1;
      if FirstFailure(arrivals[..n]).Some? then FirstFailure(arrivals[..n]) else arrivals[n].failure
  }

  lemma IndicesFront(arrivals: seq<Arrival>)
    requires arrivals != [] && Distinct(Indices(arrivals))
    ensures var n := |arrivals| - 1;
            && Indices(arrivals)[..n] == Indices(arrivals[..n])
            && Distinct(Indices(arrivals[..n])) && arrivals[n].i !in Indices(arrivals[..n])
  {
    var n := |arrivals| - 1;
    assert Indices(arrivals)[..n] == Indices(arrivals[..n]);
    forall k | 0 <= k < n
      ensures Indices(arrivals[..n])[k] != arrivals[n].i
    {
      assert Indices(arrivals)[k] != Indices(arrivals)[n];
    }
  }

  /** As long as another chunk is to come the job is in the cache. */
  lemma CachedWhileLeft<X, Y>(f: X -> Y, xs: seq<X>, c: nat, order: seq<nat>, i: nat)
    requires c > 0 && xs != [] && Distinct(order)
    requires forall k :: 0 <= k < |order| ==> order[k] < |Batches(xs, c)|
    requires i < |Batches(xs, c)| && i !in order
    ensures AfterArrivals(f, xs, c, order).cached
  {
    hide AfterArrivals, Batches;
    ArrivalsAssemble(f, xs, c, order);
    ArrivedBounded(Elements(order), |Batches(xs, c)|);
    assert i !in Elements(order);
  }

  /** Without a failure nothing is dropped. */
  lemma {:induction false} HandledAll<X, Y>(f: X -> Y, xs: seq<X>, c: nat, arrivals: seq<Arrival>)
    requires c > 0 && xs != [] && Distinct(Indices(arrivals))
    requires forall k :: 0 <= k < |arrivals| ==> arrivals[k].i < |Batches(xs, c)|
    requires FirstFailure(arrivals).None?
    ensures Handled(f, xs, c, arrivals) == AfterArrivals(f, xs, c, Indices(arrivals))
  {
    hide Batches, PutChunk;
    if arrivals != [] {
      var n := |arrivals| - 1;
      IndicesFront(arrivals);
      HandledAll(f, xs, c, arrivals[..n]);
      CachedWhileLeft(f, xs, c, Indices(arrivals[..n]), arrivals[n].i);
    }
  }

  /** A failure is final: the result is then ready, unsuccessful, out of the cache, and holds
      the exception that came first. */
  lemma {:induction false} HandledFailure<X, Y>(f: X -> Y, xs: seq<X>, c: nat, arrivals: seq<Arrival>)
    requires c > 0 && xs != [] && Distinct(Indices(arrivals))
    requires forall k :: 0 <= k < |arrivals| ==> arrivals[k].i < |Batches(xs, c)|
    requires FirstFailure(arrivals).Some?
    ensures var m := Handled(f, xs, c, arrivals);
            m.value == Error(FirstFailure(arrivals).value) && m.ready && !m.success && !m.cached
  {
    hide Batches, PutChunk;
    var n := |arrivals| - 1;
    IndicesFront(arrivals);
    if FirstFailure(arrivals[..n]).Some? {
      HandledFailure(f, xs, c, arrivals[..n]);
    } else {
      HandledAll(f, xs, c, arrivals[..n]);
      CachedWhileLeft(f, xs, c, Indices(arrivals[..n]), arrivals[n].i);
    }
  }

  /** The result is ready exactly if a chunk has failed or all have arrived; it is a success
      exactly if none has failed. */
  lemma ReadyIff<X, Y>(f: X -> Y, xs: seq<X>, c: nat, arrivals: seq<Arrival>)
    requires c > 0 && xs != [] && Distinct(Indices(arrivals))
    requires forall k :: 0 <= k < |arrivals| ==> arrivals[k].i < |Batches(xs, c)|
    ensures var m := Handled(f, xs, c, arrivals);
            && (m.ready <==> FirstFailure(arrivals).Some? || |arrivals| == NumberOfChunks(|xs|, c))
            && (m.success <==> FirstFailure(arrivals).None?)
  {
    hide Batches, PutChunk, AfterArrivals, Handled;
    if FirstFailure(arrivals).Some? {
      HandledFailure(f, xs, c, arrivals);
    } else {
      HandledAll(f, xs, c, arrivals);
      MapIsSequential(f, xs, c, Indices(arrivals));
      ArrivalsAssemble(f, xs, c, Indices(arrivals));
    }
  }

  // ----- Every chunksize -----

  /** A chunksize below one is not refused: the result is then ready at once and out of the
      cache, so no chunk can change it any more, and it is the mapped input exactly if the
      input is empty. */
  lemma BadChunksize<X, Y>(f: X -> Y, xs: seq<X>, chunksize: int)
    requires chunksize <= 0
    ensures var m := Start<Y>(chunksize, |xs|);
            m.ready && !m.cached && (m.value == Values(Somes(Mapped(f, xs))) <==> xs == [])
  {
    var m := Start<Y>(chunksize, |xs|);
    if xs == [] {
      assert m.value.values == Somes(Mapped(f, xs));
    } else {
      assert m.value.values[0] == None && Somes(Mapped(f, xs))[0] == Some(f(xs[0]));
    }
  }

  /** The result of `_map_async` after the chunks `order`.  A chunksize below one gives none. */
  function AsyncResult<X, Y>(f: X -> Y, xs: seq<X>, c: int, order: seq<nat>): MapState<Y>
    requires forall k :: 0 <= k < |order| ==> order[k] < |Batches(xs, if c > 0 then c else 0)|
  {
    if c > 0 then AfterArrivals(f, xs, c, order) else Start(c, |xs|)
  }

  /** What `_map_async` promises, for every input and every chunksize asked for or chosen: when
      all chunks have arrived, in any order, the result is ready and is the mapped input,
      exactly if no chunksize below one was asked for or the input is empty. */
  lemma MapAsyncCorrect<X, Y>(f: X -> Y, xs: seq<X>, requested: Option<int>, workers: nat, order: seq<nat>)
    requires ChooseChunksize(requested, |xs|, workers).Some?
    requires var c := ChooseChunksize(requested, |xs|, workers).value;
             var n := |Batches(xs, if c > 0 then c else 0)|;
             |order| == n && Distinct(order) && forall k :: 0 <= k < |order| ==> order[k] < n
    ensures var m := AsyncResult(f, xs, ChooseChunksize(requested, |xs|, workers).value, order);
            m.ready && m.value == Values(Somes(Mapped(f, xs))) <==>
            requested.None? || requested.value >= 1 || xs == []
  {
    var c := ChooseChunksize(requested, |xs|, workers).value;
    ChosenChunksize(requested, |xs|, workers);
    if c > 0 {
      MapIsSequential(f, xs, c, order);
      NumberLeftMatches(xs, c);
    } else {
      BadChunksize(f, xs, c);
    }
  }

  /** A length takes at most n chunks of size d exactly if n such chunks hold it. */
  lemma ChunksAtMost(length: nat, d: nat, n: nat)
    requires d > 0
    ensures NumberOfChunks(length, d) <= n <==> length <= n * d
  {
    var m := NumberOfChunks(length, d);
    NumberIsNeeded(length, d);
    if m <= n {
      MulMono(m, n, d);
    } else {
      MulMono(n, m - 1, d);
    }
  }

  /** A default chunksize fails exactly for a pool without workers, by dividing by zero.  It is the
      smallest one that makes at most four chunks a worker.  One that is asked for is used as it
      is, unless the input is empty. */
  lemma DefaultChunksize(requested: Option<int>, length: nat, workers: nat)
    ensures ChooseChunksize(requested, length, workers).None? <==> requested.None? && workers == 0
    ensures requested.Some? ==>
              ChooseChunksize(requested, length, workers) == if length == 0 then Some(0) else requested
    ensures requested.None? && workers > 0 && length > 0 ==>
              var c := ChooseChunksize(requested, length, workers).value;
              && c > 0 && NumberOfChunks(length, c) <= 4 * workers
              && forall d :: 0 < d < c ==> NumberOfChunks(length, d) > 4 * workers
  {
    if requested.None? && workers > 0 && length > 0 {
      var n := 4 * workers;
      var c := NumberOfChunks(length, n);
      NumberIsNeeded(length, n);
      ChunksAtMost(length, c, n);
      assert c * n == n * c;
      forall d | 0 < d < c
        ensures NumberOfChunks(length, d) > n
      {
        ChunksAtMost(length, d, n);
        MulMono(d, c - 1, n);
        assert d * n == n * d;
      }
    }
  }

  /** Left to itself the pool chooses a chunksize of at least one, unless the input is empty. */
  lemma ChosenChunksize(requested: Option<int>, length: nat, workers: nat)
    requires ChooseChunksize(requested, length, workers).Some?
    ensures ChooseChunksize(requested, length, workers).value >= 1 <==>
              length > 0 && (requested.None? || requested.value >= 1)
  {
    if length > 0 && requested.None? {
      NumberIsNeeded(length, workers * 4);
    }
  }
}
