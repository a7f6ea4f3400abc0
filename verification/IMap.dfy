/**
 * The iterators returned by Pool.imap and Pool.imap_unordered in billiard/pool.py.  Results
 * arrive in any order, the length is announced at any moment, and the consumer calls `next`
 * in between; the iterator's lock makes each of these one step, except that `next` may let
 * go of the lock once, to wait.
 */
module IMapIterators {
  import opened Optional
  import opened Tally

  /** The fields of an iterator.  `deletions` counts how often the job was deleted from the
      pool's cache; a second deletion would be a KeyError. */
  datatype IMap<T> = IMap(
    items: seq<T>,
    index: nat,
    length: Option<nat>,
    unsorted: map<nat, T>,
    ready: bool,
    deletions: nat)

  function Fresh<T>(): IMap<T> { IMap([], 0, None, map[], false, 0) }

  /** The results that became next in line are moved from `_unsorted` to `_items`. */
  function Absorb<T>(m: IMap<T>): IMap<T>
    decreases |m.unsorted|
  {
    if m.index !in m.unsorted then m
    else Absorb(m.(items := m.items + [m.unsorted[m.index]],
                   index := m.index + 1,
                   unsorted := m.unsorted - {m.index}))
  }

  /** When everything is in, the iterator is ready and its job is deleted from the cache. */
  function Finish<T>(m: IMap<T>): IMap<T> {
    if m.length == Some(m.index) then m.(ready := true, deletions := m.deletions + 1) else m
  }

  /** IMapIterator._set */
  function Put<T>(m: IMap<T>, i: nat, obj: T): IMap<T> {
    Finish(if m.index == i then Absorb(m.(items := m.items + [obj], index := m.index + 1))
           else m.(unsorted := m.unsorted[i := obj]))
  }

  /** IMapUnorderedIterator._set */
  function PutUnordered<T>(m: IMap<T>, obj: T): IMap<T> {
    Finish(m.(items := m.items + [obj], index := m.index + 1))
  }

  /** _set_length */
  function PutLength<T>(m: IMap<T>, n: nat): IMap<T> {
    Finish(m.(length := Some(n)))
  }

  /** What `next` does with the lock held: yield an item, stop, or find nothing yet, in which
      case it waits, or gives up with TimeoutError if it has waited already. */
  datatype Pull<T> = Item(value: T) | Stop | Nothing

  function Pulled<T>(m: IMap<T>): Pull<T> {
    if m.items != [] then Item(m.items[0])
    else if m.length == Some(m.index) then Stop
    else Nothing
  }

  function AfterPull<T>(m: IMap<T>): IMap<T> {
    match Pulled(m)
    case Item(_) => m.(items := m.items[1..])
    case Stop => m.(ready := true)
    case Nothing => m
  }

  lemma AbsorbOne<T>(m: IMap<T>)
    requires m.index in m.unsorted
    ensures Absorb(m) == Absorb(m.(items := m.items + [m.unsorted[m.index]],
                                   index := m.index + 1,
                                   unsorted := m.unsorted - {m.index}))
  {
  }

  lemma AbsorbDone<T>(m: IMap<T>)
    requires m.index !in m.unsorted
    ensures Absorb(m) == m
  {
  }

  class IMapIterator<T> {
    var items: seq<T>
    var index: nat
    var length: Option<nat>
    var unsorted: map<nat, T>
    var ready: bool
    var deletions: nat

    function View(): IMap<T>
      reads this
    {
      IMap(items, index, length, unsorted, ready, deletions)
    }

    constructor ()
      ensures View() == Fresh()
    {
      items, index, length, unsorted, ready, deletions := [], 0, None, map[], false, 0;
    }

    method Set(i: nat, obj: T)
      modifies this
      ensures View() == Put(old(View()), i, obj)
    {
      if index == i {
        items := items + [obj];
        index := index + 1;
        ghost var start := View();
        hide Absorb;
        while index in unsorted
          invariant Absorb(View()) == Absorb(start)
          decreases |unsorted|
        {
          AbsorbOne(View());
          items := items + [unsorted[index]];
          unsorted := unsorted - {index};
          index := index + 1;
        }
        AbsorbDone(View());
      } else {
        unsorted := unsorted[i := obj];
      }
      if length == Some(index) {
        ready := true;
        deletions := deletions + 1;
      }
    }

    method SetUnordered(obj: T)
      modifies this
      ensures View() == PutUnordered(old(View()), obj)
    {
      items := items + [obj];
      index := index + 1;
      if length == Some(index) {
        ready := true;
        deletions := deletions + 1;
      }
    }

    method SetLength(n: nat)
      modifies this
      ensures View() == PutLength(old(View()), n)
    {
      length := Some(n);
      if length == Some(index) {
        ready := true;
        deletions := deletions + 1;
      }
    }

    method TryNext() returns (r: Pull<T>)
      modifies this
      ensures r == Pulled(old(View())) && View() == AfterPull(old(View()))
    {
      if items != [] {
        r := Item(items[0]);
        items := items[1..];
      } else if length == Some(index) {
        ready := true;
        r := Stop;
      } else {
        r := Nothing;
      }
    }
  }

  // ----- The protocol around an iterator -----

  /** `results` are the results of the whole job, `arrived` the indices delivered so far and
      `consumed` what `next` has yielded. */
  datatype State<T> = State(m: IMap<T>, results: seq<T>, arrived: set<nat>, consumed: seq<T>)

  datatype Event = Arrive(i: nat) | Announce | Next

  /** A result arrives once, and is dropped by the result handler if the job is no longer in
      the cache.  The length is announced once. */
  predicate Enabled<T>(s: State<T>, e: Event) {
    match e
    case Arrive(i) => i < |s.results| && i !in s.arrived
    case Announce => s.m.length.None?
    case Next => true
  }

  function Do<T>(s: State<T>, e: Event, ordered: bool): State<T>
    requires Enabled(s, e)
  {
    match e
    case Arrive(i) =>
      if s.m.deletions > 0 then s
      else s.(m := if ordered then Put(s.m, i, s.results[i]) else PutUnordered(s.m, s.results[i]),
              arrived := s.arrived + {i})
    case Announce => s.(m := PutLength(s.m, |s.results|))
    case Next =>
      match Pulled(s.m)
      case Item(x) => s.(m := AfterPull(s.m), consumed := s.consumed + [x])
      case _ => s.(m := AfterPull(s.m))
  }

  predicate Init<T(==)>(s: State<T>) {
    s.m == Fresh() && s.arrived == {} && s.consumed == []
  }

  /** The bookkeeping that both variants share: the length is the true one, and the job has
      been deleted from the cache exactly once if everything is in, and never before. */
  ghost predicate Bookkeeping<T>(s: State<T>) {
    && s.m.index <= |s.results|
    && (s.m.length.Some? ==> s.m.length.value == |s.results|)
    && s.m.deletions == (if s.m.length == Some(s.m.index) then 1 else 0)
    && (forall k :: k in s.arrived ==> k < |s.results|)
    && |s.consumed| + |s.m.items| == s.m.index
    && (s.m.ready <==> s.m.length == Some(s.m.index))
  }

  /** What is consumed and what is in line are the results 0..index-1 in order; what arrived
      out of turn waits in `unsorted`. */
  ghost predicate Ordered<T>(s: State<T>) {
    && Bookkeeping(s)
    && s.consumed + s.m.items == s.results[..s.m.index]
    && (forall k :: 0 <= k < s.m.index ==> k in s.arrived)
    && (forall k :: k in s.m.unsorted <==> k in s.arrived && k >= s.m.index)
    && (forall k :: k in s.m.unsorted ==> s.m.unsorted[k] == s.results[k])
    && s.m.index !in s.m.unsorted
  }

  /** As Ordered before the loop of `_set`, when the next result may be at hand. */
  ghost predicate Absorbing<T>(m: IMap<T>, results: seq<T>, arrived: set<nat>, consumed: seq<T>) {
    && m.index <= |results|
    && consumed + m.items == results[..m.index]
    && (forall k :: 0 <= k < m.index ==> k in arrived)
    && (forall k :: k in m.unsorted <==> k in arrived && k >= m.index)
    && (forall k :: k in m.unsorted ==> k < |results| && m.unsorted[k] == results[k])
  }

  lemma {:induction false} AbsorbOrders<T>(m: IMap<T>, results: seq<T>, arrived: set<nat>, consumed: seq<T>)
    requires Absorbing(m, results, arrived, consumed)
    ensures var r := Absorb(m);
            && Absorbing(r, results, arrived, consumed) && r.index !in r.unsorted
            && r.length == m.length && r.deletions == m.deletions && r.ready == m.ready && r.index >= m.index
    decreases |m.unsorted|
  {
    if m.index in m.unsorted {
      var m' := m.(items := m.items + [m.unsorted[m.index]], index := m.index + 1, unsorted := m.unsorted - {m.index});
      assert consumed + m'.items == (consumed + m.items) + [results[m.index]] == results[..m'.index];
      AbsorbOrders(m', results, arrived, consumed);
    }
  }

  lemma ArriveOrdered<T>(s: State<T>, i: nat)
    requires Ordered(s) && Enabled(s, Arrive(i))
    ensures Ordered(Do(s, Arrive(i), true))
    ensures Do(s, Arrive(i), true).arrived == s.arrived + {i}
  {
    hide Absorb;
    assert s.m.index < |s.results|;
    if s.m.index == i {
      var m := s.m.(items := s.m.items + [s.results[i]], index := s.m.index + 1);
      assert s.consumed + m.items == (s.consumed + s.m.items) + [s.results[i]] == s.results[..m.index];
      AbsorbOrders(m, s.results, s.arrived + {i}, s.consumed);
    }
  }

  lemma StepOrdered<T>(s: State<T>, e: Event)
    requires Ordered(s) && Enabled(s, e)
    ensures Ordered(Do(s, e, true))
  {
    match e
    case Arrive(i) => ArriveOrdered(s, i);
    case Announce =>
    case Next =>
      if s.m.items != [] {
        assert (s.consumed + [s.m.items[0]]) + s.m.items[1..] == s.consumed + s.m.items;
      }
  }

  // ----- The unordered variant -----

  /** How often `x` is among the results with an index below n in `arrived`. */
  ghost function Delivered<T>(results: seq<T>, arrived: set<nat>, n: nat, x: T): nat
    requires n <= |results|
  {
    if n == 0 then 0
    else Delivered(results, arrived, n - 1, x) + (if n - 1 in arrived && results[n - 1] == x then 1 else 0)
  }

  lemma {:induction false} DeliverOne<T>(results: seq<T>, arrived: set<nat>, n: nat, i: nat, x: T)
    requires n <= |results| && i !in arrived
    ensures Delivered(results, arrived + {i}, n, x) ==
            Delivered(results, arrived, n, x) + (if i < n && results[i] == x then 1 else 0)
  {
    if n > 0 {
      DeliverOne(results, arrived, n - 1, i, x);
    }
  }

  lemma {:induction false} DeliverAll<T>(results: seq<T>, arrived: set<nat>, n: nat, x: T)
    requires n <= |results| && forall k :: 0 <= k < n ==> k in arrived
    ensures Delivered(results, arrived, n, x) == multiset(results[..n])[x]
  {
    if n > 0 {
      DeliverAll(results, arrived, n - 1, x);
      assert results[..n] == results[..n - 1] + [results[n - 1]];
    }
  }

  /** `all` are the results that have arrived, as a multiset. */
  ghost predicate Conserves<T(!new)>(all: seq<T>, results: seq<T>, arrived: set<nat>) {
    forall x :: multiset(all)[x] == Delivered(results, arrived, |results|, x)
  }

  /** What is consumed and what is in line are the results that have arrived, as a multiset. */
  ghost predicate Unordered<T(!new)>(s: State<T>) {
    && Bookkeeping(s)
    && s.m.index == |s.arrived|
    && Conserves(s.consumed + s.m.items, s.results, s.arrived)
  }

  lemma StepUnordered<T(!new)>(s: State<T>, e: Event)
    requires Unordered(s) && Enabled(s, e)
    ensures Unordered(Do(s, e, false))
    ensures e.Arrive? ==> Do(s, e, false).arrived == s.arrived + {e.i}
  {
    match e
    case Arrive(i) => ArriveUnordered(s, i);
    case Announce =>
    case Next =>
      if s.m.items != [] {
        assert (s.consumed + [s.m.items[0]]) + s.m.items[1..] == s.consumed + s.m.items;
      }
  }

  lemma StillMissing(arrived: set<nat>, n: nat, i: nat)
    requires i < n && i !in arrived && forall k :: k in arrived ==> k < n
    ensures |arrived| < n
  {
    SubsetSize(arrived + {i}, Below(n));
  }

  lemma ArriveConserves<T(!new)>(s: State<T>, i: nat)
    requires Unordered(s) && i < |s.results| && i !in s.arrived
    ensures Conserves(s.consumed + (s.m.items + [s.results[i]]), s.results, s.arrived + {i})
  {
    hide Delivered, Bookkeeping;
    var all := s.consumed + s.m.items;
    assert s.consumed + (s.m.items + [s.results[i]]) == all + [s.results[i]];
    forall x
      ensures multiset(all + [s.results[i]])[x] == Delivered(s.results, s.arrived + {i}, |s.results|, x)
    {
      DeliverOne(s.results, s.arrived, |s.results|, i, x);
    }
  }

  lemma ArriveUnordered<T(!new)>(s: State<T>, i: nat)
    requires Unordered(s) && Enabled(s, Arrive(i))
    ensures Unordered(Do(s, Arrive(i), false))
    ensures Do(s, Arrive(i), false).arrived == s.arrived + {i}
  {
    hide Below, Conserves;
    StillMissing(s.arrived, |s.results|, i);
    ArriveConserves(s, i);
  }

  // ----- Runs -----

  ghost predicate Run<T>(ss: seq<State<T>>, es: seq<Event>, ordered: bool) {
    && |ss| == |es| + 1
    && forall i {:trigger es[i]} :: 0 <= i < |es| ==>
         Enabled(ss[i], es[i]) && ss[i + 1] == Do(ss[i], es[i], ordered)
  }

  lemma {:induction false} RunInv<T(!new)>(ss: seq<State<T>>, es: seq<Event>, ordered: bool, i: nat)
    requires Run(ss, es, ordered) && Init(ss[0]) && i < |ss|
    ensures if ordered then Ordered(ss[i]) else Unordered(ss[i])
    ensures ss[i].results == ss[0].results
  {
    if i > 0 {
      RunInv(ss, es, ordered, i - 1);
      if ordered {
        StepOrdered(ss[i - 1], es[i - 1]);
      } else {
        StepUnordered(ss[i - 1], es[i - 1]);
      }
    } else if !ordered {
      forall x
        ensures Delivered(ss[0].results, {}, |ss[0].results|, x) == 0
      {
        NothingDelivered(ss[0].results, |ss[0].results|, x);
      }
    }
  }

  lemma {:induction false} NothingDelivered<T>(results: seq<T>, n: nat, x: T)
    requires n <= |results|
    ensures Delivered(results, {}, n, x) == 0
  {
    if n > 0 {
      NothingDelivered(results, n - 1, x);
    }
  }

  /** imap refines the sequential iterator: at every moment what was consumed is a prefix of the
      results in order, and iteration stops exactly when all of them have been consumed and the
      length is known. */
  lemma IMapRefinesSequential<T(!new)>(ss: seq<State<T>>, es: seq<Event>, i: nat)
    requires Run(ss, es, true) && Init(ss[0]) && i < |ss|
    ensures ss[i].consumed <= ss[0].results
    ensures Pulled(ss[i].m).Item? ==>
              |ss[i].consumed| < |ss[0].results| && Pulled(ss[i].m).value == ss[0].results[|ss[i].consumed|]
    ensures Pulled(ss[i].m).Stop? <==> ss[i].consumed == ss[0].results && ss[i].m.length.Some?
    ensures ss[i].m.deletions <= 1
    ensures ss[i].m.ready <==> ss[i].m.length.Some? && |ss[i].consumed| + |ss[i].m.items| == |ss[0].results|
  {
    RunInv(ss, es, true, i);
    var s := ss[i];
    assert s.results[..s.m.index] == s.consumed + s.m.items;
    assert s.consumed == s.results[..|s.consumed|];
    if s.m.items != [] {
      assert s.m.items[0] == (s.consumed + s.m.items)[|s.consumed|];
    }
  }

  /** Nothing is lost: once every result has arrived, all of them are consumed or in line, and
      with the length known the job has been deleted from the cache exactly once. */
  lemma IMapComplete<T(!new)>(ss: seq<State<T>>, es: seq<Event>, i: nat)
    requires Run(ss, es, true) && Init(ss[0]) && i < |ss|
    requires forall k :: 0 <= k < |ss[0].results| ==> k in ss[i].arrived
    ensures ss[i].consumed + ss[i].m.items == ss[0].results
    ensures ss[i].m.length.Some? ==> ss[i].m.deletions == 1 && ss[i].m.ready
  {
    RunInv(ss, es, true, i);
    var s := ss[i];
    assert s.m.index !in s.arrived;
    assert s.m.index == |s.results|;
    assert s.results[..|s.results|] == s.results;
  }

  /** imap_unordered conserves the multiset of results. */
  lemma UnorderedComplete<T(!new)>(ss: seq<State<T>>, es: seq<Event>, i: nat)
    requires Run(ss, es, false) && Init(ss[0]) && i < |ss|
    requires forall k :: 0 <= k < |ss[0].results| ==> k in ss[i].arrived
    ensures multiset(ss[i].consumed + ss[i].m.items) == multiset(ss[0].results)
    ensures ss[i].m.length.Some? ==> ss[i].m.deletions == 1 && ss[i].m.ready
    ensures Pulled(ss[i].m).Stop? ==> multiset(ss[i].consumed) == multiset(ss[0].results)
  {
    RunInv(ss, es, false, i);
    var s := ss[i];
    assert s.results[..|s.results|] == s.results;
    forall x
      ensures multiset(s.consumed + s.m.items)[x] == multiset(s.results)[x]
    {
      DeliverAll(s.results, s.arrived, |s.results|, x);
    }
    assert Below(|s.results|) <= s.arrived;
    SubsetSize(Below(|s.results|), s.arrived);
    if s.m.items == [] {
      assert s.consumed + s.m.items == s.consumed;
    }
  }

  /** imap_unordered stops exactly when all results have been consumed and the length is known,
      and what was consumed then are the results, as a multiset. */
  lemma UnorderedStops<T(!new)>(ss: seq<State<T>>, es: seq<Event>, i: nat)
    requires Run(ss, es, false) && Init(ss[0]) && i < |ss|
    ensures Pulled(ss[i].m).Stop? <==> ss[i].m.length.Some? && |ss[i].consumed| == |ss[0].results|
    ensures Pulled(ss[i].m).Stop? ==> multiset(ss[i].consumed) == multiset(ss[0].results)
  {
    RunInv(ss, es, false, i);
    var s := ss[i];
    if Pulled(s.m).Stop? {
      assert s.arrived <= Below(|s.results|);
      SubsetSize(s.arrived, Below(|s.results|));
      UnorderedComplete(ss, es, i);
    }
  }
}
