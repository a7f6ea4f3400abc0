/**
 * Reference counting of shared objects in billiard/managers.py: a server with two tables, and
 * proxies in any number of processes that take and give back references by requests which may
 * fail.  Each request is one step under the server's mutex.
 */
module ManagerRefs {
  import opened Optional
  import opened Tally

  type Ident = nat
  type Pid = nat

  // ----- The server -----

  /** The keys of `id_to_obj` (but for the server itself) and the table `id_to_refcount`. */
  datatype Tables = Tables(objs: set<Ident>, refs: map<Ident, nat>)

  datatype Reply = Done | KeyError | AssertionError

  function Refcount(t: Tables, id: Ident): nat {
    if id in t.refs then t.refs[id] else 0
  }

  function Created(t: Tables, id: Ident): Tables {
    Tables(t.objs + {id}, t.refs[id := Refcount(t, id) + 1])
  }

  function Increased(t: Tables, id: Ident): Tables {
    if id in t.refs then t.(refs := t.refs[id := t.refs[id] + 1]) else t
  }

  function Decreased(t: Tables, id: Ident): Tables {
    if id !in t.refs || t.refs[id] == 0 then t
    else if t.refs[id] == 1 then Tables(t.objs - {id}, t.refs - {id})
    else t.(refs := t.refs[id := t.refs[id] - 1])
  }

  class Server {
    var idToObj: set<Ident>
    var idToRefcount: map<Ident, nat>

    function View(): Tables
      reads this
    {
      Tables(idToObj, idToRefcount)
    }

    constructor ()
      ensures View() == Tables({}, map[])
    {
      idToObj, idToRefcount := {}, map[];
    }

    /** create, for an object whose id is `id`; the object may be one that is shared already. */
    method Create(id: Ident)
      modifies this
      ensures View() == Created(old(View()), id)
    {
      idToObj := idToObj + {id};
      if id !in idToRefcount {
        idToRefcount := idToRefcount[id := 0];
      }
      var r := Incref(id);
    }

    method Incref(id: Ident) returns (r: Reply)
      modifies this`idToRefcount
      ensures View() == Increased(old(View()), id)
      ensures r == if id in old(idToRefcount) then Done else KeyError
    {
      if id !in idToRefcount {
        return KeyError;
      }
      idToRefcount := idToRefcount[id := idToRefcount[id] + 1];
      return Done;
    }

    method Decref(id: Ident) returns (r: Reply)
      modifies this
      ensures View() == Decreased(old(View()), id)
      ensures r == if id !in old(idToRefcount) then KeyError
                   else if old(idToRefcount)[id] < 1 then AssertionError else Done
    {
      if id !in idToRefcount {
        return KeyError;
      }
      if idToRefcount[id] < 1 {
        return AssertionError;
      }
      idToRefcount := idToRefcount[id := idToRefcount[id] - 1];
      if idToRefcount[id] == 0 {
        idToObj := idToObj - {id};
        idToRefcount := idToRefcount - {id};
      }
      return Done;
    }
  }

  // ----- The protocol -----

  /** The n-th proxy object of a process; a forked child has copies with the same number. */
  datatype Proxy = Proxy(pid: Pid, n: nat)

  /** `open` are the proxies that hold a reference, `inherited` the copies in forked children
      that have yet to take one, `creating` the creates whose closing decref is outstanding.
      `leaked` is history: the references that nobody will give back because a request failed. */
  datatype State = State(
    server: Tables,
    open: map<Proxy, Ident>,
    inherited: map<Proxy, Ident>,
    creating: map<nat, Ident>,
    leaked: multiset<Ident>)

  datatype Action =
    | Create(req: nat, id: Ident)
    | FinishCreate(req: nat)           // the decref after the proxy has been made
    | AbandonCreate(req: nat)          // ... which fails, or is never sent
    | Open(p: Proxy, id: Ident)        // a new proxy takes a reference; KeyError if the id is gone
    | OpenLost(id: Ident)              // ... but the reply is lost and there is no proxy
    | Close(p: Proxy)
    | CloseFails(p: Proxy)             // the failed decref of a closed proxy is swallowed
    | Fork(parent: Pid, child: Pid)
    | AfterFork(p: Proxy)              // an inherited proxy takes a reference of its own
    | AfterForkFails(p: Proxy)

  ghost predicate Enabled(s: State, a: Action) {
    match a
    case Create(req, _) => req !in s.creating
    case FinishCreate(req) => req in s.creating
    case AbandonCreate(req) => req in s.creating
    case Open(p, _) => p !in s.open && p !in s.inherited
    case OpenLost(_) => true
    case Close(p) => p in s.open
    case CloseFails(p) => p in s.open
    case Fork(_, child) => forall p :: p in s.open || p in s.inherited ==> p.pid != child
    case AfterFork(p) => p in s.inherited && p !in s.open
    case AfterForkFails(p) => p in s.inherited
  }

  ghost function Do(s: State, a: Action): State
    requires Enabled(s, a)
  {
    match a
    case Create(req, id) => s.(server := Created(s.server, id), creating := s.creating[req := id])
    case FinishCreate(req) => s.(server := Decreased(s.server, s.creating[req]), creating := s.creating - {req})
    case AbandonCreate(req) => s.(creating := s.creating - {req}, leaked := s.leaked + multiset{s.creating[req]})
    case Open(p, id) =>
      if id in s.server.refs then s.(server := Increased(s.server, id), open := s.open[p := id]) else s
    case OpenLost(id) =>
      if id in s.server.refs then s.(server := Increased(s.server, id), leaked := s.leaked + multiset{id}) else s
    case Close(p) => s.(server := Decreased(s.server, s.open[p]), open := s.open - {p})
    case CloseFails(p) => s.(open := s.open - {p}, leaked := s.leaked + multiset{s.open[p]})
    case Fork(parent, child) =>
      s.(inherited := s.inherited + map p | p in Copies(s.open, parent, child) :: s.open[Proxy(parent, p.n)])
    case AfterFork(p) =>
      var id := s.inherited[p];
      var s' := s.(inherited := s.inherited - {p});
      if id in s.server.refs then s'.(server := Increased(s.server, id), open := s.open[p := id]) else s'
    case AfterForkFails(p) => s.(inherited := s.inherited - {p})
  }

  /** The proxies of `child` that are copies of open proxies of `parent`. */
  ghost function Copies(open: map<Proxy, Ident>, parent: Pid, child: Pid): (c: set<Proxy>)
    ensures forall p :: p in c ==> Proxy(parent, p.n) in open
  {
    set p | p in open && p.pid == parent :: Proxy(child, p.n)
  }

  predicate Init(s: State) {
    s == State(Tables({}, map[]), map[], map[], map[], multiset{})
  }

  // ----- The invariant -----

  ghost function Is(id: Ident): Ident -> bool {
    v => v == id
  }

  /** How many entries of `m` refer to `id`. */
  ghost function Held<K>(m: map<K, Ident>, id: Ident): nat {
    Count(m, Is(id))
  }

  lemma HeldAdd<K>(m: map<K, Ident>, k: K, v: Ident, id: Ident)
    requires k !in m
    ensures Held(m[k := v], id) == Held(m, id) + (if v == id then 1 else 0)
  {
    CountUpdate(m, Is(id), k, v);
  }

  lemma HeldRemove<K>(m: map<K, Ident>, k: K, id: Ident)
    requires k in m
    ensures Held(m - {k}, id) == Held(m, id) - (if m[k] == id then 1 else 0)
    ensures m[k] == id ==> Held(m, id) > 0
  {
    CountRemove(m, Is(id), k);
    CountWitness(m, Is(id));
  }

  /** The references to `id` that are accounted for. */
  ghost function Owed(s: State, id: Ident): nat {
    Held(s.open, id) + Held(s.creating, id) + s.leaked[id]
  }

  ghost predicate Inv(s: State) {
    && (forall id :: Refcount(s.server, id) == Owed(s, id))
    && TablesOk(s.server)
  }

  lemma RefcountChanges(t: Tables, v: Ident, id: Ident)
    ensures Refcount(Created(t, v), id) == Refcount(t, id) + (if v == id then 1 else 0)
    ensures v in t.refs ==> Refcount(Increased(t, v), id) == Refcount(t, id) + (if v == id then 1 else 0)
    ensures Refcount(t, v) > 0 ==> Refcount(Decreased(t, v), id) == Refcount(t, id) - (if v == id then 1 else 0)
  {
  }

  lemma StepOwed(s: State, a: Action, id: Ident)
    requires Inv(s) && Enabled(s, a)
    ensures Refcount(Do(s, a).server, id) == Owed(Do(s, a), id)
  {
    hide Refcount, Created, Increased, Decreased, Held;
    assert Refcount(s.server, id) == Owed(s, id);
    match a
    case Create(req, v) =>
      HeldAdd(s.creating, req, v, id);
      RefcountChanges(s.server, v, id);
    case FinishCreate(req) => GiveBack(s, s.creating, req, id);
    case AbandonCreate(req) => HeldRemove(s.creating, req, id);
    case Open(p, v) =>
      HeldAdd(s.open, p, v, id);
      RefcountChanges(s.server, v, id);
    case OpenLost(v) => RefcountChanges(s.server, v, id);
    case Close(p) => GiveBack(s, s.open, p, id);
    case CloseFails(p) => HeldRemove(s.open, p, id);
    case Fork(_, _) =>
    case AfterFork(p) =>
      HeldAdd(s.open, p, s.inherited[p], id);
      RefcountChanges(s.server, s.inherited[p], id);
    case AfterForkFails(_) =>
  }

  /** Giving back a reference that is held lowers both sides of the account by one. */
  lemma GiveBack<K>(s: State, m: map<K, Ident>, k: K, id: Ident)
    requires Inv(s) && k in m && Held(m, m[k]) <= Owed(s, m[k])
    ensures Held(m - {k}, id) == Held(m, id) - (if m[k] == id then 1 else 0)
    ensures Refcount(Decreased(s.server, m[k]), id) == Refcount(s.server, id) - (if m[k] == id then 1 else 0)
  {
    HeldRemove(m, k, id);
    HeldRemove(m, k, m[k]);
    assert Refcount(s.server, m[k]) == Owed(s, m[k]);
    RefcountChanges(s.server, m[k], id);
  }

  lemma StepInv(s: State, a: Action)
    requires Inv(s) && Enabled(s, a)
    ensures Inv(Do(s, a))
  {
    StepTables(s, a);
    hide Held, Do;
    forall id: Ident
      ensures Refcount(Do(s, a).server, id) == Owed(Do(s, a), id)
    {
      StepOwed(s, a, id);
    }
  }

  /** Both tables have the same ids, with positive counts. */
  ghost predicate TablesOk(t: Tables) {
    && (forall id :: id in t.refs ==> t.refs[id] > 0)
    && (forall id :: id in t.objs <==> id in t.refs)
  }

  lemma StepTables(s: State, a: Action)
    requires TablesOk(s.server) && Enabled(s, a)
    ensures TablesOk(Do(s, a).server)
  {
    hide Copies;
  }

  // ----- Runs -----

  ghost predicate Run(ss: seq<State>, acts: seq<Action>) {
    && |ss| == |acts| + 1
    && forall i {:trigger acts[i]} :: 0 <= i < |acts| ==>
         Enabled(ss[i], acts[i]) && ss[i + 1] == Do(ss[i], acts[i])
  }

  lemma {:induction false} RunInv(ss: seq<State>, acts: seq<Action>, i: nat)
    requires Run(ss, acts) && Init(ss[0]) && i < |ss|
    ensures Inv(ss[i])
  {
    if i > 0 {
      hide Inv, Do, Enabled;
      RunInv(ss, acts, i - 1);
      StepInv(ss[i - 1], acts[i - 1]);
    }
  }

  /** In every run, an object's reference count is the number of its open proxies and unfinished
      creates plus the references leaked by failed requests; the object is there exactly while
      that number is positive, and both tables have the same ids. */
  lemma CountsExact(ss: seq<State>, acts: seq<Action>, i: nat, id: Ident)
    requires Run(ss, acts) && Init(ss[0]) && i < |ss|
    ensures Refcount(ss[i].server, id) == Held(ss[i].open, id) + Held(ss[i].creating, id) + ss[i].leaked[id]
    ensures id in ss[i].server.objs <==> Held(ss[i].open, id) + Held(ss[i].creating, id) + ss[i].leaked[id] > 0
    ensures id in ss[i].server.objs <==> id in ss[i].server.refs
  {
    RunInv(ss, acts, i);
  }

  /** An object with an open proxy is never dropped, and giving the proxy's reference back never
      fails in the server. */
  lemma OpenProxyKeepsObject(ss: seq<State>, acts: seq<Action>, i: nat, p: Proxy)
    requires Run(ss, acts) && Init(ss[0]) && i < |ss| && p in ss[i].open
    ensures var id := ss[i].open[p];
            id in ss[i].server.objs && id in ss[i].server.refs && ss[i].server.refs[id] >= 1
  {
    CountsExact(ss, acts, i, ss[i].open[p]);
    HeldRemove(ss[i].open, p, ss[i].open[p]);
  }

  /** The same for a create whose closing decref is outstanding. */
  lemma UnfinishedCreateKeepsObject(ss: seq<State>, acts: seq<Action>, i: nat, req: nat)
    requires Run(ss, acts) && Init(ss[0]) && i < |ss| && req in ss[i].creating
    ensures var id := ss[i].creating[req];
            id in ss[i].server.objs && id in ss[i].server.refs && ss[i].server.refs[id] >= 1
  {
    CountsExact(ss, acts, i, ss[i].creating[req]);
    HeldRemove(ss[i].creating, req, ss[i].creating[req]);
  }

  /** Requests that leave a reference behind. */
  predicate Leaks(a: Action) {
    a.AbandonCreate? || a.OpenLost? || a.CloseFails?
  }

  /** If no request fails, the count is exactly the open proxies plus the unfinished creates. */
  lemma {:induction false} NoFailureNoLeak(ss: seq<State>, acts: seq<Action>, i: nat)
    requires Run(ss, acts) && Init(ss[0]) && i < |ss|
    requires forall k :: 0 <= k < |acts| ==> !Leaks(acts[k])
    ensures ss[i].leaked == multiset{}
    ensures forall id :: Refcount(ss[i].server, id) == Held(ss[i].open, id) + Held(ss[i].creating, id)
  {
    RunInv(ss, acts, i);
    if i > 0 {
      NoFailureNoLeak(ss, acts, i - 1);
      assert !Leaks(acts[i - 1]);
    }
  }

  // ----- Who holds what, told from the requests alone -----

  /** The object that proxy p holds a reference to after the first n requests, going back to the
      latest one about p: a proxy opened for an object that was there, or a copy that has taken
      its own reference, and not closed since. */
  ghost function Opened(ss: seq<State>, acts: seq<Action>, p: Proxy, n: nat): Option<Ident>
    requires n <= |acts| && |ss| == |acts| + 1
    decreases n, 0
  {
    if n == 0 then None
    else
      match acts[n - 1]
      case Open(q, id) =>
        if q != p then Opened(ss, acts, p, n - 1)
        else if id in ss[n - 1].server.objs then Some(id) else None
      case AfterFork(q) =>
        if q != p then Opened(ss, acts, p, n - 1)
        else
          var id := Inherited(ss, acts, p, n - 1);
          if id.Some? && id.value in ss[n - 1].server.objs then id else None
      case Close(q) => if q == p then None else Opened(ss, acts, p, n - 1)
      case CloseFails(q) => if q == p then None else Opened(ss, acts, p, n - 1)
      case _ => Opened(ss, acts, p, n - 1)
  }

  /** The object that the copy p in a forked child stands for, until the child takes a reference: the
      one its parent's proxy held at the fork. */
  ghost function Inherited(ss: seq<State>, acts: seq<Action>, p: Proxy, n: nat): Option<Ident>
    requires n <= |acts| && |ss| == |acts| + 1
    decreases n, 1
  {
    if n == 0 then None
    else
      match acts[n - 1]
      case Fork(parent, child) =>
        if p.pid == child && Opened(ss, acts, Proxy(parent, p.n), n - 1).Some?
        then Opened(ss, acts, Proxy(parent, p.n), n - 1)
        else Inherited(ss, acts, p, n - 1)
      case AfterFork(q) => if q == p then None else Inherited(ss, acts, p, n - 1)
      case AfterForkFails(q) => if q == p then None else Inherited(ss, acts, p, n - 1)
      case _ => Inherited(ss, acts, p, n - 1)
  }

  /** The object of an unfinished create. */
  ghost function Creating(acts: seq<Action>, req: nat, n: nat): Option<Ident>
    requires n <= |acts|
  {
    if n == 0 then None
    else
      match acts[n - 1]
      case Create(r, id) => if r == req then Some(id) else Creating(acts, req, n - 1)
      case FinishCreate(r) => if r == req then None else Creating(acts, req, n - 1)
      case AbandonCreate(r) => if r == req then None else Creating(acts, req, n - 1)
      case _ => Creating(acts, req, n - 1)
  }

  function Lookup<K>(m: map<K, Ident>, k: K): Option<Ident> {
    if k in m then Some(m[k]) else None
  }

  lemma ForkCopies(s: State, parent: Pid, child: Pid, p: Proxy)
    requires Enabled(s, Fork(parent, child))
    ensures Lookup(Do(s, Fork(parent, child)).inherited, p) ==
            if p.pid == child && Lookup(s.open, Proxy(parent, p.n)).Some? then Lookup(s.open, Proxy(parent, p.n))
            else Lookup(s.inherited, p)
  {
    var c := Copies(s.open, parent, child);
    if p.pid == child && Proxy(parent, p.n) in s.open {
      var q := Proxy(parent, p.n);
      assert p == Proxy(child, q.n);
      assert p in c;
    }
  }

  lemma StepOpened(s: State, a: Action, p: Proxy)
    requires Inv(s) && Enabled(s, a)
    ensures Lookup(Do(s, a).open, p) ==
            match a
            case Open(q, id) =>
              if q != p then Lookup(s.open, p) else if id in s.server.objs then Some(id) else None
            case AfterFork(q) =>
              if q != p then Lookup(s.open, p)
              else if s.inherited[p] in s.server.objs then Some(s.inherited[p]) else None
            case Close(q) => if q == p then None else Lookup(s.open, p)
            case CloseFails(q) => if q == p then None else Lookup(s.open, p)
            case _ => Lookup(s.open, p)
  {
    hide Owed, Copies;
  }

  lemma StepInherited(s: State, a: Action, p: Proxy)
    requires Enabled(s, a) && !a.Fork?
    ensures Lookup(Do(s, a).inherited, p) ==
            match a
            case AfterFork(q) => if q == p then None else Lookup(s.inherited, p)
            case AfterForkFails(q) => if q == p then None else Lookup(s.inherited, p)
            case _ => Lookup(s.inherited, p)
  {
  }

  lemma StepCreating(s: State, a: Action, req: nat)
    requires Enabled(s, a)
    ensures Lookup(Do(s, a).creating, req) ==
            match a
            case Create(r, id) => if r == req then Some(id) else Lookup(s.creating, req)
            case FinishCreate(r) => if r == req then None else Lookup(s.creating, req)
            case AbandonCreate(r) => if r == req then None else Lookup(s.creating, req)
            case _ => Lookup(s.creating, req)
  {
    hide Copies;
  }

  /** In every run, exactly those proxies are open, for exactly those objects, that the requests
      have opened and not closed; the same for the copies in forked children. */
  lemma {:induction false} OpenAreRequests(ss: seq<State>, acts: seq<Action>, n: nat, p: Proxy)
    requires Run(ss, acts) && Init(ss[0]) && n < |ss|
    ensures Lookup(ss[n].open, p) == Opened(ss, acts, p, n)
    ensures Lookup(ss[n].inherited, p) == Inherited(ss, acts, p, n)
  {
    if n > 0 {
      hide Inv, Init, Do;
      var s, a := ss[n - 1], acts[n - 1];
      RunInv(ss, acts, n - 1);
      OpenAreRequests(ss, acts, n - 1, p);
      StepOpened(s, a, p);
      if a.Fork? {
        OpenAreRequests(ss, acts, n - 1, Proxy(a.parent, p.n));
        ForkCopies(s, a.parent, a.child, p);
      } else {
        StepInherited(s, a, p);
      }
    }
  }

  /** The same for creates. */
  lemma {:induction false} CreatingAreRequests(ss: seq<State>, acts: seq<Action>, n: nat, req: nat)
    requires Run(ss, acts) && Init(ss[0]) && n < |ss|
    ensures Lookup(ss[n].creating, req) == Creating(acts, req, n)
  {
    if n > 0 {
      hide Do;
      CreatingAreRequests(ss, acts, n - 1, req);
      StepCreating(ss[n - 1], acts[n - 1], req);
    }
  }

  /** A forked child gets a proxy of its own for every proxy of its parent, as long as anybody holds
      a reference to the object when the child asks for one. */
  lemma ForkKeepsProxies(ss: seq<State>, acts: seq<Action>, n: nat, p: Proxy, holder: Proxy)
    requires Run(ss, acts) && Init(ss[0]) && n < |acts| && acts[n] == AfterFork(p)
    requires p in ss[n].inherited && holder in ss[n].open && ss[n].open[holder] == ss[n].inherited[p]
    ensures p in ss[n + 1].open && ss[n + 1].open[p] == ss[n].inherited[p]
    ensures ss[n + 1].open[p] in ss[n + 1].server.objs
  {
    RunInv(ss, acts, n);
    OpenProxyKeepsObject(ss, acts, n, holder);
  }

  /** Whether the n-th request fails and leaves a reference to the object behind. */
  ghost predicate LeavesBehind(ss: seq<State>, acts: seq<Action>, id: Ident, n: nat)
    requires 0 < n <= |acts| && |ss| == |acts| + 1
  {
    match acts[n - 1]
    case AbandonCreate(req) => Creating(acts, req, n - 1) == Some(id)
    case OpenLost(v) => v == id && id in ss[n - 1].server.objs
    case CloseFails(p) => Opened(ss, acts, p, n - 1) == Some(id)
    case _ => false
  }

  /** The references to an object that failed requests have left behind. */
  ghost function LeftBehind(ss: seq<State>, acts: seq<Action>, id: Ident, n: nat): nat
    requires n <= |acts| && |ss| == |acts| + 1
  {
    if n == 0 then 0
    else LeftBehind(ss, acts, id, n - 1) + (if LeavesBehind(ss, acts, id, n) then 1 else 0)
  }

  lemma StepLeaked(s: State, a: Action, id: Ident)
    requires Inv(s) && Enabled(s, a)
    ensures Do(s, a).leaked[id] == s.leaked[id]
            + match a
              case AbandonCreate(req) => if s.creating[req] == id then 1 else 0
              case OpenLost(v) => if v == id && id in s.server.objs then 1 else 0
              case CloseFails(p) => if s.open[p] == id then 1 else 0
              case _ => 0
  {
    hide Owed, Copies;
  }

  lemma LeakedStep(ss: seq<State>, acts: seq<Action>, n: nat, id: Ident)
    requires Run(ss, acts) && Init(ss[0]) && 0 < n < |ss|
    ensures ss[n].leaked[id] == ss[n - 1].leaked[id] + (if LeavesBehind(ss, acts, id, n) then 1 else 0)
  {
    hide Inv, Do, Opened, Creating, Init;
    var a := acts[n - 1];
    RunInv(ss, acts, n - 1);
    StepLeaked(ss[n - 1], a, id);
    if a.AbandonCreate? {
      CreatingAreRequests(ss, acts, n - 1, a.req);
    } else if a.CloseFails? {
      OpenAreRequests(ss, acts, n - 1, a.p);
    }
  }

  /** In every run the references that count as leaked are those. */
  lemma {:induction false} LeakedAreFailures(ss: seq<State>, acts: seq<Action>, n: nat, id: Ident)
    requires Run(ss, acts) && Init(ss[0]) && n < |ss|
    ensures ss[n].leaked[id] == LeftBehind(ss, acts, id, n)
  {
    if n > 0 {
      hide LeavesBehind;
      LeakedAreFailures(ss, acts, n - 1, id);
      LeakedStep(ss, acts, n, id);
    }
  }
}
