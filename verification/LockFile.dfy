/**
  Locking by index: a map of recursive mutexes with counters, guarded by one database-wide
  mutex, as interleaved atomic steps of any number of threads.
 */
module LockFile {

  type Thread = nat

  type Index = nat

  /** A recursive mutex. */
  datatype Mutex = Free | Held(owner: Thread, depth: nat)

  datatype Entry = Entry(mutex: Mutex, counter: nat)

  /** Where a thread stands: outside, or at the named point of `lock(i)` or `unlock(i)`. */
  datatype Point =
    | Outside
    | LockEntered(i: Index)    // holds the database mutex
    | LockFirst(i: Index)      // counted as the first; about to take the index mutex
    | LockLater(i: Index)      // counted as a later one; about to leave the database mutex
    | LockWaiting(i: Index)    // waits for the index mutex without the database mutex
    | UnlockEntered(i: Index)  // holds the database mutex
    | UnlockReleased(i: Index) // has released the index mutex; about to count down
    | Leaving                  // about to leave the database mutex

  datatype Call = Lock(i: Index) | Unlock(i: Index)

  /** `holds` records, beside the mutexes, how often each thread has returned from `lock(i)`
      without having entered `unlock(i)` since. */
  datatype State = State(
    database: Mutex,
    entries: map<Index, Entry>,
    points: map<Thread, Point>,
    holds: map<(Thread, Index), nat>)

  function HoldCount(s: State, t: Thread, i: Index): nat {
    if (t, i) in s.holds then s.holds[(t, i)] else 0
  }

  function Take(m: Mutex, t: Thread): Mutex {
    match m
    case Free => Held(t, 1)
    case Held(o, d) => Held(o, d + 1)
  }

  function Release(m: Mutex): Mutex {
    match m
    case Free => Free
    case Held(o, d) => if d <= 1 then Free else Held(o, d - 1)
  }

  /** A thread can take a mutex that is free or its own. */
  predicate CanTake(m: Mutex, t: Thread) {
    m == Free || m.owner == t
  }

  /** The map's subscript: a missing entry is created. */
  function Lookup(entries: map<Index, Entry>, i: Index): Entry {
    if i in entries then entries[i] else Entry(Free, 0)
  }

  predicate Enabled(s: State, t: Thread, call: Call) {
    t in s.points &&
    match s.points[t]
    case Outside => CanTake(s.database, t) && (call.Unlock? ==> HoldCount(s, t, call.i) > 0)
    case LockFirst(i) => CanTake(Lookup(s.entries, i).mutex, t)
    case LockWaiting(i) => CanTake(Lookup(s.entries, i).mutex, t)
    case _ => true
  }

  /** The next atomic step of a thread; `call` is what a thread outside goes into. */
  function Next(s: State, t: Thread, call: Call): State
    requires Enabled(s, t, call)
  {
    match s.points[t]
    case Outside =>
      s.(database := Take(s.database, t),
         points := s.points[t := match call case Lock(i) => LockEntered(i) case Unlock(i) => UnlockEntered(i)])
    case LockEntered(i) =>
      var e := Lookup(s.entries, i);
      s.(entries := s.entries[i := e.(counter := e.counter + 1)],
         points := s.points[t := if e.counter == 0 then LockFirst(i) else LockLater(i)])
    case LockFirst(i) =>
      var e := Lookup(s.entries, i);
      s.(entries := s.entries[i := e.(mutex := Take(e.mutex, t))],
         points := s.points[t := Leaving],
         holds := s.holds[(t, i) := HoldCount(s, t, i) + 1])
    case LockLater(i) =>
      s.(database := Release(s.database), points := s.points[t := LockWaiting(i)])
    case LockWaiting(i) =>
      var e := Lookup(s.entries, i);
      s.(entries := s.entries[i := e.(mutex := Take(e.mutex, t))],
         points := s.points[t := Outside],
         holds := s.holds[(t, i) := HoldCount(s, t, i) + 1])
    case UnlockEntered(i) =>
      var e := Lookup(s.entries, i);
      s.(entries := s.entries[i := e.(mutex := Release(e.mutex))],
         points := s.points[t := UnlockReleased(i)],
         holds := s.holds[(t, i) := if HoldCount(s, t, i) == 0 then 0 else HoldCount(s, t, i) - 1])
    case UnlockReleased(i) =>
      var e := Lookup(s.entries, i);
      var counter := if e.counter == 0 then 0 else e.counter - 1;
      s.(entries := if counter == 0 then s.entries - {i} else s.entries[i := e.(counter := counter)],
         points := s.points[t := Leaving])
    case Leaving =>
      s.(database := Release(s.database), points := s.points[t := Outside])
  }

  predicate Initial(s: State) {
    s.database == Free && s.entries == map[] && s.holds == map[] && forall t :: t in s.points ==> s.points[t] == Outside
  }

  datatype Action = Action(t: Thread, call: Call)

  /** States reached from the first one by enabled steps, in any interleaving. */
  ghost predicate Run(states: seq<State>, actions: seq<Action>) {
    && |states| == |actions| + 1 && Initial(states[0])
    && forall n :: 0 <= n < |actions| ==> StepAt(states, actions, n)
  }

  ghost predicate StepAt(states: seq<State>, actions: seq<Action>, n: nat)
    requires |states| == |actions| + 1 && n < |actions|
  {
    && Enabled(states[n], actions[n].t, actions[n].call)
    && states[n + 1] == Next(states[n], actions[n].t, actions[n].call)
  }

  // ----- the invariant

  predicate InsideDatabase(p: Point) {
    !p.Outside? && !p.LockWaiting?
  }

  /** Counted in the entry of i without holding its mutex for it. */
  predicate Pending(p: Point, i: Index) {
    p == LockFirst(i) || p == LockLater(i) || p == LockWaiting(i) || p == UnlockReleased(i)
  }

  function PendingThreads(s: State, i: Index): set<Thread> {
    set t | t in s.points && Pending(s.points[t], i)
  }

  function Depth(m: Mutex): nat {
    if m == Free then 0 else m.depth
  }

  /** The counter is the nested holds and the pending threads, and is never zero. */
  ghost predicate EntryCounts(s: State, i: Index)
    requires i in s.entries
  {
    && s.entries[i].counter == Depth(s.entries[i].mutex) + |PendingThreads(s, i)|
    && s.entries[i].counter > 0
    && (s.entries[i].mutex.Held? ==> s.entries[i].mutex.depth > 0)
  }

  /** What a thread's holds say about the mutexes. */
  ghost predicate HoldAgrees(s: State, t: Thread, i: Index) {
    HoldCount(s, t, i) ==
    if i in s.entries && s.entries[i].mutex.Held? && s.entries[i].mutex.owner == t
    then s.entries[i].mutex.depth else 0
  }

  ghost predicate PointHolds(s: State, t: Thread)
    requires t in s.points
  {
    var p := s.points[t];
    && (InsideDatabase(p) <==> s.database == Held(t, 1))
    && (p.LockFirst? || p.LockLater? || p.LockWaiting? || p.UnlockReleased? ==> p.i in s.entries)
    && (p.LockFirst? && p.i in s.entries ==> s.entries[p.i].counter == 1)
    && (p.UnlockEntered? ==> HoldCount(s, t, p.i) > 0)
  }

  ghost predicate Inv(s: State) {
    && (s.database == Free || (s.database.owner in s.points && s.database.depth == 1))
    && (forall i {:trigger EntryCounts(s, i)} :: i in s.entries ==> EntryCounts(s, i))
    && (forall t, i {:trigger HoldAgrees(s, t, i)} :: HoldAgrees(s, t, i))
    && (forall t {:trigger PointHolds(s, t)} :: t in s.points ==> PointHolds(s, t))
    && (forall i {:trigger PendingThreads(s, i)} :: i !in s.entries ==> PendingThreads(s, i) == {})
  }

  lemma InitialInv(s: State)
    requires Initial(s)
    ensures Inv(s)
  {
    forall t, i
      ensures HoldAgrees(s, t, i)
    {
    }
  }

  /** What one thread's move to another point does to the number of pending threads. */
  lemma PendingAfter(s: State, s': State, t: Thread, p: Point, i: Index)
    requires t in s.points && s'.points == s.points[t := p]
    ensures |PendingThreads(s', i)| == |PendingThreads(s, i)|
              + (if Pending(p, i) && !Pending(s.points[t], i) then 1 else 0)
              - (if !Pending(p, i) && Pending(s.points[t], i) then 1 else 0)
  {
    var a, b := PendingThreads(s, i), PendingThreads(s', i);
    assert t in a <==> Pending(s.points[t], i);
    if Pending(p, i) {
      assert b == a + {t};
      OneMore(a, t);
    } else {
      assert b == a - {t};
      OneMore(b, t);
      assert t in a ==> a == b + {t};
      assert t !in a ==> a == b;
    }
  }

  lemma OneMore(a: set<Thread>, t: Thread)
    ensures |a + {t}| == |a| + if t in a then 0 else 1
  {
    if t in a {
      assert a + {t} == a;
    }
  }

  /** A holder's unlock finds its own mutex in its entry. */
  lemma HolderOwns(s: State, t: Thread, i: Index)
    requires Inv(s) && HoldCount(s, t, i) > 0
    ensures i in s.entries && s.entries[i].mutex.Held? && s.entries[i].mutex.owner == t && EntryCounts(s, i)
  {
    assert HoldAgrees(s, t, i);
  }

  lemma StepKeepsEntries(s: State, t: Thread, call: Call, i: Index)
    requires Inv(s) && Enabled(s, t, call) && i in Next(s, t, call).entries
    ensures EntryCounts(Next(s, t, call), i)
  {
    assert PointHolds(s, t);
    assert i in s.entries ==> EntryCounts(s, i);
    assert i !in s.entries ==> PendingThreads(s, i) == {};
    if s.points[t].UnlockEntered? {
      HolderOwns(s, t, s.points[t].i);
    }
    EntryStep(s, t, call, i, |PendingThreads(s, i)|);
  }

  /** One step on an entry and the number of pending threads. */
  lemma EntryStep(s: State, t: Thread, call: Call, i: Index, pending: nat)
    requires Enabled(s, t, call) && i in Next(s, t, call).entries && pending == |PendingThreads(s, i)|
    requires if i in s.entries then EntryCounts(s, i) else pending == 0
    requires (s.points[t].LockFirst? || s.points[t].LockWaiting? || s.points[t].UnlockReleased?) ==> s.points[t].i in s.entries
    requires s.points[t].UnlockEntered? ==> s.points[t].i in s.entries && s.entries[s.points[t].i].mutex.Held?
    ensures EntryCounts(Next(s, t, call), i)
  {
    var s' := Next(s, t, call);
    PendingAfter(s, s', t, s'.points[t], i);
  }

  lemma StepKeepsHolds(s: State, t: Thread, call: Call, u: Thread, i: Index)
    requires Inv(s) && Enabled(s, t, call)
    ensures HoldAgrees(Next(s, t, call), u, i)
  {
    assert PointHolds(s, t);
    assert HoldAgrees(s, u, i) && HoldAgrees(s, t, i);
    assert i in s.entries ==> EntryCounts(s, i);
    if s.points[t].UnlockEntered? {
      HolderOwns(s, t, s.points[t].i);
    }
    if s.points[t] == UnlockReleased(i) {
      assert t in PendingThreads(s, i);
      assert PendingThreads(s, i) != {};
    }
  }

  lemma StepKeepsOtherPoints(s: State, t: Thread, call: Call, u: Thread)
    requires Inv(s) && Enabled(s, t, call) && u in s.points && u != t
    ensures PointHolds(Next(s, t, call), u)
  {
    var p := s.points[u];
    assert PointHolds(s, t) && PointHolds(s, u);
    if p.UnlockEntered? { assert HoldAgrees(s, u, p.i); }
    if s.points[t].UnlockReleased? && p.LockWaiting? && p.i == s.points[t].i {
      var i := p.i;
      assert EntryCounts(s, i);
      assert {t, u} <= PendingThreads(s, i);
      TwoPending(PendingThreads(s, i), t, u);
    }
  }

  lemma TwoPending(s: set<Thread>, t: Thread, u: Thread)
    requires t in s && u in s && t != u
    ensures |s| >= 2
  {
    assert u in s - {t};
    assert |s - {t}| == |s| - 1;
    assert |s - {t}| > 0;
  }

  lemma StepKeepsOwnPoint(s: State, t: Thread, call: Call)
    requires Inv(s) && Enabled(s, t, call)
    ensures PointHolds(Next(s, t, call), t)
  {
    assert PointHolds(s, t);
    var p := s.points[t];
    if p.LockEntered? && p.i in s.entries {
      assert EntryCounts(s, p.i);
    }
    if p.UnlockEntered? { HolderOwns(s, t, p.i); }
    if p.Outside? && call.Unlock? { HolderOwns(s, t, call.i); }
  }

  lemma StepKeepsAbsent(s: State, t: Thread, call: Call, i: Index)
    requires Inv(s) && Enabled(s, t, call) && i !in Next(s, t, call).entries
    ensures PendingThreads(Next(s, t, call), i) == {}
  {
    assert PointHolds(s, t);
    assert i in s.entries ==> EntryCounts(s, i);
    assert i !in s.entries ==> PendingThreads(s, i) == {};
    AbsentStep(s, t, call, i, |PendingThreads(s, i)|);
    assert |PendingThreads(Next(s, t, call), i)| == 0;
  }

  lemma AbsentStep(s: State, t: Thread, call: Call, i: Index, pending: nat)
    requires Enabled(s, t, call) && i !in Next(s, t, call).entries && pending == |PendingThreads(s, i)|
    requires if i in s.entries then EntryCounts(s, i) else pending == 0
    requires (s.points[t].LockLater? || s.points[t].LockWaiting?) ==> s.points[t].i in s.entries
    ensures |PendingThreads(Next(s, t, call), i)| == 0
  {
    var s' := Next(s, t, call);
    PendingAfter(s, s', t, s'.points[t], i);
  }

  /** Every step of every thread keeps the invariant. */
  lemma StepKeepsInv(s: State, t: Thread, call: Call)
    requires Inv(s) && Enabled(s, t, call)
    ensures Inv(Next(s, t, call))
  {
    var s' := Next(s, t, call);
    assert PointHolds(s, t);
    forall i | i in s'.entries
      ensures EntryCounts(s', i)
    {
      StepKeepsEntries(s, t, call, i);
    }
    forall u, i
      ensures HoldAgrees(s', u, i)
    {
      StepKeepsHolds(s, t, call, u, i);
    }
    forall u | u in s'.points
      ensures PointHolds(s', u)
    {
      if u == t { StepKeepsOwnPoint(s, t, call); } else { StepKeepsOtherPoints(s, t, call, u); }
    }
    forall i | i !in s'.entries
      ensures PendingThreads(s', i) == {}
    {
      StepKeepsAbsent(s, t, call, i);
    }
  }

  lemma {:induction false} RunKeepsInv(states: seq<State>, actions: seq<Action>, n: nat)
    requires Run(states, actions) && n < |states|
    ensures Inv(states[n])
  {
    if n == 0 {
      InitialInv(states[0]);
    } else {
      RunKeepsInv(states, actions, n - 1);
      assert StepAt(states, actions, n - 1);
      StepKeepsInv(states[n - 1], actions[n - 1].t, actions[n - 1].call);
    }
  }

  /** In every interleaving: at most one thread holds an index; the counter is the holder's nested
      holds and the pending threads; there is no entry exactly when nobody holds or is pending. */
  lemma LockSafety(states: seq<State>, actions: seq<Action>, n: nat, i: Index, t: Thread, u: Thread)
    requires Run(states, actions) && n < |states|
    ensures var s := states[n];
            && (HoldCount(s, t, i) > 0 && HoldCount(s, u, i) > 0 ==> t == u)
            && (HoldCount(s, t, i) > 0 ==>
                  i in s.entries && s.entries[i].counter == HoldCount(s, t, i) + |PendingThreads(s, i)|)
            && (i !in s.entries <==> PendingThreads(s, i) == {} && forall v :: HoldCount(s, v, i) == 0)
  {
    RunKeepsInv(states, actions, n);
    var s := states[n];
    assert HoldAgrees(s, t, i) && HoldAgrees(s, u, i);
    assert i in s.entries ==> EntryCounts(s, i);
    if i !in s.entries {
      forall v
        ensures HoldCount(s, v, i) == 0
      {
        assert HoldAgrees(s, v, i);
      }
    } else if s.entries[i].mutex.Held? {
      assert HoldAgrees(s, s.entries[i].mutex.owner, i);
    }
  }

  /** No thread ever blocks while it is inside the database mutex: its next step is enabled. So
      whoever waits for the database mutex waits only for threads that can go on. */
  lemma NeverBlocksInside(states: seq<State>, actions: seq<Action>, n: nat, t: Thread, call: Call)
    requires Run(states, actions) && n < |states| && t in states[n].points
    requires InsideDatabase(states[n].points[t])
    ensures Enabled(states[n], t, call)
  {
    RunKeepsInv(states, actions, n);
    var s := states[n];
    assert PointHolds(s, t);
    if s.points[t].LockFirst? {
      var i := s.points[t].i;
      assert EntryCounts(s, i);
      assert t in PendingThreads(s, i);
      assert |PendingThreads(s, i)| > 0;
    }
  }

  /** An entry disappears only in the last step of an `unlock`, and then nobody holds it or is
      pending on it. */
  lemma EraseOnlyUnused(states: seq<State>, actions: seq<Action>, n: nat, i: Index, v: Thread)
    requires Run(states, actions) && n < |actions|
    requires i in states[n].entries && i !in states[n + 1].entries
    ensures actions[n].t in states[n].points && states[n].points[actions[n].t] == UnlockReleased(i)
    ensures PendingThreads(states[n], i) == {actions[n].t} && HoldCount(states[n], v, i) == 0
  {
    RunKeepsInv(states, actions, n);
    var s, t := states[n], actions[n].t;
    assert StepAt(states, actions, n);
    assert PointHolds(s, t) && EntryCounts(s, i) && HoldAgrees(s, v, i);
    assert t in PendingThreads(s, i);
    forall u | u in PendingThreads(s, i)
      ensures u == t
    {
      if u != t { TwoPending(PendingThreads(s, i), t, u); }
    }
  }

  // ----- what a call waits for, and what it has done when it returns

  /** A thread that waits for an index goes on exactly when no other thread holds the index; that it
      holds the index itself does not matter. */
  lemma WaitsForHolders(states: seq<State>, actions: seq<Action>, n: nat, t: Thread, i: Index, call: Call)
    requires Run(states, actions) && n < |states| && t in states[n].points && states[n].points[t] == LockWaiting(i)
    ensures Enabled(states[n], t, call) <==> forall u {:trigger HoldCount(states[n], u, i)} :: u != t ==> HoldCount(states[n], u, i) == 0
  {
    RunKeepsInv(states, actions, n);
    var s := states[n];
    assert PointHolds(s, t) && EntryCounts(s, i);
    forall u | u != t
      ensures HoldCount(s, u, i) == if s.entries[i].mutex.Held? && s.entries[i].mutex.owner == u then s.entries[i].mutex.depth else 0
    {
      assert HoldAgrees(s, u, i);
    }
    if s.entries[i].mutex.Held? {
      assert HoldCount(s, s.entries[i].mutex.owner, i) > 0 by { assert HoldAgrees(s, s.entries[i].mutex.owner, i); }
    }
  }

  /** A thread outside can call `lock` exactly when no other thread is inside the database mutex, and
      `unlock` when it holds the index besides. */
  lemma WaitsForDatabase(states: seq<State>, actions: seq<Action>, n: nat, t: Thread, call: Call)
    requires Run(states, actions) && n < |states| && t in states[n].points && states[n].points[t] == Outside
    ensures Enabled(states[n], t, call) <==>
              && (forall u :: u in states[n].points && u != t ==> !InsideDatabase(states[n].points[u]))
              && (call.Unlock? ==> HoldCount(states[n], t, call.i) > 0)
  {
    RunKeepsInv(states, actions, n);
    var s := states[n];
    forall u | u in s.points
      ensures InsideDatabase(s.points[u]) <==> s.database == Held(u, 1)
    {
      assert PointHolds(s, u);
    }
  }

  function Change(call: Call, i: Index): int {
    match call
    case Lock(j) => if j == i then 1 else 0
    case Unlock(j) => if j == i then -1 else 0
  }

  /** The thread stands in the call, or has left it. */
  predicate Within(p: Point, call: Call) {
    match p
    case Outside => true
    case Leaving => true
    case UnlockEntered(i) => call == Unlock(i)
    case UnlockReleased(i) => call == Unlock(i)
    case _ => call == Lock(p.i)
  }

  /** What the call does to the holds is done. */
  predicate Done(p: Point) {
    p.Outside? || p.Leaving? || p.UnlockReleased?
  }

  lemma CallStep(s: State, t: Thread, call: Call, u: Thread, own: Call, i: Index)
    requires Inv(s) && Enabled(s, t, call) && u in s.points && (u == t ==> s.points[u] != Outside) && Within(s.points[u], own)
    ensures var s' := Next(s, t, call);
            && u in s'.points && Within(s'.points[u], own)
            && HoldCount(s', u, i) - HoldCount(s, u, i)
               == (if Done(s'.points[u]) then Change(own, i) else 0) - (if Done(s.points[u]) then Change(own, i) else 0)
  {
    assert PointHolds(s, t);
  }

  lemma {:induction false} CallUnderway(states: seq<State>, actions: seq<Action>, n: nat, m: nat, i: Index)
    requires Run(states, actions) && n < m < |states|
    requires var t := actions[n].t;
             && t in states[n].points && states[n].points[t] == Outside
             && forall k {:trigger states[k]} :: n < k < m ==> t in states[k].points && states[k].points[t] != Outside
    ensures var t, call := actions[n].t, actions[n].call;
            && t in states[m].points && Within(states[m].points[t], call)
            && HoldCount(states[m], t, i) == HoldCount(states[n], t, i) + if Done(states[m].points[t]) then Change(call, i) else 0
    decreases m
  {
    assert StepAt(states, actions, m - 1);
    if n < m - 1 {
      CallUnderway(states, actions, n, m - 1, i);
      RunKeepsInv(states, actions, m - 1);
      CallStep(states[m - 1], actions[m - 1].t, actions[m - 1].call, actions[n].t, actions[n].call, i);
    }
  }

  /** In every interleaving, a thread that has called `lock(i)` holds i once more when it is outside again,
      one that has called `unlock(i)` once less, and no other index more or less often than before. */
  lemma CallDone(states: seq<State>, actions: seq<Action>, n: nat, m: nat, i: Index)
    requires Run(states, actions) && n < m < |states|
    requires var t := actions[n].t;
             && t in states[n].points && states[n].points[t] == Outside
             && t in states[m].points && states[m].points[t] == Outside
             && forall k {:trigger states[k]} :: n < k < m ==> t in states[k].points && states[k].points[t] != Outside
    ensures var t := actions[n].t;
            HoldCount(states[m], t, i) == HoldCount(states[n], t, i)
                                          + if actions[n].call == Lock(i) then 1 else if actions[n].call == Unlock(i) then -1 else 0
  {
    CallUnderway(states, actions, n, m, i);
  }

  /** Where the first call for an index stands: it has not left the database mutex. */
  predicate FirstIn(p: Point, i: Index) {
    p == LockEntered(i) || p == LockFirst(i) || p == Leaving || p == Outside
  }

  /** A call for an index that nobody holds or waits for holds it without ever leaving the database mutex. */
  lemma {:induction false} UnusedAtOnce(states: seq<State>, actions: seq<Action>, n: nat, m: nat, t: Thread, i: Index)
    requires Run(states, actions) && n <= m < |states|
    requires t in states[n].points && states[n].points[t] == LockEntered(i) && i !in states[n].entries
    requires forall k {:trigger states[k]} :: n <= k < m ==> t in states[k].points && states[k].points[t] != Outside
    ensures t in states[m].points && FirstIn(states[m].points[t], i)
    ensures states[m].points[t] == LockEntered(i) ==> i !in states[m].entries
    decreases m
  {
    if n < m {
      UnusedAtOnce(states, actions, n, m - 1, t, i);
      RunKeepsInv(states, actions, m - 1);
      assert StepAt(states, actions, m - 1);
      var s, u := states[m - 1], actions[m - 1].t;
      assert PointHolds(s, t) && PointHolds(s, u);
    }
  }
}
