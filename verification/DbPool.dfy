/** The database connection pool: a free list and a count under one mutex, a condition variable
    for those who find nothing free. */
module DbPool {

  const MIN_DB_CONN_CNT: nat := 2

  function Max(a: nat, b: nat): nat {
    if a < b then b else a
  }

  type Conn = nat
  type Thread = nat

  // ---- the pool under its mutex ----

  // made numbers the next connection made
  datatype Pool = Pool(free: seq<Conn>, cur: nat, max: nat, made: Conn)

  datatype Got = Lent(conn: Conn) | Wait | Failed

  // One stay of GetDBConn under the mutex: until it has a connection, must wait, or gives up
  function Get(p: Pool, initOk: bool): (Pool, Got) {
    if p.free != [] then (p.(free := p.free[1..]), Lent(p.free[0]))
    else if p.cur >= p.max then (p, Wait)
    else if !initOk then (p.(made := p.made + 1), Failed)
    else (p.(cur := p.cur + 1, made := p.made + 1), Lent(p.made))
  }

  function Release(p: Pool, c: Conn): Pool {
    if c in p.free then p else p.(free := p.free + [c])
  }

  // ---- the protocol ----

  datatype State = State(
    pool: Pool,
    lent: map<Conn, Thread>,   // who holds what
    waiting: set<Thread>,      // in wait, not notified
    notified: set<Thread>      // notified, but not yet back under the mutex
  )

  datatype Step =
    | Enter(t: Thread, initOk: bool)   // a call of GetDBConn
    | Resume(t: Thread, initOk: bool)  // a waiter back under the mutex, notified or not
    | Return(t: Thread, c: Conn, n: Thread)  // ReleaseDBConn; notify_one picks n if anyone waits

  // Callers release only what they hold; a thread in wait makes no other call
  predicate Enabled(s: State, step: Step) {
    match step
    case Enter(t, _) => t !in s.waiting && t !in s.notified
    case Resume(t, _) => t in s.waiting || t in s.notified
    case Return(t, c, n) =>
      t !in s.waiting && t !in s.notified && c in s.lent && s.lent[c] == t && (s.waiting != {} ==> n in s.waiting)
  }

  function Next(s: State, step: Step): State
    requires Enabled(s, step)
  {
    match step
    case Enter(t, initOk) => Served(s, t, initOk)
    case Resume(t, initOk) => Served(s.(waiting := s.waiting - {t}, notified := s.notified - {t}), t, initOk)
    case Return(t, c, n) =>
      var r := s.(pool := Release(s.pool, c), lent := s.lent - {c});
      if s.waiting == {} then r else r.(waiting := s.waiting - {n}, notified := s.notified + {n})
  }

  function Served(s: State, t: Thread, initOk: bool): State {
    var (p, got) := Get(s.pool, initOk);
    match got
    case Lent(c) => s.(pool := p, lent := s.lent[c := t])
    case Wait => s.(pool := p, waiting := s.waiting + {t})
    case Failed => s.(pool := p)
  }

  predicate Follows(s: State, steps: seq<Step>)
    decreases |steps|
  {
    steps == [] || (Enabled(s, steps[0]) && Follows(Next(s, steps[0]), steps[1..]))
  }

  function Run(s: State, steps: seq<Step>): State
    requires Follows(s, steps)
    decreases |steps|
  {
    if steps == [] then s else Run(Next(s, steps[0]), steps[1..])
  }

  // After Init: two connections, both free
  function Initial(max: nat): State {
    State(Pool([0, 1], MIN_DB_CONN_CNT, max, 2), map[], {}, {})
  }

  predicate NoDup(s: seq<Conn>) {
    forall i, j :: 0 <= i < j < |s| ==> s[i] != s[j]
  }

  // Every connection made is free once or lent once
  predicate Conserved(s: State) {
    && NoDup(s.pool.free)
    && (forall c :: c in s.lent ==> c !in s.pool.free && c < s.pool.made)
    && (forall i :: 0 <= i < |s.pool.free| ==> s.pool.free[i] < s.pool.made)
    && |s.pool.free| + |s.lent| == s.pool.cur <= Max(MIN_DB_CONN_CNT, s.pool.max)
  }

  // Whoever is left waiting is right to
  predicate Awake(s: State) {
    && s.waiting !! s.notified
    && (s.waiting + s.notified != {} ==> s.pool.cur >= s.pool.max)
    && (s.waiting != {} ==> |s.pool.free| <= |s.notified|)
  }

  lemma LentMore(m: map<Conn, Thread>, c: Conn, t: Thread)
    requires c !in m
    ensures |m[c := t]| == |m| + 1
  {
    assert m[c := t].Keys == m.Keys + {c};
  }

  lemma LentLess(m: map<Conn, Thread>, c: Conn)
    requires c in m
    ensures |m - {c}| == |m| - 1
  {
    assert (m - {c}).Keys == m.Keys - {c};
  }

  lemma ServedConserved(s: State, t: Thread, initOk: bool)
    requires Conserved(s)
    ensures Conserved(Served(s, t, initOk))
  {
    var (p, got) := Get(s.pool, initOk);
    if got.Lent? {
      LentMore(s.lent, got.conn, t);
      assert s.pool.free != [] ==> got.conn == s.pool.free[0] && got.conn !in s.pool.free[1..];
    }
  }

  lemma ReleaseConserved(s: State, c: Conn)
    requires Conserved(s) && c in s.lent
    ensures Conserved(s.(pool := Release(s.pool, c), lent := s.lent - {c}))
  {
    LentLess(s.lent, c);
  }

  lemma StepConserved(s: State, step: Step)
    requires Conserved(s) && Enabled(s, step)
    ensures Conserved(Next(s, step))
  {
    hide Served;
    match step
    case Enter(t, initOk) => ServedConserved(s, t, initOk);
    case Resume(t, initOk) => ServedConserved(s.(waiting := s.waiting - {t}, notified := s.notified - {t}), t, initOk);
    case Return(t, c, n) => ReleaseConserved(s, c);
  }

  // A thread not counted as waiting is served; the one that left the notified took one with it
  lemma ServedAwake(s: State, t: Thread, initOk: bool, left: nat)
    requires t !in s.waiting && t !in s.notified && left <= 1
    requires s.waiting !! s.notified && (s.waiting + s.notified != {} ==> s.pool.cur >= s.pool.max)
    requires s.waiting != {} ==> |s.pool.free| <= |s.notified| + left
    requires left == 1 ==> s.pool.cur >= s.pool.max
    ensures Awake(Served(s, t, initOk))
  {
  }

  lemma ResumeAwake(s: State, t: Thread, initOk: bool)
    requires Awake(s) && (t in s.waiting || t in s.notified)
    ensures Awake(Served(s.(waiting := s.waiting - {t}, notified := s.notified - {t}), t, initOk))
  {
    hide Served;
    var r := s.(waiting := s.waiting - {t}, notified := s.notified - {t});
    assert t in s.notified ==> |r.notified| == |s.notified| - 1;
    assert t !in s.notified ==> r.notified == s.notified;
    ServedAwake(r, t, initOk, if t in s.notified then 1 else 0);
  }

  lemma ReturnAwake(s: State, c: Conn, n: Thread)
    requires Awake(s) && (s.waiting != {} ==> n in s.waiting)
    ensures var r := s.(pool := Release(s.pool, c), lent := s.lent - {c});
            Awake(if s.waiting == {} then r else r.(waiting := s.waiting - {n}, notified := s.notified + {n}))
  {
    if s.waiting != {} {
      assert |s.notified + {n}| == |s.notified| + 1;
    }
  }

  lemma StepAwake(s: State, step: Step)
    requires Awake(s) && Enabled(s, step)
    ensures Awake(Next(s, step))
  {
    hide Served, Release;
    match step
    case Enter(t, initOk) => ServedAwake(s, t, initOk, 0);
    case Resume(t, initOk) => ResumeAwake(s, t, initOk);
    case Return(t, c, n) => ReturnAwake(s, c, n);
  }

  /** Over every interleaving of callers who release only what they hold: no connection is free
      twice, or free and lent; all that were made are accounted for and within the limit; and
      somebody waits un-notified only while each free connection has a notified waiter coming. */
  lemma {:induction false} PoolSafe(s: State, steps: seq<Step>)
    requires Conserved(s) && Awake(s) && Follows(s, steps)
    ensures Conserved(Run(s, steps)) && Awake(Run(s, steps))
    decreases |steps|
  {
    if steps != [] {
      StepConserved(s, steps[0]);
      StepAwake(s, steps[0]);
      PoolSafe(Next(s, steps[0]), steps[1..]);
    }
  }

  /** No lost wakeup: from the start, whatever happens, if somebody waits and no notification is
      on its way, then every connection is lent, and somebody will release one. */
  lemma NoLostWakeup(max: nat, steps: seq<Step>)
    requires Follows(Initial(max), steps)
    ensures var s := Run(Initial(max), steps);
            && Conserved(s)
            && (s.waiting != {} && s.notified == {} ==>
                  s.pool.free == [] && |s.lent| == s.pool.cur >= Max(MIN_DB_CONN_CNT, max))
  {
    PoolSafe(Initial(max), steps);
    CountKept(Initial(max), steps);
  }

  // The limit is a constant, and connections are never given up
  lemma {:induction false} CountKept(s: State, steps: seq<Step>)
    requires Follows(s, steps)
    ensures Run(s, steps).pool.max == s.pool.max && Run(s, steps).pool.cur >= s.pool.cur
    decreases |steps|
  {
    if steps != [] { CountKept(Next(s, steps[0]), steps[1..]); }
  }

  // ---- what a call comes to ----

  // t goes on with one more connection, and nobody else is affected
  predicate Serves(s: State, n: State, t: Thread, c: Conn) {
    && c !in s.lent && n.lent == s.lent[c := t]
    && n.waiting == s.waiting - {t} && n.notified == s.notified - {t}
  }

  // t goes on with nothing
  predicate Refuses(s: State, n: State, t: Thread) {
    n.lent == s.lent && n.waiting == s.waiting - {t} && n.notified == s.notified - {t} && n.pool.cur == s.pool.cur
  }

  /** A call, or a waiter back from its wait, ends in one of three ways: it waits exactly if every
      connection is lent and the limit is reached, it fails exactly if every connection is lent, the
      limit is not reached and no further connection can be made, and otherwise it has a connection
      that nobody had: the one longest free, or else a new one. */
  lemma CallEnds(s: State, step: Step)
    requires Conserved(s) && Enabled(s, step) && !step.Return?
    ensures var n, t := Next(s, step), step.t;
      if |s.lent| < s.pool.cur then s.pool.free != [] && Serves(s, n, t, s.pool.free[0]) && n.pool.cur == s.pool.cur
      else if s.pool.cur >= s.pool.max then
        n.lent == s.lent && n.waiting == s.waiting + {t} && n.notified == s.notified - {t} && n.pool == s.pool
      else if step.initOk then Serves(s, n, t, s.pool.made) && n.pool.cur == s.pool.cur + 1
      else Refuses(s, n, t)
  {
    assert |s.lent| < s.pool.cur <==> s.pool.free != [];
    if step.Enter? {
      assert s.waiting == s.waiting - {step.t} && s.notified == s.notified - {step.t};
    } else {
      assert s.waiting - {step.t} + {step.t} == s.waiting + {step.t};
    }
  }

  /** A connection given back is the last to be lent again, and exactly one waiter is notified if
      there is any. */
  lemma ReturnEnds(s: State, step: Step)
    requires Conserved(s) && Enabled(s, step) && step.Return?
    ensures var n := Next(s, step);
      && n.pool.free == s.pool.free + [step.c] && n.lent == s.lent - {step.c} && n.pool.cur == s.pool.cur
      && n.waiting + n.notified == s.waiting + s.notified
      && |n.waiting| == (if s.waiting == {} then 0 else |s.waiting| - 1)
  {
    if s.waiting != {} { assert s.waiting - {step.n} + {step.n} == s.waiting; }
  }

  function Calls(ts: seq<Thread>): seq<Step> { seq(|ts|, i requires 0 <= i < |ts| => Enter(ts[i], true)) }

  /** The pool grows to its limit: of any threads that call one after another the first
      max(2, maxDbConnCnt_) each get a connection, and the others wait. */
  lemma {:induction false} PoolGrows(s: State, ts: seq<Thread>)
    requires Conserved(s) && NoDup(ts) && forall t :: t in ts ==> t !in s.waiting && t !in s.notified
    requires s.pool.cur >= MIN_DB_CONN_CNT
    ensures Follows(s, Calls(ts))
    ensures var n, limit := Run(s, Calls(ts)), Max(MIN_DB_CONN_CNT, s.pool.max);
      && |n.lent| == (if |s.lent| + |ts| <= limit then |s.lent| + |ts| else limit)
      && |n.lent| + |n.waiting| == |s.lent| + |s.waiting| + |ts|
    decreases |ts|
  {
    if ts == [] {
      LentFits(s);
    } else {
      var step, rest := Enter(ts[0], true), ts[1..];
      assert Calls(ts)[0] == step && Calls(ts)[1..] == Calls(rest);
      var n := Next(s, step);
      StepConserved(s, step);
      CallEnds(s, step);
      LentFits(s);
      OneCall(s, ts[0]);
      assert forall t :: t in rest ==> t in ts && t != ts[0];
      hide Conserved, Next, Enabled;
      PoolGrows(n, rest);
    }
  }

  lemma LentFits(s: State)
    requires Conserved(s)
    ensures |s.lent| <= s.pool.cur <= Max(MIN_DB_CONN_CNT, s.pool.max)
  {}

  // One thread more holds a connection, or waits
  lemma OneCall(s: State, t: Thread)
    requires Conserved(s) && t !in s.waiting && t !in s.notified && s.pool.cur >= MIN_DB_CONN_CNT
    ensures var n := Next(s, Enter(t, true));
      && n.pool.cur >= MIN_DB_CONN_CNT && n.pool.max == s.pool.max && n.notified == s.notified
      && n.waiting <= s.waiting + {t}
      && (if |s.lent| < Max(MIN_DB_CONN_CNT, s.pool.max) then |n.lent| == |s.lent| + 1 && n.waiting == s.waiting
          else n.lent == s.lent && |n.waiting| == |s.waiting| + 1)
  {
    var step := Enter(t, true);
    var n := Next(s, step);
    CallEnds(s, step);
    hide Next;
    if |s.lent| < s.pool.cur {
      LentMore(s.lent, s.pool.free[0], t);
    } else if s.pool.cur < s.pool.max {
      LentMore(s.lent, s.pool.made, t);
    }
  }

  // ---- the class ----

  class DBPool {
    var freeList: seq<Conn>
    var curDbConnCnt: nat
    const maxDbConnCnt: nat
    ghost var made: nat

    ghost function View(): Pool
      reads this
    {
      Pool(freeList, curDbConnCnt, maxDbConnCnt, made)
    }

    constructor (maxConnCnt: nat)
      ensures View() == Pool([], MIN_DB_CONN_CNT, maxConnCnt, 0)
    {
      freeList, curDbConnCnt, maxDbConnCnt, made := [], MIN_DB_CONN_CNT, maxConnCnt, 0;
    }

    // rets are the answers of the first connections' own Init, 0 for success
    method Init(rets: seq<int>) returns (ret: int)
      requires View() == Pool([], MIN_DB_CONN_CNT, maxDbConnCnt, 0) && |rets| == MIN_DB_CONN_CNT
      modifies this
      ensures ret == 0 <==> (forall i :: 0 <= i < |rets| ==> rets[i] == 0)
      ensures ret == 0 ==> View() == Initial(maxDbConnCnt).pool
      ensures ret != 0 ==> |freeList| < |rets| && rets[|freeList|] == ret
    {
      for i := 0 to curDbConnCnt
        invariant View() == Pool(freeList, MIN_DB_CONN_CNT, maxDbConnCnt, i) && |freeList| == i
        invariant forall k :: 0 <= k < i ==> rets[k] == 0 && freeList[k] == k
      {
        made := made + 1;
        if rets[i] != 0 { return rets[i]; }
        freeList := freeList + [i];
      }
      assert freeList == [0, 1];
      return 0;
    }

    // GetDBConn up to its return or its wait, with the answer of a connection's Init and its name
    method GetDBConn(initOk: bool, conn: Conn) returns (got: Got)
      requires conn == made
      modifies this
      ensures (View(), got) == Get(old(View()), initOk)
      // the connection longest free, if one is
      ensures old(freeList) != [] ==>
                got == Lent(old(freeList)[0]) && freeList == old(freeList)[1..] && curDbConnCnt == old(curDbConnCnt)
      // a new one below the limit, if it can be made
      ensures old(freeList) == [] && old(curDbConnCnt) < maxDbConnCnt && initOk ==>
                got == Lent(conn) && freeList == [] && curDbConnCnt == old(curDbConnCnt) + 1
      ensures got.Failed? <==> old(freeList) == [] && old(curDbConnCnt) < maxDbConnCnt && !initOk
      ensures got.Wait? <==> old(freeList) == [] && old(curDbConnCnt) >= maxDbConnCnt
      ensures !got.Lent? ==> freeList == [] && curDbConnCnt == old(curDbConnCnt)
    {
      while freeList == []
        invariant freeList == [] ==> View() == old(View())
        invariant freeList != [] && old(freeList) != [] ==> View() == old(View())
        invariant freeList != [] && old(freeList) == [] ==>
                    old(curDbConnCnt) < maxDbConnCnt && initOk
                    && View() == Pool([conn], old(curDbConnCnt) + 1, maxDbConnCnt, old(made) + 1)
        decreases |freeList| == 0
      {
        if curDbConnCnt >= maxDbConnCnt { return Wait; }
        made := made + 1;
        if !initOk { return Failed; }
        freeList := freeList + [conn];
        curDbConnCnt := curDbConnCnt + 1;
      }
      assert freeList == [conn] ==> freeList[1..] == [];
      got := Lent(freeList[0]);
      freeList := freeList[1..];
    }

    method ReleaseDBConn(conn: Conn)
      modifies `freeList
      ensures View() == Release(old(View()), conn)
      ensures freeList == if conn in old(freeList) then old(freeList) else old(freeList) + [conn]
    {
      var it: nat := 0;
      while it < |freeList|
        invariant it <= |freeList| && conn !in freeList[..it]
      {
        if freeList[it] == conn { break; }
        it := it + 1;
      }
      if it == |freeList| {
        assert freeList[..it] == freeList;
        freeList := freeList + [conn];
      }
    }
  }
}
