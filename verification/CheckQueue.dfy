/** The parallel check queue: a master and any number of workers over one mutex and two condition
    variables. Each critical section of `Loop` and `Add` is one atomic step; any interleaving and
    any spurious wake-up is allowed. A check is represented by the boolean it returns. */
module CheckQueue {
  import opened Sums
  import Limbs

  const MASTER: nat := 0

  /** Where a thread stands between critical sections. */
  datatype Thread =
    | Out                                // not inside Loop
    | Asleep                             // waiting, not notified
    | Woken                              // notified, about to re-enter the critical section
    | Busy(batch: seq<bool>, ok: bool)   // running a batch; `ok` is fAllOk as it was when taken

  datatype State = State(
    queue: seq<bool>, nIdle: int, nTotal: int, allOk: bool, nTodo: int,
    threads: map<nat, Thread>,
    added: seq<bool>)                    // history: the checks added since the last Wait returned

  predicate AllTrue(s: seq<bool>) { forall i | 0 <= i < |s| :: s[i] }

  function Min(a: int, b: int): int { if a < b then a else b }
  function Max(a: int, b: int): int { if a < b then b else a }

  /** max(1, min(nBatchSize, size / (nTotal + nIdle + 1))) */
  function BatchSize(cap: nat, size: nat, total: int, idle: int): int
    requires total >= 0 && idle >= 0
  {
    Max(1, Min(cap, size / (total + idle + 1)))
  }

  lemma BatchFits(cap: nat, size: nat, total: int, idle: int)
    requires total >= 0 && idle >= 0 && size > 0
    ensures 1 <= BatchSize(cap, size, total, idle) <= size
  {
    var d := total + idle + 1;
    assert size / d <= size by { DivLe(size, d); }
  }

  /** A batch is an even share of the queue among the threads, no more than the cap, and never empty: the largest
      number of those two kinds, unless that is zero. */
  lemma BatchShare(cap: nat, size: nat, total: int, idle: int, n: nat)
    requires total >= 0 && idle >= 0 && n > 0
    ensures n <= BatchSize(cap, size, total, idle) <==> n == 1 || (n <= cap && n * (total + idle + 1) <= size)
  {
    Shares(size, total + idle + 1, n);
  }

  lemma Shares(size: nat, d: int, n: nat)
    requires d > 0
    ensures n <= size / d <==> n * d <= size
  {
    var q, r := size / d, size % d;
    assert size == q * d + r;
    assert (q + 1) * d == q * d + d;
    if n <= q { Limbs.MulLe(n, q, d); } else { Limbs.MulLe(q + 1, n, d); }
  }

  lemma DivLe(a: nat, d: int)
    requires d >= 1
    ensures a / d <= a
  {
    Limbs.MulLe(1, d, a / d);
  }

  function Reversed(s: seq<bool>): (r: seq<bool>)
    ensures |r| == |s| && (AllTrue(r) <==> AllTrue(s))
  {
    var r := seq(|s|, i requires 0 <= i < |s| => s[|s| - 1 - i]);
    assert AllTrue(r) ==> AllTrue(s) by {
      assert forall i | 0 <= i < |s| :: s[i] == r[|s| - 1 - i];
    }
    r
  }

  /** The inner loop of a critical section, from `while (queue.empty())` on. The second component
      is the thread's next place, the third what Wait returns. */
  function LoopHead(cap: nat, s: State, t: nat): (State, Thread, seq<bool>)
    requires s.nTotal >= 0 && s.nIdle >= 0
  {
    if s.queue == [] then
      if t == MASTER && s.nTodo == 0 then
        (s.(nTotal := s.nTotal - 1, allOk := true, added := []), Out, [s.allOk])
      else
        (s.(nIdle := s.nIdle + 1), Asleep, [])
    else
      BatchFits(cap, |s.queue|, s.nTotal, s.nIdle);
      var n := BatchSize(cap, |s.queue|, s.nTotal, s.nIdle);
      var rest := |s.queue| - n;
      (s.(queue := s.queue[..rest]), Busy(Reversed(s.queue[rest..]), s.allOk), [])
  }

  /** The swap loop that moves jobs from the back of the queue to the local batch. */
  method TakeBatch(queue: seq<bool>, n: nat) returns (rest: seq<bool>, batch: seq<bool>)
    requires n <= |queue|
    ensures rest == queue[..|queue| - n] && batch == Reversed(queue[|queue| - n..])
  {
    rest, batch := queue, [];
    for i := 0 to n
      invariant rest == queue[..|queue| - i] && |batch| == i
      invariant forall j | 0 <= j < i :: batch[j] == queue[|queue| - 1 - j]
    {
      batch := batch + [rest[|rest| - 1]];
      rest := rest[..|rest| - 1];
    }
  }

  /** Running a batch: after a failure the remaining checks are skipped. */
  method RunBatch(batch: seq<bool>, ok: bool) returns (r: bool)
    ensures r == (ok && AllTrue(batch))
  {
    r := ok;
    for i := 0 to |batch|
      invariant r == (ok && AllTrue(batch[..i]))
    {
      assert batch[..i + 1] == batch[..i] + [batch[i]];
      if r { r := batch[i]; }
    }
    assert batch[..|batch|] == batch;
  }

  datatype Event =
    | Enter(t: nat)                       // a thread calls Loop
    | Finish(t: nat)                      // a batch is done; the next critical section
    | Wake(t: nat)                        // a wait returns, by notification or spuriously
    | Add(checks: seq<bool>, notified: nat)

  predicate Enabled(s: State, e: Event) {
    match e
    case Enter(t) => t in s.threads && s.threads[t].Out?
    case Finish(t) => t in s.threads && s.threads[t].Busy?
    case Wake(t) => t in s.threads && (s.threads[t].Asleep? || s.threads[t].Woken?)
    case Add(checks, one) => MASTER in s.threads && s.threads[MASTER].Out? && (|checks| == 1 ==> OneNotified(s, one))
  }

  /** Notifying one thread reaches a waiting worker if there is one. */
  predicate OneNotified(s: State, one: nat) {
    WorkerAsleep(s) ==> one in s.threads && one != MASTER && s.threads[one].Asleep?
  }

  predicate WorkerAsleep(s: State) { exists k | k in s.threads :: k != MASTER && s.threads[k].Asleep? }
  predicate WorkerAwake(s: State) {
    exists k | k in s.threads :: k != MASTER && !s.threads[k].Asleep? && !s.threads[k].Out?
  }

  function Notified(t: Thread): Thread { if t.Asleep? then Woken else t }

  function NotifyWorkers(threads: map<nat, Thread>, all: bool, one: nat): map<nat, Thread> {
    map k | k in threads :: if k != MASTER && (all || k == one) then Notified(threads[k]) else threads[k]
  }

  function NotifyMaster(threads: map<nat, Thread>): map<nat, Thread> {
    if MASTER in threads then threads[MASTER := Notified(threads[MASTER])] else threads
  }

  /** The clean-up at the start of a critical section. */
  function Prologue(s: State, e: Event): State
    requires Enabled(s, e) && !e.Add?
  {
    match e
    case Enter(t) => s.(nTotal := s.nTotal + 1)
    case Wake(t) => s.(nIdle := s.nIdle - 1)
    case Finish(t) =>
      var b := s.threads[t];
      var s1 := s.(allOk := s.allOk && b.ok && AllTrue(b.batch), nTodo := s.nTodo - |b.batch|);
      if s1.nTodo == 0 && t != MASTER then s1.(threads := NotifyMaster(s1.threads)) else s1
  }

  predicate Sane(s: State, e: Event) {
    Enabled(s, e) && s.nTotal >= 0 && s.nIdle >= 0 && (e.Wake? ==> s.nIdle > 0)
  }

  function Step(cap: nat, s: State, e: Event): (State, seq<bool>)
    requires Sane(s, e)
  {
    match e
    case Add(checks, one) =>
      (s.(queue := s.queue + checks, nTodo := s.nTodo + |checks|, added := s.added + checks,
          threads := if |checks| == 0 then s.threads else NotifyWorkers(s.threads, |checks| > 1, one)), [])
    case _ =>
      var t := e.t;
      var (s1, place, ret) := LoopHead(cap, Prologue(s, e), t);
      (s1.(threads := s1.threads[t := place]), ret)
  }

  // ----- the invariant

  function InLoop(t: Thread): nat { if t.Out? then 0 else 1 }
  function Waiting(t: Thread): nat { if t.Asleep? || t.Woken? then 1 else 0 }
  function Held(t: Thread): nat { if t.Busy? then |t.batch| else 0 }

  /** A batch is never empty, and was taken with a failure already known only if one is known now. */
  predicate ThreadOk(t: Thread, allOk: bool) {
    t.Busy? ==> t.batch != [] && (!t.ok ==> !allOk)
  }

  predicate Passing(t: Thread) { t.Busy? ==> AllTrue(t.batch) }

  ghost predicate ThreadsOk(m: map<nat, Thread>, allOk: bool) { forall k | k in m :: ThreadOk(m[k], allOk) }

  ghost predicate AllPassing(m: map<nat, Thread>) { forall k | k in m :: Passing(m[k]) }

  lemma SplitThreads(m: map<nat, Thread>, t: nat, allOk: bool)
    requires t in m
    ensures AllPassing(m) <==> Passing(m[t]) && AllPassing(m - {t})
    ensures ThreadsOk(m, allOk) <==> ThreadOk(m[t], allOk) && ThreadsOk(m - {t}, allOk)
    ensures Sum(InLoop, m) == InLoop(m[t]) + Sum(InLoop, m - {t})
    ensures Sum(Waiting, m) == Waiting(m[t]) + Sum(Waiting, m - {t})
    ensures Sum(Held, m) == Held(m[t]) + Sum(Held, m - {t})
  {
    assert forall k | k in m :: k == t || (k in m - {t} && (m - {t})[k] == m[k]);
    SumWithout(InLoop, m, t);
    SumWithout(Waiting, m, t);
    SumWithout(Held, m, t);
  }

  /** When nobody holds work, nobody is running a batch. */
  lemma NoBatches(m: map<nat, Thread>, allOk: bool)
    requires ThreadsOk(m, allOk) && Sum(Held, m) == 0
    ensures forall k | k in m :: !m[k].Busy?
  {
    forall k | k in m ensures !m[k].Busy? {
      assert ThreadOk(m[k], allOk);
      SumAtLeast(Held, m, k);
    }
  }

  ghost predicate Counts(s: State) {
    && s.nTotal == Sum(InLoop, s.threads)
    && s.nIdle == Sum(Waiting, s.threads)
    && s.nTodo == |s.queue| + Sum(Held, s.threads)
  }

  /** What is known so far, what is queued and what is being run make up what was added. */
  ghost predicate Verdict(s: State) {
    AllTrue(s.added) <==> s.allOk && AllTrue(s.queue) && AllPassing(s.threads)
  }

  ghost predicate MasterOk(s: State) {
    && MASTER in s.threads
    && (s.threads[MASTER].Asleep? ==> s.queue == [] && s.nTodo > 0)
    && (s.threads[MASTER].Woken? ==> s.queue == [])
  }

  ghost predicate Inv(s: State) {
    ThreadsOk(s.threads, s.allOk) && Counts(s) && Verdict(s) && MasterOk(s) && s.nTodo <= |s.added|
  }

  function Initial(workers: set<nat>): State {
    State([], 0, 0, true, 0, map k | k in workers + {MASTER} :: Out, [])
  }

  lemma InitialInv(workers: set<nat>)
    ensures Inv(Initial(workers))
  {
    var m := Initial(workers).threads;
    NobodyCounts(InLoop, m);
    NobodyCounts(Waiting, m);
    NobodyCounts(Held, m);
  }

  lemma NobodyCounts(f: Thread -> nat, m: map<nat, Thread>)
    requires forall k | k in m :: f(m[k]) == 0
    ensures Sum(f, m) == 0
  {
    if Sum(f, m) > 0 { SumPositive(f, m); }
  }

  // ----- inside a critical section, between the clean-up and the inner loop

  /** The invariant with the running thread `t` set aside. */
  ghost predicate Mid(s: State, t: nat) {
    && t in s.threads && MASTER in s.threads
    && ThreadsOk(s.threads - {t}, s.allOk)
    && s.nTotal == Sum(InLoop, s.threads - {t}) + 1
    && s.nIdle == Sum(Waiting, s.threads - {t})
    && s.nTodo == |s.queue| + Sum(Held, s.threads - {t})
    && (AllTrue(s.added) <==> s.allOk && AllTrue(s.queue) && AllPassing(s.threads - {t}))
    && (t != MASTER ==> MasterOk(s))
    && s.nTodo <= |s.added|
  }

  lemma NotifyMasterKeeps(m: map<nat, Thread>, t: nat)
    requires t != MASTER && MASTER in m
    ensures var r, r' := m - {t}, NotifyMaster(m) - {t};
            && Sum(InLoop, r') == Sum(InLoop, r) && Sum(Waiting, r') == Sum(Waiting, r) && Sum(Held, r') == Sum(Held, r)
            && (AllPassing(r') <==> AllPassing(r)) && forall ok :: ThreadsOk(r', ok) <==> ThreadsOk(r, ok)
  {
    var r, r' := m - {t}, NotifyMaster(m) - {t};
    SumPointwise(InLoop, r, r');
    SumPointwise(Waiting, r, r');
    SumPointwise(Held, r, r');
    assert forall k | k in r :: k in r' && r'[k].Busy? == r[k].Busy? && (r[k].Busy? ==> r'[k] == r[k]);
    assert forall k | k in r' :: k in r && Passing(r'[k]) == Passing(r[k]);
    forall ok ensures ThreadsOk(r', ok) <==> ThreadsOk(r, ok) {
      assert forall k | k in r' :: ThreadOk(r'[k], ok) == ThreadOk(r[k], ok);
    }
  }

  lemma PrologueKeeps(s: State, e: Event)
    requires Inv(s) && Enabled(s, e) && !e.Add?
    ensures Sane(s, e) && Mid(Prologue(s, e), e.t)
  {
    var t := e.t;
    SplitThreads(s.threads, t, s.allOk);
    match e
    case Enter(_) =>
    case Wake(_) =>
    case Finish(_) => FinishKeeps(s, t);
  }

  lemma FinishKeeps(s: State, t: nat)
    requires Inv(s) && t in s.threads && s.threads[t].Busy?
    ensures Mid(Prologue(s, Finish(t)), t)
  {
    SplitThreads(s.threads, t, s.allOk);
    var b := s.threads[t];
    assert ThreadOk(b, s.allOk);
    var s1 := s.(allOk := s.allOk && b.ok && AllTrue(b.batch), nTodo := s.nTodo - |b.batch|);
    assert s1.allOk == (s.allOk && AllTrue(b.batch));
    var rest := s.threads - {t};
    assert ThreadsOk(rest, s1.allOk) by {
      forall k | k in rest ensures ThreadOk(rest[k], s1.allOk) { assert ThreadOk(rest[k], s.allOk); }
    }
    if s1.nTodo == 0 && t != MASTER {
      NotifyMasterKeeps(s.threads, t);
    }
  }

  lemma LoopHeadKeeps(cap: nat, s: State, t: nat)
    requires Mid(s, t)
    ensures s.nTotal >= 0 && s.nIdle >= 0
    ensures var (s1, place, ret) := LoopHead(cap, s, t); Inv(s1.(threads := s1.threads[t := place]))
  {
    hide Mid, Inv, LoopHead;
    TotalsFit(s, t);
    if s.queue != [] { TakingKeeps(cap, s, t); } else { RestingKeeps(cap, s, t); }
  }

  lemma TotalsFit(s: State, t: nat)
    requires Mid(s, t)
    ensures s.nTotal >= 0 && s.nIdle >= 0
  {}

  lemma TakingKeeps(cap: nat, s: State, t: nat)
    requires Mid(s, t) && s.nTotal >= 0 && s.nIdle >= 0 && s.queue != []
    ensures var (s1, place, ret) := LoopHead(cap, s, t); Inv(s1.(threads := s1.threads[t := place]))
  {
    hide ThreadsOk, AllPassing, Sum, AllTrue, BatchSize;
    BatchFits(cap, |s.queue|, s.nTotal, s.nIdle);
    var (s1, place, ret) := LoopHead(cap, s, t);
    var u := s1.(threads := s1.threads[t := place]);
    assert u.threads - {t} == s.threads - {t};
    SplitThreads(u.threads, t, u.allOk);
    SplitQueue(s.queue, |s1.queue|);
  }

  lemma RestingKeeps(cap: nat, s: State, t: nat)
    requires Mid(s, t) && s.nTotal >= 0 && s.nIdle >= 0 && s.queue == []
    ensures var (s1, place, ret) := LoopHead(cap, s, t); Inv(s1.(threads := s1.threads[t := place]))
  {
    hide ThreadsOk, AllPassing, Sum;
    var (s1, place, ret) := LoopHead(cap, s, t);
    var u := s1.(threads := s1.threads[t := place]);
    var rest := s.threads - {t};
    assert u.threads - {t} == rest;
    SplitThreads(u.threads, t, u.allOk);
    if t == MASTER && s.nTodo == 0 {
      NoBatches(rest, s.allOk);
      Idlers(rest);
    }
  }

  lemma Idlers(m: map<nat, Thread>)
    requires forall k | k in m :: !m[k].Busy?
    ensures ThreadsOk(m, true) && AllPassing(m)
  {
  }

  lemma SplitQueue(q: seq<bool>, cut: nat)
    requires cut <= |q|
    ensures AllTrue(q) <==> AllTrue(q[..cut]) && AllTrue(q[cut..])
  {
    assert q == q[..cut] + q[cut..];
    assert forall i | cut <= i < |q| :: q[i] == q[cut..][i - cut];
  }

  lemma NotifyWorkersKeeps(m: map<nat, Thread>, all: bool, one: nat, allOk: bool)
    ensures var m' := NotifyWorkers(m, all, one);
            && Sum(InLoop, m') == Sum(InLoop, m) && Sum(Waiting, m') == Sum(Waiting, m) && Sum(Held, m') == Sum(Held, m)
            && (AllPassing(m') <==> AllPassing(m)) && (ThreadsOk(m', allOk) <==> ThreadsOk(m, allOk))
            && m'.Keys == m.Keys && (MASTER in m ==> m'[MASTER] == m[MASTER])
  {
    var m' := NotifyWorkers(m, all, one);
    SumPointwise(InLoop, m, m');
    SumPointwise(Waiting, m, m');
    SumPointwise(Held, m, m');
    assert forall k | k in m :: k in m' && m'[k].Busy? == m[k].Busy? && (m[k].Busy? ==> m'[k] == m[k]);
    assert forall k | k in m' :: k in m && Passing(m'[k]) == Passing(m[k]);
    assert forall k | k in m' :: ThreadOk(m'[k], allOk) == ThreadOk(m[k], allOk);
  }

  lemma AddKeeps(cap: nat, s: State, checks: seq<bool>, one: nat)
    requires Inv(s) && Sane(s, Add(checks, one))
    ensures Inv(Step(cap, s, Add(checks, one)).0)
  {
    NotifyWorkersKeeps(s.threads, |checks| > 1, one, s.allOk);
    hide NotifyWorkers, AllPassing, ThreadsOk;
    AllTrueAppend(s.queue, checks);
    AllTrueAppend(s.added, checks);
  }

  lemma AllTrueAppend(a: seq<bool>, b: seq<bool>)
    ensures AllTrue(a + b) <==> AllTrue(a) && AllTrue(b)
  {
    assert forall i | 0 <= i < |b| :: b[i] == (a + b)[|a| + i];
    assert forall i | 0 <= i < |a| :: a[i] == (a + b)[i];
  }

  lemma InvSane(s: State, e: Event)
    requires Inv(s) && Enabled(s, e)
    ensures Sane(s, e)
  {
    if e.Wake? { SplitThreads(s.threads, e.t, s.allOk); }
  }

  /** Every step of every thread keeps the invariant, and what Wait returns is the conjunction of
      all checks added since the previous Wait returned. */
  lemma StepKeeps(cap: nat, s: State, e: Event)
    requires Inv(s) && Enabled(s, e)
    ensures Sane(s, e) && Inv(Step(cap, s, e).0)
    ensures Step(cap, s, e).1 != [] ==> !e.Add? && e.t == MASTER
    ensures Step(cap, s, e).1 != [] ==>
              Step(cap, s, e).1 == [AllTrue(s.added)] && Step(cap, s, e).0.added == [] && IsIdle(Step(cap, s, e).0)
  {
    InvSane(s, e);
    if e.Add? {
      AddKeeps(cap, s, e.checks, e.notified);
    } else {
      PrologueKeeps(s, e);
      var p := Prologue(s, e);
      assert p.added == s.added;
      LoopHeadKeeps(cap, p, e.t);
      hide Prologue, Sane;
      var (s1, place, ret) := LoopHead(cap, p, e.t);
      var u := s1.(threads := s1.threads[e.t := place]);
      if ret != [] {
        ReturnIsVerdict(p, e.t);
        FreshIsIdle(u);
      }
    }
  }

  lemma ReturnIsVerdict(s: State, t: nat)
    requires Mid(s, t) && s.queue == [] && s.nTodo == 0
    ensures s.allOk == AllTrue(s.added)
  {
    NoBatches(s.threads - {t}, s.allOk);
    Idlers(s.threads - {t});
  }

  predicate IsIdle(s: State) { s.nTotal == s.nIdle && s.nTodo == 0 && s.allOk }

  /** With nothing added since the last Wait and the master outside, the queue is idle, so a new
      controller's assertion holds. */
  lemma FreshIsIdle(s: State)
    requires Inv(s) && s.added == [] && s.threads[MASTER].Out?
    ensures IsIdle(s) && s.queue == []
  {
    NoBatches(s.threads, s.allOk);
    SumSameWhere(s.threads);
  }

  lemma SumSameWhere(m: map<nat, Thread>)
    requires forall k | k in m :: !m[k].Busy?
    ensures Sum(InLoop, m) == Sum(Waiting, m)
    decreases |m|
  {
    if m.Keys != {} {
      var k := Pick(m.Keys);
      SumSameWhere(m - {k});
      SumWithout(InLoop, m, k);
      SumWithout(Waiting, m, k);
    }
  }

  // ----- no deadlock, and Wait returns

  /** A thread that will act without a spurious wake-up. */
  predicate Runnable(t: Thread) { t.Woken? || t.Busy? }

  /** While the master sleeps un-notified some worker runs a non-empty batch. */
  lemma SleepingMasterIsServed(s: State)
    requires Inv(s) && s.threads[MASTER].Asleep?
    ensures exists k | k in s.threads :: k != MASTER && s.threads[k].Busy? && s.threads[k].batch != []
  {
    SumPositive(Held, s.threads);
  }

  /** Inside Wait there is always a thread to run. */
  lemma NeverStuck(s: State)
    requires Inv(s) && !s.threads[MASTER].Out?
    ensures exists k | k in s.threads :: Runnable(s.threads[k])
  {
    if s.threads[MASTER].Asleep? {
      SleepingMasterIsServed(s);
      var k :| k in s.threads && k != MASTER && s.threads[k].Busy? && s.threads[k].batch != [];
      assert Runnable(s.threads[k]);
    } else {
      assert Runnable(s.threads[MASTER]);
    }
  }

  function Pending(t: Thread): nat { if t.Out? then 2 else if t.Woken? then 1 else 0 }

  /** Bounds the steps left before Wait returns: unfinished checks, threads still to enter, and
      notified threads. */
  ghost function Work(s: State): nat
    requires s.nTodo >= 0
  {
    3 * s.nTodo + Sum(Pending, s.threads)
  }

  lemma TodoNonNegative(s: State)
    requires Inv(s)
    ensures s.nTodo >= 0
  {
  }

  /** Any step of a thread but a spurious wake-up. */
  predicate Productive(s: State, e: Event) {
    Enabled(s, e) && !e.Add? && (e.Wake? ==> s.threads[e.t].Woken?)
  }

  /** Every step of a thread that does not return uses up work, except that a spurious wake-up may
      leave it as it is. */
  lemma StepsUseUpWork(cap: nat, s: State, e: Event)
    requires Inv(s) && Enabled(s, e) && !e.Add?
    ensures Sane(s, e) && s.nTodo >= 0 && Step(cap, s, e).0.nTodo >= 0
    ensures Step(cap, s, e).1 == [] ==>
              if Productive(s, e) then Work(Step(cap, s, e).0) < Work(s) else Work(Step(cap, s, e).0) <= Work(s)
  {
    StepKeeps(cap, s, e);
    StepPlace(cap, s, e);
    var u, t := Step(cap, s, e).0, e.t;
    TodoNonNegative(s);
    TodoNonNegative(u);
    SumWithout(Pending, s.threads, t);
    SumWithout(Pending, u.threads, t);
    if e.Finish? {
      assert s.threads[t].batch != [] by { assert ThreadOk(s.threads[t], s.allOk); }
      AfterFinish(cap, s, t);
      NotifyMasterWork(s.threads - {t});
    }
    hide Inv, Step, NotifyMaster, Sane;
  }

  /** A thread that has run a critical section without returning is asleep or busy. */
  lemma StepPlace(cap: nat, s: State, e: Event)
    requires Inv(s) && Enabled(s, e) && !e.Add? && Sane(s, e)
    ensures e.t in Step(cap, s, e).0.threads
    ensures Step(cap, s, e).1 == [] ==> Pending(Step(cap, s, e).0.threads[e.t]) == 0
    ensures !e.Finish? ==> Step(cap, s, e).0.nTodo == s.nTodo && Step(cap, s, e).0.threads - {e.t} == s.threads - {e.t}
  {
    hide Counts, Verdict, ThreadsOk, BatchSize, AllTrue, Reversed;
  }

  lemma AfterFinish(cap: nat, s: State, t: nat)
    requires Inv(s) && t in s.threads && s.threads[t].Busy? && Sane(s, Finish(t))
    ensures Step(cap, s, Finish(t)).0.nTodo == s.nTodo - |s.threads[t].batch|
    ensures Step(cap, s, Finish(t)).0.threads - {t} ==
            if t != MASTER && s.nTodo == |s.threads[t].batch| then NotifyMaster(s.threads - {t}) else s.threads - {t}
  {
    hide Counts, Verdict, ThreadsOk, BatchSize, AllTrue, Reversed;
  }

  lemma NotifyMasterWork(m: map<nat, Thread>)
    ensures Sum(Pending, NotifyMaster(m)) <= Sum(Pending, m) + 1
  {
    if MASTER in m { SumUpdate(Pending, m, MASTER, Notified(m[MASTER])); }
  }

  // ----- work in the queue is attended to

  /** A batch is taken from the back of the queue, last check first. */
  lemma BatchTaken(cap: nat, s: State, t: nat)
    requires s.nTotal >= 0 && s.nIdle >= 0 && s.queue != []
    ensures var (s1, place, ret) := LoopHead(cap, s, t);
            && place.Busy? && ret == [] && s1 == s.(queue := s1.queue) && place.ok == s.allOk
            && |s1.queue| + |place.batch| == |s.queue| && s1.queue <= s.queue
            && |place.batch| == BatchSize(cap, |s.queue|, s.nTotal, s.nIdle)
            && forall i | 0 <= i < |place.batch| :: place.batch[i] == s.queue[|s.queue| - 1 - i]
  {
    BatchFits(cap, |s.queue|, s.nTotal, s.nIdle);
    hide BatchSize;
  }

  /** No wake-up is lost: while checks are queued, workers do not all sleep. */
  predicate Attended(s: State) { s.queue != [] && WorkerAsleep(s) ==> WorkerAwake(s) }

  lemma StepAttended(cap: nat, s: State, e: Event)
    requires Inv(s) && Sane(s, e) && Attended(s)
    ensures Attended(Step(cap, s, e).0)
  {
    hide Inv, AllTrue, BatchSize;
    var u := Step(cap, s, e).0;
    if e.Add? {
      AddAttended(cap, s, e.checks, e.notified);
    } else if u.queue != [] {
      PrologueWorkers(s, e);
      var p := Prologue(s, e);
      BatchTaken(cap, p, e.t);
      hide LoopHead, Prologue;
      if e.t == MASTER {
        SameWorkers(s, u);
      } else {
        assert u.threads[e.t].Busy?;
      }
    }
  }

  lemma PrologueWorkers(s: State, e: Event)
    requires Sane(s, e) && !e.Add?
    ensures var p := Prologue(s, e);
            && p.nTotal >= 0 && p.nIdle >= 0 && p.queue == s.queue && p.threads.Keys == s.threads.Keys
            && forall k | k in s.threads && k != MASTER :: p.threads[k] == s.threads[k]
  {
    hide AllTrue;
  }

  lemma SameWorkers(s: State, u: State)
    requires u.threads.Keys == s.threads.Keys
    requires forall k | k in s.threads && k != MASTER :: u.threads[k] == s.threads[k]
    ensures WorkerAsleep(u) == WorkerAsleep(s) && WorkerAwake(u) == WorkerAwake(s)
  {
    forall k | k in s.threads && k != MASTER ensures k in u.threads && u.threads[k] == s.threads[k] {
      assert k in s.threads.Keys;
    }
    forall k | k in u.threads ensures k in s.threads { assert k in u.threads.Keys; }
  }

  lemma AddAttended(cap: nat, s: State, checks: seq<bool>, one: nat)
    requires Sane(s, Add(checks, one)) && Attended(s)
    ensures Attended(Step(cap, s, Add(checks, one)).0)
  {
    var u := Step(cap, s, Add(checks, one)).0;
    if u.queue != [] && WorkerAsleep(u) {
      var k :| k in u.threads && k != MASTER && u.threads[k].Asleep?;
      assert s.threads[k].Asleep?;
      assert |checks| <= 1;
      if |checks| == 1 {
        assert u.threads[one].Woken?;
      } else {
        assert checks == [] && u.queue == s.queue;
      }
    }
  }

  // ----- runs

  ghost predicate IsRun(cap: nat, states: seq<State>, events: seq<Event>) {
    && |states| == |events| + 1
    && forall i | 0 <= i < |events| ::
         Sane(states[i], events[i]) && states[i + 1] == Step(cap, states[i], events[i]).0
  }

  /** In every interleaving, from any number of workers, every reachable state satisfies the
      invariant. */
  lemma {:induction false} RunKeeps(cap: nat, states: seq<State>, events: seq<Event>, n: nat)
    requires IsRun(cap, states, events) && Inv(states[0]) && n < |states|
    ensures Inv(states[n])
  {
    if n > 0 {
      RunKeeps(cap, states, events, n - 1);
      StepKeeps(cap, states[n - 1], events[n - 1]);
    }
  }

  /** Nothing is added and Wait does not return. */
  ghost predicate Unreturned(cap: nat, states: seq<State>, events: seq<Event>)
    requires IsRun(cap, states, events)
  {
    forall i | 0 <= i < |events| :: !events[i].Add? && Step(cap, states[i], events[i]).1 == []
  }

  /** The steps of a run that are no spurious wake-ups. */
  ghost function ProductiveSteps(states: seq<State>, events: seq<Event>): nat
    requires |states| == |events| + 1
    decreases |events|
  {
    if events == [] then 0
    else (if Productive(states[0], events[0]) then 1 else 0) + ProductiveSteps(states[1..], events[1..])
  }

  /** In any schedule, with any spurious wake-ups in between, threads take at most as many other steps
      before Wait returns as there was work to start with. */
  lemma {:induction false} WaitReturns(cap: nat, states: seq<State>, events: seq<Event>)
    requires IsRun(cap, states, events) && Inv(states[0]) && Unreturned(cap, states, events)
    ensures states[0].nTodo >= 0 && ProductiveSteps(states, events) <= Work(states[0])
    decreases |events|
  {
    TodoNonNegative(states[0]);
    if events != [] {
      assert Enabled(states[0], events[0]) by { assert Sane(states[0], events[0]); }
      StepsUseUpWork(cap, states[0], events[0]);
      StepKeeps(cap, states[0], events[0]);
      hide Inv, Step, Sane, Productive;
      var states', events' := states[1..], events[1..];
      forall i | 0 <= i < |events'|
        ensures Sane(states'[i], events'[i]) && states'[i + 1] == Step(cap, states'[i], events'[i]).0
        ensures !events'[i].Add? && Step(cap, states'[i], events'[i]).1 == []
      {
        assert states'[i] == states[i + 1] && events'[i] == events[i + 1] && states'[i + 1] == states[i + 2];
      }
      WaitReturns(cap, states', events');
    }
  }

  /** In every interleaving from the start, queued checks never wait for workers that all sleep. */
  lemma {:induction false} RunAttended(cap: nat, workers: set<nat>, states: seq<State>, events: seq<Event>, n: nat)
    requires IsRun(cap, states, events) && states[0] == Initial(workers) && n < |states|
    ensures Attended(states[n])
  {
    hide Inv, Step, Sane;
    if n > 0 {
      RunAttended(cap, workers, states, events, n - 1);
      InitialInv(workers);
      RunKeeps(cap, states, events, n - 1);
      StepAttended(cap, states[n - 1], events[n - 1]);
    }
  }
}
