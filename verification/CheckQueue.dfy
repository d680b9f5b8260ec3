/**
 * `CCheckQueue`: one master and any number of workers sharing a queue of checks.
 *
 * The lock makes every critical section one step, so the protocol is a state machine over the
 * critical sections, the execution of single checks and the wake-ups. A run is any interleaving of
 * these steps; a thread may also wake up without having been notified.
 */
module CheckQueue {
  import opened Numbers

  /** A check and the verdict its execution gives. */
  datatype Check = Check(id: nat, ok: bool)

  datatype Thread =
    | Out                                                  // not in the loop
    | Deciding                                             // holds the lock, about to test the queue
    | Waiting                                              // blocked on its condition variable
    | Woken                                                // notified, has not got the lock back yet
    | Working(batch: seq<Check>, fOk: bool, next: nat)     // executing its batch without the lock

  /** Thread 0 is the master. `added` and `done` are the history since the last return of the master. */
  datatype State = State(
    threads: seq<Thread>, queue: seq<Check>, nIdle: int, nTotal: int, nTodo: int, fAllOk: bool,
    added: seq<Check>, done: seq<Check>)

  datatype Action =
    | Add(checks: seq<Check>, notified: nat)   // the master adds a batch; `notified` is the worker a single check wakes
    | Enter(thread: nat)                       // a thread calls the loop: Thread() or Wait()
    | Wake(thread: nat)                        // a wake-up nobody asked for
    | Resume(thread: nat)                      // a woken thread gets the lock back
    | Execute(thread: nat)                     // one check of a batch
    | Finish(thread: nat)                      // a batch is done: clean-up and the next look at the queue

  function Init(workers: nat): State {
    State(seq(workers + 1, _ => Out), [], 0, 0, 0, true, [], [])
  }

  // ----- The steps -----

  function BatchSize(nBatchSize: nat, s: State): (n: nat)
    requires s.nTotal + s.nIdle >= 0 && s.queue != []
    ensures 1 <= n <= |s.queue|
    // The largest batch within the limit that leaves as much for each thread, counting the idle ones twice.
    ensures n == 1 || (n <= nBatchSize && n * (s.nTotal + s.nIdle + 1) <= |s.queue|)
    ensures n >= nBatchSize || (n + 1) * (s.nTotal + s.nIdle + 1) > |s.queue|
  {
    DivideLe(|s.queue|, s.nTotal + s.nIdle + 1);
    BatchLargest(|s.queue|, s.nTotal + s.nIdle + 1, Min(nBatchSize, |s.queue| / (s.nTotal + s.nIdle + 1)));
    Max(1, Min(nBatchSize, |s.queue| / (s.nTotal + s.nIdle + 1)))
  }

  lemma DivideLe(a: nat, k: int)
    requires k >= 1
    ensures 0 <= a / k <= a
  {
    assert a == k * (a / k) + a % k;
  }

  lemma BatchLargest(a: nat, k: int, n: nat)
    requires k >= 1 && n <= a / k
    ensures n * k <= a && (a / k + 1) * k > a && (n == 0 && a < k ==> (1 + 1) * k > a)
  {
    assert a == k * (a / k) + a % k;
    assert n * k <= (a / k) * k by {
      assert (a / k - n) * k >= 0;
    }
  }

  /** The last `n` checks, last first. */
  function TakeBack(queue: seq<Check>, n: nat): (r: seq<Check>)
    requires n <= |queue|
    ensures |r| == n
  {
    if n == 0 then [] else [queue[|queue| - 1]] + TakeBack(queue[..|queue| - 1], n - 1)
  }

  /** The master leaves when nothing is queued or under way. */
  predicate Returns(s: State, t: nat) {
    t == 0 && s.queue == [] && s.nTodo == 0
  }

  /** The rest of a critical section, from the test of the queue on. */
  function LoopHead(nBatchSize: nat, s: State, t: nat): State
    requires t < |s.threads| && s.nTotal + s.nIdle >= 0
  {
    if s.queue == [] then
      if Returns(s, t) then
        s.(threads := s.threads[t := Out], nTotal := s.nTotal - 1, fAllOk := true, added := [], done := [])
      else
        s.(threads := s.threads[t := Waiting], nIdle := s.nIdle + 1)
    else
      var nNow := BatchSize(nBatchSize, s);
      s.(threads := s.threads[t := Working(TakeBack(s.queue, nNow), s.fAllOk, 0)], queue := s.queue[..|s.queue| - nNow])
  }

  function NotifyAll(threads: seq<Thread>): seq<Thread> {
    seq(|threads|, i requires 0 <= i < |threads| => if threads[i].Waiting? then Woken else threads[i])
  }

  function NotifyOne(threads: seq<Thread>, t: nat): seq<Thread> {
    if t < |threads| && threads[t].Waiting? then threads[t := Woken] else threads
  }

  predicate Enabled(s: State, a: Action) {
    match a
    case Add(checks, notified) =>
      // a notification wakes a waiting worker whenever there is one
      && 0 < |s.threads| && s.threads[0].Out?
      && ((forall i :: 0 < i < |s.threads| ==> !s.threads[i].Waiting?)
          || (0 < notified < |s.threads| && s.threads[notified].Waiting?))
    case Enter(t) => t < |s.threads| && s.threads[t].Out?
    case Wake(t) => t < |s.threads| && s.threads[t].Waiting?
    case Resume(t) => t < |s.threads| && s.threads[t].Woken?
    case Execute(t) => t < |s.threads| && s.threads[t].Working? && s.threads[t].next < |s.threads[t].batch|
    case Finish(t) => t < |s.threads| && s.threads[t].Working? && s.threads[t].next == |s.threads[t].batch|
  }

  function AddBatch(s: State, checks: seq<Check>, notified: nat): State {
    var threads := if |checks| == 1 then NotifyOne(s.threads, notified)
                   else if |checks| > 1 then NotifyAll(s.threads)
                   else s.threads;
    s.(threads := threads, queue := s.queue + checks, nTodo := s.nTodo + |checks|, added := s.added + checks)
  }

  function ExecuteOne(s: State, t: nat): State
    requires Enabled(s, Execute(t))
  {
    var w := s.threads[t];
    var ok := if w.fOk then w.batch[w.next].ok else w.fOk;
    s.(threads := s.threads[t := Working(w.batch, ok, w.next + 1)])
  }

  /** The clean-up of a finished batch; a worker that completes the last check notifies the master. */
  function CleanUp(s: State, t: nat): State
    requires Enabled(s, Finish(t))
  {
    var w := s.threads[t];
    var nTodo := s.nTodo - |w.batch|;
    var threads := s.threads[t := Deciding];
    s.(threads := if nTodo == 0 && t != 0 then NotifyOne(threads, 0) else threads,
       fAllOk := s.fAllOk && w.fOk, nTodo := nTodo, done := s.done + w.batch)
  }

  predicate TakesLock(a: Action) {
    a.Enter? || a.Resume? || a.Finish?
  }

  /** The state at the test of the queue. */
  function AtHead(s: State, a: Action): State
    requires Enabled(s, a) && TakesLock(a)
  {
    match a
    case Enter(t) => s.(threads := s.threads[t := Deciding], nTotal := s.nTotal + 1)
    case Resume(t) => s.(threads := s.threads[t := Deciding], nIdle := s.nIdle - 1)
    case Finish(t) => CleanUp(s, t)
  }

  /** The verdict the master leaves with, if this step makes it leave. */
  predicate Leaves(s: State, a: Action)
    requires Enabled(s, a)
  {
    TakesLock(a) && Returns(AtHead(s, a), a.thread)
  }

  function Verdict(s: State, a: Action): bool
    requires Enabled(s, a) && TakesLock(a)
  {
    AtHead(s, a).fAllOk
  }

  // ----- Counting over the threads -----

  datatype Kind = Total | Idle | Held | Left | Copies(check: Check)

  /** What a thread adds to a count; `Left` bounds the steps it can still take by itself. */
  function Weigh(t: Thread, k: Kind): nat {
    match k
    case Total => if t.Out? then 0 else 1
    case Idle => if t.Waiting? || t.Woken? then 1 else 0
    case Held => if t.Working? then |t.batch| else 0
    case Copies(c) => if t.Working? then Occurs(t.batch, c) else 0
    case Left =>
      match t
      case Out => 3
      case Deciding => 1
      case Waiting => 0
      case Woken => 1
      case Working(batch, _, next) => 2 + (if next < |batch| then |batch| - next else 0)
  }

  function Occurs(checks: seq<Check>, c: Check): nat {
    multiset(checks)[c]
  }

  function Count(threads: seq<Thread>, k: Kind): nat {
    if threads == [] then 0 else Count(threads[..|threads| - 1], k) + Weigh(threads[|threads| - 1], k)
  }

  lemma {:induction false} CountUpdate(threads: seq<Thread>, i: nat, t: Thread, k: Kind)
    requires i < |threads|
    ensures Count(threads[i := t], k) == Count(threads, k) - Weigh(threads[i], k) + Weigh(t, k)
    decreases |threads|
  {
    var n := |threads| - 1;
    if i == n {
      assert threads[i := t][..n] == threads[..n];
    } else {
      CountUpdate(threads[..n], i, t, k);
      assert threads[i := t][..n] == threads[..n][i := t];
    }
  }

  lemma {:induction false} NotifyCounts(threads: seq<Thread>)
    ensures forall k: Kind :: k != Left ==> Count(NotifyAll(threads), k) == Count(threads, k)
    decreases |threads|
  {
    if threads != [] {
      var n := |threads| - 1;
      NotifyCounts(threads[..n]);
      assert NotifyAll(threads)[..n] == NotifyAll(threads[..n]);
    }
  }

  lemma {:induction false} CountAtLeast(threads: seq<Thread>, i: nat, k: Kind)
    requires i < |threads|
    ensures Weigh(threads[i], k) <= Count(threads, k)
    decreases |threads|
  {
    if i < |threads| - 1 {
      CountAtLeast(threads[..|threads| - 1], i, k);
    }
  }

  lemma {:induction false} SomeHolds(threads: seq<Thread>) returns (i: nat)
    requires Count(threads, Held) > 0
    ensures i < |threads| && threads[i].Working? && threads[i].batch != []
    decreases |threads|
  {
    i := |threads| - 1;
    if !threads[i].Working? || threads[i].batch == [] {
      i := SomeHolds(threads[..i]);
    }
  }

  lemma {:induction false} NoneHeld(threads: seq<Thread>, c: Check)
    requires Count(threads, Held) == 0
    ensures Count(threads, Copies(c)) == 0
    decreases |threads|
  {
    if threads != [] {
      NoneHeld(threads[..|threads| - 1], c);
    }
  }

  lemma OccursAppend(a: seq<Check>, b: seq<Check>, c: Check)
    ensures Occurs(a + b, c) == Occurs(a, c) + Occurs(b, c)
  {
  }

  lemma {:induction false} TakeBackSplits(queue: seq<Check>, n: nat, c: Check)
    requires n <= |queue|
    ensures Occurs(TakeBack(queue, n), c) + Occurs(queue[..|queue| - n], c) == Occurs(queue, c)
    decreases n
  {
    hide Occurs;
    if n > 0 {
      var init, last := queue[..|queue| - 1], [queue[|queue| - 1]];
      TakeBackSplits(init, n - 1, c);
      assert queue == init + last;
      OccursAppend(init, last, c);
      OccursAppend(last, TakeBack(init, n - 1), c);
      assert init[..|init| - (n - 1)] == queue[..|queue| - n];
    } else {
      assert queue[..|queue|] == queue;
      OccursNone(c);
    }
  }

  lemma OccursNone(c: Check)
    ensures Occurs([], c) == 0
  {
  }

  // ----- The invariant -----

  predicate AllGood(checks: seq<Check>) {
    forall i :: 0 <= i < |checks| ==> checks[i].ok
  }

  ghost predicate ThreadOk(s: State, t: Thread) {
    t.Working? ==>
      t.batch != [] && t.next <= |t.batch| && (if t.fOk then AllGood(t.batch[..t.next]) else !AllGood(s.added))
  }

  /** What holds at the test of the queue and between the steps. */
  ghost predicate Counted(s: State) {
    && s.threads != []
    && s.nTotal == Count(s.threads, Total) && s.nIdle == Count(s.threads, Idle)
    && s.nTodo == |s.queue| + Count(s.threads, Held)
    && forall c: Check :: Occurs(s.added, c) == Occurs(s.queue, c) + Count(s.threads, Copies(c)) + Occurs(s.done, c)
  }

  ghost predicate Judged(s: State) {
    && (if s.fAllOk then AllGood(s.done) else !AllGood(s.added))
    && forall i :: 0 <= i < |s.threads| ==> ThreadOk(s, s.threads[i])
  }

  /** The master sleeps only while workers hold checks. */
  ghost predicate NoLostWakeup(s: State) {
    s.threads != [] && s.threads[0].Waiting? ==> s.queue == [] && s.nTodo > 0
  }

  ghost predicate Inv(s: State) {
    && Counted(s) && Judged(s) && NoLostWakeup(s)
    && forall i :: 0 <= i < |s.threads| ==> !s.threads[i].Deciding?
  }

  ghost predicate HeadInv(s: State, t: nat) {
    && Counted(s) && Judged(s) && NoLostWakeup(s) && t < |s.threads| && s.threads[t].Deciding?
    && forall i :: 0 <= i < |s.threads| && i != t ==> !s.threads[i].Deciding?
  }

  function Next(nBatchSize: nat, s: State, a: Action): State
    requires Enabled(s, a) && (TakesLock(a) ==> AtHead(s, a).nTotal + AtHead(s, a).nIdle >= 0)
  {
    match a
    case Add(checks, notified) => AddBatch(s, checks, notified)
    case Wake(t) => s.(threads := s.threads[t := Woken])
    case Execute(t) => ExecuteOne(s, t)
    case _ => LoopHead(nBatchSize, AtHead(s, a), a.thread)
  }

  // ----- Every step keeps the invariant -----

  lemma InitOk(workers: nat)
    ensures Inv(Init(workers))
  {
    var s := Init(workers);
    forall k: Kind | k != Left
      ensures Count(s.threads, k) == 0
    {
      AllOut(s.threads, k);
    }
    forall c: Check
      ensures Occurs(s.added, c) == Occurs(s.queue, c) + Count(s.threads, Copies(c)) + Occurs(s.done, c)
    {
    }
  }

  lemma {:induction false} AllOut(threads: seq<Thread>, k: Kind)
    requires k != Left && forall i :: 0 <= i < |threads| ==> threads[i].Out?
    ensures Count(threads, k) == 0
    decreases |threads|
  {
    if threads != [] {
      AllOut(threads[..|threads| - 1], k);
    }
  }

  /** More checks never turn a bad lot good. */
  lemma BadStays(a: seq<Check>, b: seq<Check>)
    ensures !AllGood(a) ==> !AllGood(a + b)
    ensures AllGood(a) && AllGood(b) ==> AllGood(a + b)
  {
    if !AllGood(a) {
      var i :| 0 <= i < |a| && !a[i].ok;
      assert !(a + b)[i].ok;
    }
  }

  lemma NotifyOneCounts(threads: seq<Thread>, t: nat)
    ensures forall k: Kind :: k != Left ==> Count(NotifyOne(threads, t), k) == Count(threads, k)
  {
    if t < |threads| && threads[t].Waiting? {
      forall k: Kind | k != Left
        ensures Count(NotifyOne(threads, t), k) == Count(threads, k)
      {
        CountUpdate(threads, t, Woken, k);
      }
    }
  }

  lemma AddOk(s: State, checks: seq<Check>, notified: nat)
    requires Inv(s) && Enabled(s, Add(checks, notified))
    ensures Inv(AddBatch(s, checks, notified))
  {
    hide Count;
    NotifyCounts(s.threads);
    NotifyOneCounts(s.threads, notified);
    BadStays(s.added, checks);
    var u := AddBatch(s, checks, notified);
    forall c: Check
      ensures Occurs(u.added, c) == Occurs(u.queue, c) + Count(u.threads, Copies(c)) + Occurs(u.done, c)
    {
      OccursAppend(s.added, checks, c);
      OccursAppend(s.queue, checks, c);
      assert Count(u.threads, Copies(c)) == Count(s.threads, Copies(c));
    }
  }

  lemma WakeOk(s: State, t: nat)
    requires Inv(s) && Enabled(s, Wake(t))
    ensures Inv(s.(threads := s.threads[t := Woken]))
  {
    hide Count;
    NotifyOneCounts(s.threads, t);
  }

  /** A check in a batch is one of the added. */
  lemma HeldWasAdded(s: State, t: nat, j: nat)
    requires Counted(s) && t < |s.threads| && s.threads[t].Working? && j < |s.threads[t].batch|
    requires !s.threads[t].batch[j].ok
    ensures !AllGood(s.added)
  {
    var c := s.threads[t].batch[j];
    CountAtLeast(s.threads, t, Copies(c));
    assert c in multiset(s.threads[t].batch);
    assert Occurs(s.added, c) > 0;
    assert c in multiset(s.added);
    var i :| 0 <= i < |s.added| && s.added[i] == c;
  }

  lemma ExecuteOk(s: State, t: nat)
    requires Inv(s) && Enabled(s, Execute(t))
    ensures Inv(ExecuteOne(s, t))
  {
    hide Count, AllGood;
    var w, u := s.threads[t], ExecuteOne(s, t);
    forall k: Kind | k != Left
      ensures Count(u.threads, k) == Count(s.threads, k)
    {
      CountUpdate(s.threads, t, u.threads[t], k);
    }
    if w.fOk {
      ExecuteGood(w.batch, w.next);
      if !w.batch[w.next].ok {
        HeldWasAdded(s, t, w.next);
      }
    }
    forall c: Check
      ensures Occurs(u.added, c) == Occurs(u.queue, c) + Count(u.threads, Copies(c)) + Occurs(u.done, c)
    {
      assert Count(u.threads, Copies(c)) == Count(s.threads, Copies(c));
    }
  }

  lemma ExecuteGood(batch: seq<Check>, next: nat)
    requires next < |batch| && AllGood(batch[..next])
    ensures batch[next].ok ==> AllGood(batch[..next + 1])
  {
    assert batch[..next + 1] == batch[..next] + [batch[next]];
  }

  lemma HeadCounts(s: State, a: Action)
    requires Inv(s) && Enabled(s, a) && TakesLock(a)
    ensures Counted(AtHead(s, a)) && AtHead(s, a).nTodo >= 0
  {
    hide Count, Judged, NoLostWakeup;
    var u, t := AtHead(s, a), a.thread;
    var w := s.threads[t];
    var base := s.threads[t := Deciding];
    NotifyOneCounts(base, 0);
    forall k: Kind | k != Left
      ensures Count(u.threads, k) == Count(s.threads, k) - Weigh(w, k) + Weigh(Deciding, k)
    {
      CountUpdate(s.threads, t, Deciding, k);
      assert Count(NotifyOne(base, 0), k) == Count(base, k);
    }
    forall c: Check
      ensures Occurs(u.added, c) == Occurs(u.queue, c) + Count(u.threads, Copies(c)) + Occurs(u.done, c)
    {
      assert Count(u.threads, Copies(c)) == Count(s.threads, Copies(c)) - Weigh(w, Copies(c));
      if a.Finish? {
        OccursAppend(s.done, w.batch, c);
      }
    }
  }

  lemma HeadJudged(s: State, a: Action)
    requires Inv(s) && Enabled(s, a) && TakesLock(a)
    ensures Judged(AtHead(s, a))
  {
    hide Count, AllGood, Counted, NoLostWakeup;
    if a.Finish? {
      var w := s.threads[a.thread];
      BadStays(s.done, w.batch);
      assert w.batch[..|w.batch|] == w.batch;
    }
  }

  lemma HeadOk(s: State, a: Action)
    requires Inv(s) && Enabled(s, a) && TakesLock(a)
    ensures HeadInv(AtHead(s, a), a.thread) && AtHead(s, a).added == s.added
  {
    hide Count, Judged, Occurs;
    HeadCounts(s, a);
    HeadJudged(s, a);
  }

  lemma LoopHeadCounts(nBatchSize: nat, s: State, t: nat)
    requires HeadInv(s, t)
    ensures s.nTotal >= 0 && s.nIdle >= 0 && Counted(LoopHead(nBatchSize, s, t))
  {
    hide Count, Judged, NoLostWakeup, TakeBack;
    var u := LoopHead(nBatchSize, s, t);
    forall k: Kind | k != Left
      ensures Count(u.threads, k) == Count(s.threads, k) - Weigh(Deciding, k) + Weigh(u.threads[t], k)
    {
      CountUpdate(s.threads, t, u.threads[t], k);
    }
    forall c: Check
      ensures Occurs(u.added, c) == Occurs(u.queue, c) + Count(u.threads, Copies(c)) + Occurs(u.done, c)
    {
      assert Count(u.threads, Copies(c)) == Count(s.threads, Copies(c)) + Weigh(u.threads[t], Copies(c));
      if s.queue != [] {
        TakeBackSplits(s.queue, BatchSize(nBatchSize, s), c);
      } else if Returns(s, t) {
        NoneHeld(s.threads, c);
      }
    }
  }

  lemma LoopHeadJudged(nBatchSize: nat, s: State, t: nat)
    requires HeadInv(s, t) && s.nTotal >= 0 && s.nIdle >= 0
    ensures Judged(LoopHead(nBatchSize, s, t))
  {
    hide Count, NoLostWakeup, TakeBack, AllGood;
    var u := LoopHead(nBatchSize, s, t);
    assert AllGood([]) by { NothingBad(); }
    forall i | 0 <= i < |u.threads|
      ensures ThreadOk(u, u.threads[i])
    {
      if i == t {
        assert u.threads[t].Working? ==> u.threads[t].batch[..0] == [];
      } else {
        CountAtLeast(s.threads, i, Held);
      }
    }
  }

  lemma NothingBad()
    ensures AllGood([])
  {
  }

  lemma LoopHeadOk(nBatchSize: nat, s: State, t: nat)
    requires HeadInv(s, t)
    ensures s.nTotal >= 0 && s.nIdle >= 0 && Inv(LoopHead(nBatchSize, s, t))
  {
    hide Count, Occurs, TakeBack, AllGood;
    LoopHeadCounts(nBatchSize, s, t);
    LoopHeadJudged(nBatchSize, s, t);
  }

  /** The master's verdict is true exactly when every check added since it last left is good. */
  lemma VerdictIsConjunction(s: State, t: nat)
    requires HeadInv(s, t) && Returns(s, t)
    ensures s.fAllOk <==> AllGood(s.added)
    ensures multiset(s.added) == multiset(s.done)
  {
    forall c: Check
      ensures multiset(s.added)[c] == multiset(s.done)[c]
    {
      NoneHeld(s.threads, c);
      assert Occurs(s.added, c) == Occurs(s.done, c);
    }
    if AllGood(s.done) {
      forall i | 0 <= i < |s.added|
        ensures s.added[i].ok
      {
        assert s.added[i] in multiset(s.done);
        var j :| 0 <= j < |s.done| && s.done[j] == s.added[i];
      }
    }
  }

  /** Every step from a state that meets the invariant is defined and keeps it. */
  lemma StepOk(nBatchSize: nat, s: State, a: Action)
    requires Inv(s) && Enabled(s, a)
    ensures TakesLock(a) ==> AtHead(s, a).nTotal >= 0 && AtHead(s, a).nIdle >= 0
    ensures Inv(Next(nBatchSize, s, a))
    ensures Leaves(s, a) ==> (Verdict(s, a) <==> AllGood(s.added))
  {
    hide Inv, HeadInv, AddBatch, ExecuteOne, LoopHead, CleanUp, AllGood;
    match a
    case Add(checks, notified) => AddOk(s, checks, notified);
    case Wake(t) => WakeOk(s, t);
    case Execute(t) => ExecuteOk(s, t);
    case _ =>
      HeadOk(s, a);
      LoopHeadOk(nBatchSize, AtHead(s, a), a.thread);
      if Leaves(s, a) {
        VerdictIsConjunction(AtHead(s, a), a.thread);
      }
  }

  // ----- Whole runs -----

  predicate Defined(s: State, a: Action)
    requires Enabled(s, a)
  {
    TakesLock(a) ==> AtHead(s, a).nTotal + AtHead(s, a).nIdle >= 0
  }

  /** Any interleaving; a step whose arithmetic is undefined could lead anywhere. */
  ghost predicate IsRun(nBatchSize: nat, states: seq<State>, actions: seq<Action>) {
    && |states| == |actions| + 1
    && forall i :: 0 <= i < |actions| ==>
         && Enabled(states[i], actions[i])
         && (Defined(states[i], actions[i]) ==> states[i + 1] == Next(nBatchSize, states[i], actions[i]))
  }

  /** The checks added before step `i` and after the master last left. */
  ghost function AddedSince(nBatchSize: nat, states: seq<State>, actions: seq<Action>, i: nat): seq<Check>
    requires IsRun(nBatchSize, states, actions) && i <= |actions|
  {
    if i == 0 then [] else
      var a, before := actions[i - 1], AddedSince(nBatchSize, states, actions, i - 1);
      if Leaves(states[i - 1], a) then [] else if a.Add? then before + a.checks else before
  }

  lemma AddedNext(nBatchSize: nat, s: State, a: Action)
    requires Enabled(s, a) && Defined(s, a)
    ensures Next(nBatchSize, s, a).added == if Leaves(s, a) then [] else if a.Add? then s.added + a.checks else s.added
  {
  }

  lemma {:induction false} RunKeeps(nBatchSize: nat, workers: nat, states: seq<State>, actions: seq<Action>, i: nat)
    requires IsRun(nBatchSize, states, actions) && states[0] == Init(workers) && i <= |actions|
    ensures Inv(states[i]) && states[i].added == AddedSince(nBatchSize, states, actions, i)
  {
    hide Inv, Next, Leaves;
    if i == 0 {
      InitOk(workers);
    } else {
      RunKeeps(nBatchSize, workers, states, actions, i - 1);
      assert Enabled(states[i - 1], actions[i - 1]);
      StepOk(nBatchSize, states[i - 1], actions[i - 1]);
      AddedNext(nBatchSize, states[i - 1], actions[i - 1]);
    }
  }

  /**
   * In every run, every step is defined and a master that leaves takes the conjunction of the checks added since it
   * last left.
   */
  lemma RunOk(nBatchSize: nat, workers: nat, states: seq<State>, actions: seq<Action>, i: nat)
    requires IsRun(nBatchSize, states, actions) && states[0] == Init(workers) && i < |actions|
    ensures Inv(states[i]) && Defined(states[i], actions[i])
    ensures Leaves(states[i], actions[i]) ==>
              (Verdict(states[i], actions[i]) <==> AllGood(AddedSince(nBatchSize, states, actions, i)))
  {
    hide Inv, Leaves, AllGood, Verdict, AddedSince;
    RunKeeps(nBatchSize, workers, states, actions, i);
    assert Enabled(states[i], actions[i]);
    StepOk(nBatchSize, states[i], actions[i]);
  }

  // ----- Who is woken, and what is taken -----

  function WaitingWorkers(s: State): set<nat> {
    set i | 0 < i < |s.threads| && s.threads[i].Waiting?
  }

  /** Adding wakes every waiting worker for two or more checks, exactly one for a single check, and nobody for none. */
  lemma AddNotifies(s: State, checks: seq<Check>, notified: nat)
    requires Enabled(s, Add(checks, notified))
    ensures var u := AddBatch(s, checks, notified);
            && |u.threads| == |s.threads|
            && (forall i :: 0 <= i < |s.threads| ==>
                  u.threads[i] == s.threads[i] || (i > 0 && s.threads[i].Waiting? && u.threads[i].Woken?))
            && (checks == [] ==> u == s)
            && (|checks| >= 2 ==> WaitingWorkers(u) == {})
            && (|checks| == 1 && WaitingWorkers(s) == {} ==> u.threads == s.threads)
            && (|checks| == 1 && WaitingWorkers(s) != {} ==>
                  && notified in WaitingWorkers(s) && u.threads[notified].Woken?
                  && WaitingWorkers(u) == WaitingWorkers(s) - {notified}
                  && |WaitingWorkers(u)| == |WaitingWorkers(s)| - 1)
  {
    var u := AddBatch(s, checks, notified);
    if checks == [] {
      assert s.queue + checks == s.queue && s.added + checks == s.added;
    } else if |checks| == 1 {
      if WaitingWorkers(s) != {} {
        var i :| i in WaitingWorkers(s);
        assert WaitingWorkers(u) == WaitingWorkers(s) - {notified};
      } else {
        forall i | 0 < i < |s.threads|
          ensures !s.threads[i].Waiting?
        {
          assert i !in WaitingWorkers(s);
        }
      }
    }
  }

  /** Work is queued and a worker sleeps only while somebody is awake. */
  ghost predicate Awake(s: State) {
    s.queue != [] && WaitingWorkers(s) != {} ==>
      exists i :: 0 <= i < |s.threads| && (s.threads[i].Woken? || s.threads[i].Working?)
  }

  lemma AwakeStays(nBatchSize: nat, s: State, a: Action)
    requires Enabled(s, a) && Defined(s, a) && Awake(s)
    ensures Awake(Next(nBatchSize, s, a))
  {
    hide TakeBack, BatchSize, NotifyAll;
    var u := Next(nBatchSize, s, a);
    match a
    case Add(checks, notified) =>
      AddNotifies(s, checks, notified);
      if |checks| == 1 && WaitingWorkers(s) != {} {
        assert u.threads[notified].Woken?;
      }
    case Wake(t) => assert u.threads[t].Woken?;
    case Execute(t) => assert u.threads[t].Working?;
    case _ => assert u.queue != [] ==> u.threads[a.thread].Working?;
  }

  /** In every run, checks are never left in the queue with all the workers asleep. */
  lemma {:induction false} RunIsAwake(nBatchSize: nat, workers: nat, states: seq<State>, actions: seq<Action>, i: nat)
    requires IsRun(nBatchSize, states, actions) && states[0] == Init(workers) && i <= |actions|
    ensures Awake(states[i])
  {
    hide Inv, Next, AtHead;
    if i > 0 {
      RunIsAwake(nBatchSize, workers, states, actions, i - 1);
      RunOk(nBatchSize, workers, states, actions, i - 1);
      assert Enabled(states[i - 1], actions[i - 1]);
      AwakeStays(nBatchSize, states[i - 1], actions[i - 1]);
    }
  }

  lemma {:induction false} TakeBackAt(queue: seq<Check>, n: nat, j: nat)
    requires j < n <= |queue|
    ensures TakeBack(queue, n)[j] == queue[|queue| - 1 - j]
  {
    if j > 0 {
      TakeBackAt(queue[..|queue| - 1], n - 1, j - 1);
    }
  }

  /** A batch comes off the back of the queue, last first, and is not executed once a check has failed. */
  lemma BatchTaken(nBatchSize: nat, s: State, t: nat)
    requires t < |s.threads| && s.nTotal + s.nIdle >= 0 && s.queue != []
    ensures var u := LoopHead(nBatchSize, s, t);
            var w, n := u.threads[t], BatchSize(nBatchSize, s);
            && w.Working? && w.next == 0 && w.fOk == s.fAllOk && |w.batch| == n
            && u == s.(threads := s.threads[t := w], queue := s.queue[..|s.queue| - n])
            && forall j :: 0 <= j < n ==> w.batch[j] == s.queue[|s.queue| - 1 - j]
  {
    var n := BatchSize(nBatchSize, s);
    forall j | 0 <= j < n
      ensures TakeBack(s.queue, n)[j] == s.queue[|s.queue| - 1 - j]
    {
      TakeBackAt(s.queue, n, j);
    }
  }

  // ----- Progress -----

  function Rank(s: State): nat {
    3 * |s.queue| + Count(s.threads, Left)
  }

  lemma HeadRank(s: State, a: Action)
    requires Enabled(s, a) && TakesLock(a)
    ensures Rank(AtHead(s, a)) <= Rank(s)
  {
    hide Count;
    var t := a.thread;
    CountUpdate(s.threads, t, Deciding, Left);
    var base := s.threads[t := Deciding];
    if 0 < |base| && base[0].Waiting? {
      CountUpdate(base, 0, Woken, Left);
    }
  }

  lemma LoopHeadRank(nBatchSize: nat, s: State, t: nat)
    requires t < |s.threads| && s.threads[t].Deciding? && s.nTotal + s.nIdle >= 0 && !Returns(s, t)
    ensures Rank(LoopHead(nBatchSize, s, t)) < Rank(s)
  {
    hide Count, TakeBack;
    CountUpdate(s.threads, t, LoopHead(nBatchSize, s, t).threads[t], Left);
  }

  /** Every step of a run but an unasked wake-up uses up a fixed budget, until the master leaves or adds work. */
  lemma StepUsesBudget(nBatchSize: nat, s: State, a: Action)
    requires Enabled(s, a) && Defined(s, a) && !a.Add? && !Leaves(s, a)
    ensures a.Wake? ==> Rank(Next(nBatchSize, s, a)) == Rank(s) + 1
    ensures !a.Wake? ==> Rank(Next(nBatchSize, s, a)) < Rank(s)
  {
    hide Count;
    if TakesLock(a) {
      HeadRank(s, a);
      LoopHeadRank(nBatchSize, AtHead(s, a), a.thread);
    } else {
      CountUpdate(s.threads, a.thread, Next(nBatchSize, s, a).threads[a.thread], Left);
    }
  }

  function Wakes(actions: seq<Action>): nat {
    if actions == [] then 0 else Wakes(actions[..|actions| - 1]) + if actions[|actions| - 1].Wake? then 1 else 0
  }

  /**
   * A wait in which nobody adds work ends: its length is bounded by the state it starts in and the unasked
   * wake-ups.
   */
  lemma {:induction false} WaitIsBounded(nBatchSize: nat, states: seq<State>, actions: seq<Action>)
    requires IsRun(nBatchSize, states, actions) && Inv(states[0])
    requires forall i :: 0 <= i < |actions| ==> !actions[i].Add? && !Leaves(states[i], actions[i])
    ensures Inv(states[|actions|]) && |actions| + Rank(states[|actions|]) <= Rank(states[0]) + 2 * Wakes(actions)
    decreases |actions|
  {
    hide Inv, Next, Leaves, Rank;
    if actions != [] {
      var n := |actions| - 1;
      WaitIsBounded(nBatchSize, states[..n + 1], actions[..n]);
      assert Enabled(states[n], actions[n]);
      StepOk(nBatchSize, states[n], actions[n]);
      StepUsesBudget(nBatchSize, states[n], actions[n]);
    }
  }

  /** While the master is in the loop some thread in the loop can go on without an unasked wake-up. */
  lemma NoDeadlock(s: State) returns (a: Action)
    requires Inv(s) && !s.threads[0].Out?
    ensures Enabled(s, a) && (a.Resume? || a.Execute? || a.Finish?)
  {
    hide Count;
    var t := 0;
    if s.threads[0].Waiting? {
      t := SomeHolds(s.threads);
    }
    var w := s.threads[t];
    a := if w.Woken? then Resume(t) else if w.next < |w.batch| then Execute(t) else Finish(t);
  }

  lemma {:induction false} SomeIsIn(threads: seq<Thread>) returns (i: nat)
    requires Count(threads, Total) > 0
    ensures i < |threads| && !threads[i].Out?
    decreases |threads|
  {
    i := |threads| - 1;
    if threads[i].Out? {
      i := SomeIsIn(threads[..i]);
    }
  }

  /** With checks in the queue and any thread in the loop, master or not, some thread can go on by itself. */
  lemma NoStall(s: State) returns (a: Action)
    requires Inv(s) && Awake(s) && s.queue != [] && s.nTotal > 0
    ensures Enabled(s, a) && (a.Resume? || a.Execute? || a.Finish?)
  {
    hide Count;
    var t := SomeIsIn(s.threads);
    if s.threads[t].Waiting? {
      assert t in WaitingWorkers(s);
      t :| 0 <= t < |s.threads| && (s.threads[t].Woken? || s.threads[t].Working?);
    }
    var w := s.threads[t];
    a := if w.Woken? then Resume(t) else if w.next < |w.batch| then Execute(t) else Finish(t);
  }

  /** The master is never asleep with nothing to do. */
  lemma SleepingMasterHasWork(s: State)
    requires Inv(s) && s.threads[0].Waiting?
    ensures s.nTodo > 0 && exists i :: 0 < i < |s.threads| && s.threads[i].Working? && s.threads[i].batch != []
  {
    hide Count;
    var i := SomeHolds(s.threads);
  }
}
