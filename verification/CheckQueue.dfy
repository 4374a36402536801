/**
 The parallel check queue of src/checkqueue.h as an interleaving of atomic steps.

 A step is one critical section of a thread, one check executed outside the lock, one
 notification sent after the lock was released, or a spurious wake-up.  Thread 0 is the
 master; every other thread is a worker.  No stop is requested.
 */
module CheckQueue {

  /** A check is known by a number; `good` says what running it returns. */
  type Check = nat

  datatype Phase =
    | Outside                                          // the master, between calls of Wait
    | Notifying(all: bool)                             // the master, Add released the lock
    | Entering                                         // about to run the loop for the first time
    | Waiting                                          // blocked on a condition variable
    | Woken                                            // about to take the lock again
    | Working(batch: seq<Check>, next: nat, ok: bool)  // holds a batch, `next` of it executed

  /** What one call of Wait returned, and the checks added since the call before. */
  datatype Verdict = Verdict(added: seq<Check>, result: bool)

  /** `added` and `reported` are history: they say what happened since the last Wait. */
  datatype State = State(
    queue: seq<Check>, nIdle: int, nTotal: int, allOk: bool, nTodo: int,
    threads: seq<Phase>,
    added: seq<Check>, reported: seq<Check>, log: seq<Verdict>)

  datatype Step =
    | Add(checks: seq<Check>)
    | Notify(worker: nat)
    | CallWait
    | Lock(thread: nat)
    | Execute(thread: nat)
    | Spurious(thread: nat)

  function Init(workers: nat): State {
    State([], 0, 0, true, 0, [Outside] + seq(workers, _ => Entering), [], [], [])
  }

  predicate ReadyToLock(p: Phase) {
    p.Entering? || p.Woken? || (p.Working? && p.next >= |p.batch|)
  }

  predicate NobodyWaits(threads: seq<Phase>) {
    forall i :: 1 <= i < |threads| ==> !threads[i].Waiting?
  }

  predicate Enabled(s: State, step: Step) {
    && |s.threads| > 0
    && match step
       case Add(_) => s.threads[0].Outside?
       case CallWait => s.threads[0].Outside?
       case Notify(w) =>
         && s.threads[0].Notifying?
         && (s.threads[0].all || NobodyWaits(s.threads) || (1 <= w < |s.threads| && s.threads[w].Waiting?))
       case Lock(i) => i < |s.threads| && ReadyToLock(s.threads[i])
       case Execute(i) => i < |s.threads| && s.threads[i].Working? && s.threads[i].next < |s.threads[i].batch|
       case Spurious(i) => i < |s.threads| && s.threads[i].Waiting?
  }

  function Wake(p: Phase): Phase {
    if p.Waiting? then Woken else p
  }

  function SetThread(s: State, i: nat, p: Phase): State
    requires i < |s.threads|
  {
    s.(threads := s.threads[i := p])
  }

  /** The clean-up of the previous round, at the start of a critical section. */
  function CleanUp(s: State, i: nat): State
    requires i < |s.threads|
  {
    match s.threads[i]
    case Working(batch, _, ok) =>
      var left := s.nTodo - |batch|;
      s.(allOk := s.allOk && ok, nTodo := left, reported := s.reported + batch,
         threads := (if left == 0 && i != 0 then s.threads[0 := Wake(s.threads[0])] else s.threads)[i := Entering])
    case Woken => SetThread(s.(nIdle := s.nIdle - 1), i, Entering)
    case _ => s.(nTotal := s.nTotal + 1)
  }

  lemma ShareBound(x: nat, n: nat)
    requires n > 0
    ensures 0 <= x / n <= x
  {
    var q := x / n;
    assert x == n * q + x % n;
    Product(n - 1, q);
    assert n * q == (n - 1) * q + q;
  }

  lemma Product(a: nat, b: nat)
    ensures a * b >= 0
  {
  }

  /** How many checks a thread takes at once. */
  function BatchSize(s: State, nBatchSize: nat): (nNow: nat)
    ensures s.queue != [] ==> 1 <= nNow <= |s.queue|
  {
    var sharers := s.nTotal + s.nIdle + 1;
    var share := if sharers > 0 then ShareBound(|s.queue|, sharers); |s.queue| / sharers else |s.queue|;
    var capped := if nBatchSize < share then nBatchSize else share;
    if capped < 1 then 1 else capped
  }

  /** The rest of the critical section: return, wait, or take a batch from the end of the queue. */
  function Proceed(s: State, i: nat, nBatchSize: nat): State
    requires i < |s.threads|
  {
    if s.queue == [] then
      if i == 0 && s.nTodo == 0 then
        SetThread(s.(nTotal := s.nTotal - 1, allOk := true, added := [], reported := [],
                     log := s.log + [Verdict(s.added, s.allOk)]), 0, Outside)
      else
        SetThread(s.(nIdle := s.nIdle + 1), i, Waiting)
    else
      var keep := |s.queue| - BatchSize(s, nBatchSize);
      SetThread(s.(queue := s.queue[..keep]), i, Working(s.queue[keep..], 0, s.allOk))
  }

  function Apply(s: State, step: Step, good: Check -> bool, nBatchSize: nat): State
    requires Enabled(s, step)
  {
    match step
    case Add(checks) =>
      if checks == [] then s else
      SetThread(s.(queue := s.queue + checks, nTodo := s.nTodo + |checks|, added := s.added + checks),
                0, Notifying(|checks| != 1))
    case Notify(w) =>
      var woken := if s.threads[0].all then seq(|s.threads|, i requires 0 <= i < |s.threads| => Wake(s.threads[i]))
                   else if 1 <= w < |s.threads| then s.threads[w := Wake(s.threads[w])]
                   else s.threads;
      s.(threads := woken[0 := Outside])
    case CallWait => SetThread(s, 0, Entering)
    case Lock(i) => Proceed(CleanUp(s, i), i, nBatchSize)
    case Execute(i) =>
      var p := s.threads[i];
      SetThread(s, i, p.(next := p.next + 1, ok := p.ok && good(p.batch[p.next])))
    case Spurious(i) => SetThread(s, i, Woken)
  }

  // ----- Counting over the threads -----

  function Batch(p: Phase): multiset<Check> {
    if p.Working? then multiset(p.batch) else multiset{}
  }

  ghost function InFlight(ts: seq<Phase>): multiset<Check> {
    if ts == [] then multiset{} else Batch(ts[0]) + InFlight(ts[1..])
  }

  ghost function Sum(ts: seq<Phase>, f: Phase -> int): int {
    if ts == [] then 0 else f(ts[0]) + Sum(ts[1..], f)
  }

  lemma {:induction false} InFlightUpdate(ts: seq<Phase>, i: nat, p: Phase)
    requires i < |ts|
    ensures InFlight(ts[i := p]) + Batch(ts[i]) == InFlight(ts) + Batch(p)
  {
    hide Batch;
    if i == 0 {
      assert ts[0 := p][1..] == ts[1..];
      BagSwap(Batch(p), InFlight(ts[1..]), Batch(ts[0]));
    } else {
      InFlightUpdate(ts[1..], i - 1, p);
      assert ts[i := p][1..] == ts[1..][i - 1 := p];
      BagShift(Batch(ts[0]), InFlight(ts[i := p][1..]), Batch(ts[i]), InFlight(ts[1..]), Batch(p));
    }
  }

  lemma BagSwap(a: multiset<Check>, b: multiset<Check>, c: multiset<Check>)
    ensures (a + b) + c == (c + b) + a
  {
  }

  lemma BagShift(a: multiset<Check>, x: multiset<Check>, b: multiset<Check>, y: multiset<Check>, c: multiset<Check>)
    requires x + b == y + c
    ensures (a + x) + b == (a + y) + c
  {
    assert (a + x) + b == a + (x + b) && (a + y) + c == a + (y + c);
  }

  lemma {:induction false} SumUpdate(ts: seq<Phase>, i: nat, p: Phase, f: Phase -> int)
    requires i < |ts|
    ensures Sum(ts[i := p], f) == Sum(ts, f) - f(ts[i]) + f(p)
  {
    if i == 0 {
      assert ts[0 := p][1..] == ts[1..];
    } else {
      SumUpdate(ts[1..], i - 1, p, f);
      assert ts[i := p][1..] == ts[1..][i - 1 := p];
    }
  }

  lemma {:induction false} SumNonNegative(ts: seq<Phase>, f: Phase -> int)
    requires forall p :: f(p) >= 0
    ensures Sum(ts, f) >= 0
  {
    if ts != [] {
      SumNonNegative(ts[1..], f);
    }
  }

  lemma {:induction false} InFlightHas(ts: seq<Phase>, i: nat)
    requires i < |ts|
    ensures Batch(ts[i]) <= InFlight(ts)
  {
    if i > 0 {
      InFlightHas(ts[1..], i - 1);
    }
  }

  lemma {:induction false} InFlightFinds(ts: seq<Phase>) returns (i: nat)
    requires InFlight(ts) != multiset{}
    ensures i < |ts| && ts[i].Working?
  {
    if Batch(ts[0]) != multiset{} {
      i := 0;
    } else {
      var j := InFlightFinds(ts[1..]);
      i := j + 1;
    }
  }

  lemma {:induction false} SumSame(ts: seq<Phase>, us: seq<Phase>, f: Phase -> int)
    requires |ts| == |us| && forall i :: 0 <= i < |ts| ==> f(ts[i]) == f(us[i])
    ensures Sum(ts, f) == Sum(us, f)
  {
    if ts != [] {
      SumSame(ts[1..], us[1..], f);
    }
  }

  // ----- The invariant -----

  function Idle(p: Phase): int {
    if p.Waiting? || p.Woken? then 1 else 0
  }

  function InLoop(p: Phase): int {
    if p.Waiting? || p.Woken? || p.Working? then 1 else 0
  }

  ghost predicate AllGood(cs: seq<Check>, good: Check -> bool) {
    forall c :: c in cs ==> good(c)
  }

  ghost predicate PhaseOk(p: Phase, added: seq<Check>, good: Check -> bool) {
    p.Working? ==>
      && 0 < |p.batch| && p.next <= |p.batch|
      && (p.ok ==> AllGood(p.batch[..p.next], good))
      && (!p.ok ==> !AllGood(added, good))
  }

  ghost predicate ThreadsOk(ts: seq<Phase>, added: seq<Check>, good: Check -> bool) {
    && |ts| > 0
    && (forall i :: 1 <= i < |ts| ==> !ts[i].Outside? && !ts[i].Notifying?)
    && (forall i :: 0 <= i < |ts| ==> PhaseOk(ts[i], added, good))
  }

  /** Nothing is lost or duplicated, and `nTodo` counts what is not reported yet. */
  ghost predicate Conserved(s: State) {
    && s.nTodo == |s.queue| + |InFlight(s.threads)|
    && multiset(s.added) == multiset(s.queue) + InFlight(s.threads) + multiset(s.reported)
  }

  ghost predicate Verdicts(s: State, good: Check -> bool) {
    && (s.allOk ==> AllGood(s.reported, good))
    && (!s.allOk ==> !AllGood(s.added, good))
    && forall v :: v in s.log ==> (v.result <==> AllGood(v.added, good))
  }

  ghost predicate Counted(s: State, inSection: int) {
    && s.nIdle == Sum(s.threads, Idle)
    && s.nTotal == Sum(s.threads, InLoop) + inSection
  }

  ghost predicate MasterOk(s: State) {
    && |s.threads| > 0
    && (s.threads[0].Waiting? ==> s.nTodo > 0 && s.queue == [])
  }

  ghost predicate Inv(s: State, good: Check -> bool) {
    && ThreadsOk(s.threads, s.added, good)
    && MasterOk(s)
    && Conserved(s)
    && Verdicts(s, good)
    && Counted(s, 0)
  }

  /** Inside a critical section thread i is between phases, and still counted as being in the loop. */
  ghost predicate MidInv(s: State, i: nat, good: Check -> bool) {
    && i < |s.threads| && s.threads[i] == Entering
    && ThreadsOk(s.threads, s.added, good)
    && MasterOk(s)
    && Conserved(s)
    && Verdicts(s, good)
    && Counted(s, 1)
  }

  lemma CountOne(ts: seq<Phase>, i: nat, p: Phase)
    requires i < |ts|
    ensures Sum(ts[i := p], Idle) == Sum(ts, Idle) - Idle(ts[i]) + Idle(p)
    ensures Sum(ts[i := p], InLoop) == Sum(ts, InLoop) - InLoop(ts[i]) + InLoop(p)
  {
    SumUpdate(ts, i, p, Idle);
    SumUpdate(ts, i, p, InLoop);
  }

  /** Moving a batch between the queue, a thread and the reported checks conserves everything. */
  lemma ConserveMove(s: State, s': State, i: nat, p: Phase)
    requires Conserved(s) && i < |s.threads|
    requires InFlight(s'.threads) == InFlight(s.threads[i := p])
    requires s'.added == s.added
    requires s'.nTodo == s.nTodo + |s.reported| - |s'.reported|
    requires multiset(s'.queue) + Batch(p) + multiset(s'.reported) ==
             multiset(s.queue) + Batch(s.threads[i]) + multiset(s.reported)
    ensures Conserved(s')
  {
    hide InFlight, Batch;
    var a, b, q, q' := Batch(s.threads[i]), Batch(p), multiset(s.queue), multiset(s'.queue);
    var f, f', r, r' := InFlight(s.threads), InFlight(s'.threads), multiset(s.reported), multiset(s'.reported);
    InFlightUpdate(s.threads, i, p);
    assert (q + f + r) + (b + a) == (q + a + r) + (f + b) == (q' + b + r') + (f' + a) == (q' + f' + r') + (b + a);
    assert q + f + r == q' + f' + r' by {
      forall c ensures (q + f + r)[c] == (q' + f' + r')[c] {
        assert ((q + f + r) + (b + a))[c] == ((q' + f' + r') + (b + a))[c];
      }
    }
    assert |q + f + r| == |q' + f' + r'|;
  }

  /** Changing one thread to a phase that is consistent keeps all threads consistent. */
  lemma OneThreadOk(ts: seq<Phase>, i: nat, p: Phase, added: seq<Check>, good: Check -> bool)
    requires ThreadsOk(ts, added, good) && i < |ts|
    requires PhaseOk(p, added, good)
    requires p.Outside? || p.Notifying? ==> i == 0
    ensures ThreadsOk(ts[i := p], added, good)
  {
  }

  lemma AllGoodJoin(a: seq<Check>, b: seq<Check>, good: Check -> bool)
    ensures AllGood(a + b, good) <==> AllGood(a, good) && AllGood(b, good)
  {
    assert forall c :: c in a ==> c in a + b;
    assert forall c :: c in b ==> c in a + b;
  }

  /** The master, or what becomes of it when a worker reports the last checks. */
  function MasterAfter(s: State, i: nat): Phase
    requires 0 < |s.threads| && i < |s.threads| && s.threads[i].Working?
  {
    if s.nTodo - |s.threads[i].batch| == 0 && i != 0 then Wake(s.threads[0]) else s.threads[0]
  }

  lemma ReportThreads(s: State, i: nat)
    requires 0 < |s.threads| && i < |s.threads| && s.threads[i].Working?
    ensures CleanUp(s, i).threads == s.threads[0 := MasterAfter(s, i)][i := Entering]
    ensures Batch(MasterAfter(s, i)) == Batch(s.threads[0])
  {
  }

  lemma ReportPhases(s: State, i: nat, good: Check -> bool)
    requires ThreadsOk(s.threads, s.added, good) && i < |s.threads| && 0 < |s.threads| && s.threads[i].Working?
    ensures ThreadsOk(CleanUp(s, i).threads, s.added, good)
  {
    hide ThreadsOk, AllGood;
    ReportThreads(s, i);
    PhaseOf(s, 0, good);
    OneThreadOk(s.threads, 0, MasterAfter(s, i), s.added, good);
    OneThreadOk(s.threads[0 := MasterAfter(s, i)], i, Entering, s.added, good);
  }

  lemma ReportCounts(s: State, i: nat)
    requires Counted(s, 0) && i < |s.threads| && 0 < |s.threads| && s.threads[i].Working?
    ensures Counted(CleanUp(s, i), 1)
  {
    hide Sum;
    ReportThreads(s, i);
    var mid := s.threads[0 := MasterAfter(s, i)];
    CountOne(s.threads, 0, MasterAfter(s, i));
    CountOne(mid, i, Entering);
  }

  lemma ReportVerdicts(s: State, i: nat, good: Check -> bool)
    requires Verdicts(s, good) && i < |s.threads| && PhaseOk(s.threads[i], s.added, good)
    requires s.threads[i].Working? && ReadyToLock(s.threads[i])
    ensures Verdicts(CleanUp(s, i), good)
  {
    hide AllGood;
    var p := s.threads[i];
    assert p.batch[..p.next] == p.batch;
    AllGoodJoin(s.reported, p.batch, good);
  }

  lemma ReportMaster(s: State, i: nat)
    requires MasterOk(s) && i < |s.threads| && s.threads[i].Working? && Conserved(CleanUp(s, i))
    ensures MasterOk(CleanUp(s, i))
  {
    hide InFlight;
  }

  lemma ReportKeeps(s: State, i: nat, good: Check -> bool)
    requires Inv(s, good)
    requires i < |s.threads| && s.threads[i].Working? && ReadyToLock(s.threads[i])
    ensures MidInv(CleanUp(s, i), i, good)
  {
    hide Sum, InFlight, AllGood, Conserved, ThreadsOk, MasterOk, Verdicts, Counted;
    MasterExists(s, good);
    PhaseOf(s, i, good);
    ReportThreads(s, i);
    ReportPhases(s, i, good);
    ReportConserves(s, i, MasterAfter(s, i));
    ReportMaster(s, i);
    ReportVerdicts(s, i, good);
    ReportCounts(s, i);
  }

  lemma MasterExists(s: State, good: Check -> bool)
    requires ThreadsOk(s.threads, s.added, good)
    ensures 0 < |s.threads|
  {
  }

  lemma PhaseOf(s: State, i: nat, good: Check -> bool)
    requires ThreadsOk(s.threads, s.added, good) && i < |s.threads|
    ensures PhaseOk(s.threads[i], s.added, good)
    ensures s.threads[i].Outside? || s.threads[i].Notifying? ==> i == 0
  {
  }

  lemma ReportMoves(q: multiset<Check>, r: multiset<Check>, b: multiset<Check>)
    ensures q + multiset{} + (r + b) == q + b + r
  {
  }

  lemma ReportConserves(s: State, i: nat, m: Phase)
    requires Conserved(s) && 0 < |s.threads| && i < |s.threads| && s.threads[i].Working?
    requires Batch(m) == Batch(s.threads[0])
    requires CleanUp(s, i).threads == s.threads[0 := m][i := Entering]
    ensures Conserved(CleanUp(s, i))
  {
    hide InFlight, Conserved;
    var s' := CleanUp(s, i);
    InFlightSame(s.threads[i := Entering], s'.threads);
    assert multiset(s'.reported) == multiset(s.reported) + multiset(s.threads[i].batch);
    ReportMoves(multiset(s.queue), multiset(s.reported), multiset(s.threads[i].batch));
    ConserveMove(s, s', i, Entering);
  }

  lemma {:induction false} InFlightSame(ts: seq<Phase>, us: seq<Phase>)
    requires |ts| == |us| && forall i :: 0 <= i < |ts| ==> Batch(ts[i]) == Batch(us[i])
    ensures InFlight(ts) == InFlight(us)
  {
    if ts != [] {
      InFlightSame(ts[1..], us[1..]);
    }
  }

  lemma SameVerdicts(s: State, s': State, good: Check -> bool)
    requires Verdicts(s, good) && s'.allOk == s.allOk && s'.reported == s.reported && s'.added == s.added && s'.log == s.log
    ensures Verdicts(s', good)
  {
  }

  lemma CleanUpKeeps(s: State, i: nat, good: Check -> bool)
    requires Inv(s, good)
    requires i < |s.threads| && ReadyToLock(s.threads[i])
    ensures MidInv(CleanUp(s, i), i, good)
  {
    if s.threads[i].Working? {
      ReportKeeps(s, i, good);
    } else {
      hide AllGood, Conserved, ThreadsOk, Verdicts, Counted, Sum, InFlight;
      var s' := CleanUp(s, i);
      EnterPhase(s, i);
      EnterCounts(s, i);
      OneThreadOk(s.threads, i, Entering, s.added, good);
      EnterConserves(s, i);
      SameVerdicts(s, s', good);
    }
  }

  /** A thread that has nothing to report. */
  lemma EnterPhase(s: State, i: nat)
    requires i < |s.threads| && ReadyToLock(s.threads[i]) && !s.threads[i].Working?
    ensures var s' := CleanUp(s, i);
            && s'.threads == s.threads[i := Entering] && s'.queue == s.queue && s'.nTodo == s.nTodo
            && s'.allOk == s.allOk && s'.added == s.added && s'.reported == s.reported && s'.log == s.log
  {
    assert s.threads[i].Entering? ==> s.threads[i := Entering] == s.threads;
  }

  lemma EnterCounts(s: State, i: nat)
    requires i < |s.threads| && ReadyToLock(s.threads[i]) && !s.threads[i].Working? && Counted(s, 0)
    ensures Counted(CleanUp(s, i), 1)
  {
    hide Sum;
    EnterPhase(s, i);
    CountOne(s.threads, i, Entering);
  }

  lemma EnterConserves(s: State, i: nat)
    requires i < |s.threads| && ReadyToLock(s.threads[i]) && !s.threads[i].Working? && Conserved(s)
    ensures Conserved(CleanUp(s, i))
  {
    hide InFlight, Conserved;
    EnterPhase(s, i);
    ConserveMove(s, CleanUp(s, i), i, Entering);
  }

  /** When nothing is left to do no thread holds a batch, and everything added was reported. */
  lemma NothingLeft(s: State, i: nat, good: Check -> bool)
    requires MidInv(s, i, good) && s.queue == [] && s.nTodo == 0
    ensures forall j :: 0 <= j < |s.threads| ==> !s.threads[j].Working?
    ensures InFlight(s.threads) == multiset{}
    ensures AllGood(s.reported, good) <==> AllGood(s.added, good)
  {
    assert |InFlight(s.threads)| == 0;
    assert multiset(s.added) == multiset(s.reported);
    assert forall c :: c in s.added <==> c in multiset(s.added);
    assert forall c :: c in s.reported <==> c in multiset(s.reported);
    forall j | 0 <= j < |s.threads|
      ensures !s.threads[j].Working?
    {
      assert PhaseOk(s.threads[j], s.added, good);
      InFlightHas(s.threads, j);
      assert |Batch(s.threads[j])| == 0;
    }
  }

  lemma ReturnKeeps(s: State, good: Check -> bool, nBatchSize: nat)
    requires MidInv(s, 0, good) && s.queue == [] && s.nTodo == 0
    ensures Inv(Proceed(s, 0, nBatchSize), good)
  {
    hide Sum, InFlight;
    var s' := Proceed(s, 0, nBatchSize);
    NothingLeft(s, 0, good);
    CountOne(s.threads, 0, Outside);
    InFlightSame(s.threads, s'.threads);
  }

  lemma TakeKeeps(s: State, i: nat, good: Check -> bool, nBatchSize: nat)
    requires MidInv(s, i, good) && s.queue != []
    ensures Inv(Proceed(s, i, nBatchSize), good)
  {
    hide Sum, InFlight, Conserved, ThreadsOk, BatchSize;
    var s' := Proceed(s, i, nBatchSize);
    var p, keep := s'.threads[i], |s.queue| - BatchSize(s, nBatchSize);
    assert p == Working(s.queue[keep..], 0, s.allOk);
    assert s.queue == s.queue[..keep] + s.queue[keep..];
    assert p.batch[..0] == [];
    CountOne(s.threads, i, p);
    OneThreadOk(s.threads, i, p, s.added, good);
    ConserveMove(s, s', i, p);
  }

  lemma TodoNotNegative(s: State)
    requires Conserved(s)
    ensures s.nTodo >= 0
  {
  }

  lemma WaitKeeps(s: State, i: nat, good: Check -> bool, nBatchSize: nat)
    requires MidInv(s, i, good) && s.queue == [] && (i != 0 || s.nTodo != 0)
    ensures Inv(Proceed(s, i, nBatchSize), good)
  {
    TodoNotNegative(s);
    hide Sum, InFlight, AllGood, ThreadsOk, Conserved;
    CountOne(s.threads, i, Waiting);
    OneThreadOk(s.threads, i, Waiting, s.added, good);
    ConserveMove(s, Proceed(s, i, nBatchSize), i, Waiting);
  }

  lemma ProceedKeeps(s: State, i: nat, good: Check -> bool, nBatchSize: nat)
    requires MidInv(s, i, good)
    ensures Inv(Proceed(s, i, nBatchSize), good)
  {
    hide *;
    if s.queue != [] {
      TakeKeeps(s, i, good, nBatchSize);
    } else if i == 0 && s.nTodo == 0 {
      ReturnKeeps(s, good, nBatchSize);
    } else {
      WaitKeeps(s, i, good, nBatchSize);
    }
  }

  lemma ExecutedPhase(s: State, i: nat, good: Check -> bool)
    requires Inv(s, good) && Enabled(s, Execute(i))
    ensures var p := s.threads[i];
            PhaseOk(p.(next := p.next + 1, ok := p.ok && good(p.batch[p.next])), s.added, good)
  {
    hide Sum, InFlight, ThreadsOk;
    var p := s.threads[i];
    var c := p.batch[p.next];
    PhaseOf(s, i, good);
    assert p.batch[..p.next + 1] == p.batch[..p.next] + [c];
    assert c in s.added by {
      InFlightHas(s.threads, i);
      assert c in multiset(p.batch);
      assert c in multiset(s.added);
    }
  }

  lemma ExecuteKeeps(s: State, i: nat, good: Check -> bool, nBatchSize: nat)
    requires Inv(s, good) && Enabled(s, Execute(i))
    ensures Inv(Apply(s, Execute(i), good, nBatchSize), good)
  {
    hide Sum, InFlight, ThreadsOk, PhaseOk, Conserved, AllGood;
    var p := s.threads[i];
    var c := p.batch[p.next];
    var p' := p.(next := p.next + 1, ok := p.ok && good(c));
    CountOne(s.threads, i, p');
    ConserveMove(s, Apply(s, Execute(i), good, nBatchSize), i, p');
    ExecutedPhase(s, i, good);
    OneThreadOk(s.threads, i, p', s.added, good);
  }

  lemma NotifyKeeps(s: State, w: nat, good: Check -> bool, nBatchSize: nat)
    requires Inv(s, good) && Enabled(s, Notify(w))
    ensures Inv(Apply(s, Notify(w), good, nBatchSize), good)
  {
    hide Sum, InFlight, AllGood, PhaseOk;
    var s' := Apply(s, Notify(w), good, nBatchSize);
    WakeOnly(s, s', w);
    SumSame(s.threads, s'.threads, Idle);
    SumSame(s.threads, s'.threads, InLoop);
    InFlightSame(s.threads, s'.threads);
    WakeOk(s.threads, s'.threads, s.added, good);
  }

  lemma WakeOnly(s: State, s': State, w: nat)
    requires Enabled(s, Notify(w)) && s' == Apply(s, Notify(w), _ => true, 0)
    ensures |s'.threads| == |s.threads| && s'.threads[0] == Outside
    ensures forall i :: 1 <= i < |s.threads| ==> s'.threads[i] == s.threads[i] || s'.threads[i] == Wake(s.threads[i])
    ensures s' == s.(threads := s'.threads)
  {
  }

  lemma WakeOk(ts: seq<Phase>, us: seq<Phase>, added: seq<Check>, good: Check -> bool)
    requires ThreadsOk(ts, added, good) && |us| == |ts| && us[0] == Outside
    requires forall i :: 1 <= i < |ts| ==> us[i] == ts[i] || us[i] == Wake(ts[i])
    ensures ThreadsOk(us, added, good)
  {
    forall i | 0 <= i < |us|
      ensures PhaseOk(us[i], added, good)
    {
      assert PhaseOk(ts[i], added, good);
    }
  }

  lemma AddKeeps(s: State, checks: seq<Check>, good: Check -> bool, nBatchSize: nat)
    requires Inv(s, good) && Enabled(s, Add(checks))
    ensures Inv(Apply(s, Add(checks), good, nBatchSize), good)
  {
    hide Sum, InFlight, AllGood, Conserved;
    if checks != [] {
      var s' := Apply(s, Add(checks), good, nBatchSize);
      AllGoodJoin(s.added, checks, good);
      CountOne(s.threads, 0, s'.threads[0]);
      AddConserves(s, s', checks);
    }
  }

  lemma AddConserves(s: State, s': State, checks: seq<Check>)
    requires Conserved(s) && |s.threads| > 0 && s.threads[0].Outside?
    requires s'.threads == s.threads[0 := Notifying(|checks| != 1)]
    requires s'.queue == s.queue + checks && s'.added == s.added + checks && s'.reported == s.reported
    requires s'.nTodo == s.nTodo + |checks|
    ensures Conserved(s')
  {
    hide InFlight;
    InFlightSame(s.threads, s'.threads);
    assert multiset(s.added + checks) == multiset(s.added) + multiset(checks);
    assert multiset(s.queue + checks) == multiset(s.queue) + multiset(checks);
  }

  lemma MoveOneKeeps(s: State, i: nat, p: Phase, good: Check -> bool)
    requires Inv(s, good) && i < |s.threads|
    requires if s.threads[i].Waiting? then p == Woken else s.threads[i].Outside? && p == Entering && i == 0
    ensures Inv(SetThread(s, i, p), good)
  {
    hide Sum, InFlight, AllGood, ThreadsOk, Conserved;
    CountOne(s.threads, i, p);
    OneThreadOk(s.threads, i, p, s.added, good);
    ConserveMove(s, SetThread(s, i, p), i, p);
  }

  /** Every step of every thread keeps the invariant. */
  lemma StepKeeps(s: State, step: Step, good: Check -> bool, nBatchSize: nat)
    requires Inv(s, good) && Enabled(s, step)
    ensures Inv(Apply(s, step, good, nBatchSize), good)
  {
    hide Inv;
    match step {
      case Add(checks) => AddKeeps(s, checks, good, nBatchSize);
      case Notify(w) => NotifyKeeps(s, w, good, nBatchSize);
      case Lock(i) =>
        CleanUpKeeps(s, i, good);
        ProceedKeeps(CleanUp(s, i), i, good, nBatchSize);
      case Execute(i) => ExecuteKeeps(s, i, good, nBatchSize);
      case CallWait => MoveOneKeeps(s, 0, Entering, good);
      case Spurious(i) => MoveOneKeeps(s, i, Woken, good);
    }
  }

  // ----- Whole runs -----

  /** `ss` is a run: each state follows from the one before by an enabled step. */
  ghost predicate IsRun(ss: seq<State>, steps: seq<Step>, good: Check -> bool, nBatchSize: nat) {
    && |ss| == |steps| + 1
    && forall k :: 0 <= k < |steps| ==> Enabled(ss[k], steps[k]) && ss[k + 1] == Apply(ss[k], steps[k], good, nBatchSize)
  }

  lemma {:induction false} RunKeeps(ss: seq<State>, steps: seq<Step>, good: Check -> bool, nBatchSize: nat, k: nat)
    requires IsRun(ss, steps, good, nBatchSize) && Inv(ss[0], good)
    requires k < |ss|
    ensures Inv(ss[k], good)
  {
    if k > 0 {
      RunKeeps(ss, steps, good, nBatchSize, k - 1);
      StepKeeps(ss[k - 1], steps[k - 1], good, nBatchSize);
    }
  }

  lemma {:induction false} InitSums(n: nat, f: Phase -> int)
    requires f(Entering) == 0
    ensures Sum(seq(n, _ => Entering), f) == 0 && InFlight(seq(n, _ => Entering)) == multiset{}
  {
    if n > 0 {
      InitSums(n - 1, f);
      assert seq(n, _ => Entering)[1..] == seq(n - 1, _ => Entering);
    }
  }

  lemma InitOk(workers: nat, good: Check -> bool)
    ensures Inv(Init(workers), good)
  {
    InitSums(workers, Idle);
    InitSums(workers, InLoop);
    assert Init(workers).threads[1..] == seq(workers, _ => Entering);
  }

  // ----- What a run did, read off its steps -----

  /** The checks that step `k` handed over. */
  ghost function HandedOver(step: Step): seq<Check> {
    if step.Add? then step.checks else []
  }

  /** All checks that a list of steps handed over. */
  ghost function AddedBy(steps: seq<Step>): seq<Check> {
    if steps == [] then [] else AddedBy(steps[..|steps| - 1]) + HandedOver(steps[|steps| - 1])
  }

  predicate MasterInWait(s: State) {
    |s.threads| > 0 && !s.threads[0].Outside? && !s.threads[0].Notifying?
  }

  /** Step `k` takes the master out of Wait. */
  ghost predicate Returns(ss: seq<State>, k: nat)
    requires k + 1 < |ss|
  {
    MasterInWait(ss[k]) && !MasterInWait(ss[k + 1])
  }

  /** The checks that were handed over after the last Wait that returned before step `k`. */
  ghost function SinceWait(ss: seq<State>, steps: seq<Step>, k: nat): seq<Check>
    requires |ss| == |steps| + 1 && k < |ss|
  {
    if k == 0 then [] else
    if Returns(ss, k - 1) then [] else SinceWait(ss, steps, k - 1) + HandedOver(steps[k - 1])
  }

  ghost function CallsOfWait(steps: seq<Step>): nat {
    if steps == [] then 0 else CallsOfWait(steps[..|steps| - 1]) + if steps[|steps| - 1].CallWait? then 1 else 0
  }

  /** The checks behind the verdicts, in order. */
  ghost function Answered(log: seq<Verdict>): seq<Check> {
    if log == [] then [] else Answered(log[..|log| - 1]) + log[|log| - 1].added
  }

  /** One step: what is handed over is noted, and exactly a return from Wait settles it. */
  lemma StepHistory(s: State, step: Step, good: Check -> bool, nBatchSize: nat)
    requires Inv(s, good) && Enabled(s, step)
    ensures var s' := Apply(s, step, good, nBatchSize);
            && (step.CallWait? <==> !MasterInWait(s) && MasterInWait(s'))
            && (if MasterInWait(s) && !MasterInWait(s') then
                  s'.log == s.log + [Verdict(s.added, AllGood(s.added, good))] && s'.added == [] && HandedOver(step) == []
                else
                  s'.log == s.log && s'.added == s.added + HandedOver(step))
  {
    var s' := Apply(s, step, good, nBatchSize);
    hide Inv, Sum, InFlight, AllGood;
    match step {
      case Lock(i) => LockHistory(s, i, good, nBatchSize);
      case _ =>
    }
  }

  lemma LockHistory(s: State, i: nat, good: Check -> bool, nBatchSize: nat)
    requires Inv(s, good) && Enabled(s, Lock(i))
    ensures var s' := Apply(s, Lock(i), good, nBatchSize);
            && (MasterInWait(s') ==> MasterInWait(s))
            && (if MasterInWait(s) && !MasterInWait(s') then
                  s'.log == s.log + [Verdict(s.added, AllGood(s.added, good))] && s'.added == []
                else
                  s'.log == s.log && s'.added == s.added)
  {
    hide Inv, MidInv, CleanUp, Proceed, Sum, InFlight, AllGood, MasterInWait;
    CleanUpKeeps(s, i, good);
    CleanUpHistory(s, i);
    ProceedHistory(CleanUp(s, i), i, good, nBatchSize);
  }

  lemma ProceedHistory(s: State, i: nat, good: Check -> bool, nBatchSize: nat)
    requires MidInv(s, i, good)
    ensures var s' := Proceed(s, i, nBatchSize);
            if MasterInWait(s) && !MasterInWait(s') then
              s'.log == s.log + [Verdict(s.added, AllGood(s.added, good))] && s'.added == []
            else
              s'.log == s.log && s'.added == s.added && (MasterInWait(s') <==> MasterInWait(s))
  {
    hide Sum, InFlight, AllGood, BatchSize, ThreadsOk, Conserved;
    if i == 0 && s.queue == [] && s.nTodo == 0 {
      NothingLeft(s, 0, good);
    }
  }

  lemma CleanUpHistory(s: State, i: nat)
    requires i < |s.threads| && ReadyToLock(s.threads[i])
    ensures var mid := CleanUp(s, i);
            mid.log == s.log && mid.added == s.added && (MasterInWait(mid) <==> MasterInWait(s)) && |mid.threads| == |s.threads|
  {
  }

  /**
   In every run: what a Wait answered is whether all checks handed over since the Wait before are
   good; there is one answer for each call that returned, given at the step that returns; and
   the checks behind the answers and those still open are exactly those handed over.
   */
  lemma {:induction false} WaitsAnswer(workers: nat, ss: seq<State>, steps: seq<Step>, good: Check -> bool, nBatchSize: nat, k: nat)
    requires IsRun(ss, steps, good, nBatchSize) && ss[0] == Init(workers) && k < |ss|
    ensures ss[k].added == SinceWait(ss, steps, k)
    ensures Answered(ss[k].log) + SinceWait(ss, steps, k) == AddedBy(steps[..k])
    ensures |ss[k].log| + (if MasterInWait(ss[k]) then 1 else 0) == CallsOfWait(steps[..k])
    ensures k < |steps| ==>
      ss[k + 1].log == ss[k].log + if Returns(ss, k) then [Verdict(SinceWait(ss, steps, k), AllGood(SinceWait(ss, steps, k), good))] else []
    ensures k < |steps| && Returns(ss, k) ==>
      && |ss[k + 1].log| > 0
      && (ss[k + 1].log[|ss[k + 1].log| - 1].result <==> forall c :: c in SinceWait(ss, steps, k) ==> good(c))
  {
    hide *;
    RunLength(ss, steps, good, nBatchSize);
    if k < |steps| {
      StepOfRun(workers, ss, steps, good, nBatchSize, k);
      AllGoodIs(SinceWait(ss, steps, k), good);
    }
    if k == 0 {
      NothingYet(workers, ss, steps);
    } else {
      WaitsAnswer(workers, ss, steps, good, nBatchSize, k - 1);
      StepOfRun(workers, ss, steps, good, nBatchSize, k - 1);
      AddedNext(steps, k - 1);
      SinceNext(ss, steps, k - 1);
      AnsweredNext(ss[k - 1].log, Verdict(SinceWait(ss, steps, k - 1), AllGood(SinceWait(ss, steps, k - 1), good)));
      Join(Answered(ss[k - 1].log), SinceWait(ss, steps, k - 1), HandedOver(steps[k - 1]));
    }
  }

  lemma RunLength(ss: seq<State>, steps: seq<Step>, good: Check -> bool, nBatchSize: nat)
    requires IsRun(ss, steps, good, nBatchSize)
    ensures |ss| == |steps| + 1
  {
  }

  lemma AllGoodIs(cs: seq<Check>, good: Check -> bool)
    ensures AllGood(cs, good) <==> forall c :: c in cs ==> good(c)
  {
  }

  lemma StepOfRun(workers: nat, ss: seq<State>, steps: seq<Step>, good: Check -> bool, nBatchSize: nat, k: nat)
    requires IsRun(ss, steps, good, nBatchSize) && ss[0] == Init(workers) && k < |steps|
    ensures steps[k].CallWait? <==> !MasterInWait(ss[k]) && MasterInWait(ss[k + 1])
    ensures if Returns(ss, k) then
              && ss[k + 1].log == ss[k].log + [Verdict(ss[k].added, AllGood(ss[k].added, good))]
              && ss[k + 1].added == [] && HandedOver(steps[k]) == []
            else
              ss[k + 1].log == ss[k].log && ss[k + 1].added == ss[k].added + HandedOver(steps[k])
    ensures Returns(ss, k) <==> MasterInWait(ss[k]) && !MasterInWait(ss[k + 1])
  {
    InitOk(workers, good);
    RunKeeps(ss, steps, good, nBatchSize, k);
    StepHistory(ss[k], steps[k], good, nBatchSize);
    hide Inv, Apply, Enabled, MasterInWait, HandedOver, AllGood;
  }

  lemma NothingYet(workers: nat, ss: seq<State>, steps: seq<Step>)
    requires |ss| == |steps| + 1 && ss[0] == Init(workers)
    ensures ss[0].added == SinceWait(ss, steps, 0) == [] && Answered(ss[0].log) == AddedBy(steps[..0]) == []
    ensures |ss[0].log| == CallsOfWait(steps[..0]) == 0 && !MasterInWait(ss[0])
  {
  }

  lemma AddedNext(steps: seq<Step>, k: nat)
    requires k < |steps|
    ensures AddedBy(steps[..k + 1]) == AddedBy(steps[..k]) + HandedOver(steps[k])
    ensures CallsOfWait(steps[..k + 1]) == CallsOfWait(steps[..k]) + if steps[k].CallWait? then 1 else 0
  {
    assert steps[..k + 1][..k] == steps[..k];
  }

  lemma SinceNext(ss: seq<State>, steps: seq<Step>, k: nat)
    requires |ss| == |steps| + 1 && k < |steps|
    ensures SinceWait(ss, steps, k + 1) == if Returns(ss, k) then [] else SinceWait(ss, steps, k) + HandedOver(steps[k])
  {
  }

  lemma AnsweredNext(log: seq<Verdict>, v: Verdict)
    ensures Answered(log + [v]) == Answered(log) + v.added
  {
    assert (log + [v])[..|log|] == log;
  }

  lemma Join(a: seq<Check>, b: seq<Check>, c: seq<Check>)
    ensures a + (b + c) == a + b + c && a + b + [] == a + b
  {
  }

  // ----- Every check is handled once: run, or dropped because one before it failed -----

  /** The part of a batch that is not handled yet. */
  function Rest(p: Phase): multiset<Check> {
    if p.Working? && p.next <= |p.batch| then multiset(p.batch[p.next..]) else multiset{}
  }

  ghost function Unhandled(ts: seq<Phase>): multiset<Check> {
    if ts == [] then multiset{} else Rest(ts[0]) + Unhandled(ts[1..])
  }

  lemma {:induction false} UnhandledUpdate(ts: seq<Phase>, i: nat, p: Phase)
    requires i < |ts|
    ensures Unhandled(ts[i := p]) + Rest(ts[i]) == Unhandled(ts) + Rest(p)
  {
    hide Rest;
    if i == 0 {
      assert ts[0 := p][1..] == ts[1..];
      BagSwap(Rest(p), Unhandled(ts[1..]), Rest(ts[0]));
    } else {
      UnhandledUpdate(ts[1..], i - 1, p);
      assert ts[i := p][1..] == ts[1..][i - 1 := p];
      BagShift(Rest(ts[0]), Unhandled(ts[i := p][1..]), Rest(ts[i]), Unhandled(ts[1..]), Rest(p));
    }
  }

  lemma {:induction false} UnhandledSame(ts: seq<Phase>, us: seq<Phase>)
    requires |ts| == |us| && forall i :: 0 <= i < |ts| ==> Rest(ts[i]) == Rest(us[i])
    ensures Unhandled(ts) == Unhandled(us)
  {
    if ts != [] {
      UnhandledSame(ts[1..], us[1..]);
    }
  }

  /** The check that a step handles, if it is an Execute. */
  ghost function HandledBy(s: State, step: Step): multiset<Check>
    requires Enabled(s, step)
  {
    if step.Execute? then multiset{s.threads[step.thread].batch[s.threads[step.thread].next]} else multiset{}
  }

  /** All checks that the first `k` steps of a run handled. */
  ghost function AllHandled(ss: seq<State>, steps: seq<Step>, good: Check -> bool, nBatchSize: nat, k: nat): multiset<Check>
    requires IsRun(ss, steps, good, nBatchSize) && k < |ss|
  {
    if k == 0 then multiset{} else AllHandled(ss, steps, good, nBatchSize, k - 1) + HandledBy(ss[k - 1], steps[k - 1])
  }

  /** What is queued or in a batch and not handled yet. */
  ghost function Pending(s: State): multiset<Check> {
    multiset(s.queue) + Unhandled(s.threads)
  }

  /** One step: what is handed over becomes pending, and what is handled is pending no more. */
  lemma StepHandles(s: State, step: Step, good: Check -> bool, nBatchSize: nat)
    requires Enabled(s, step)
    ensures Pending(Apply(s, step, good, nBatchSize)) + HandledBy(s, step) == Pending(s) + multiset(HandedOver(step))
  {
    hide *;
    match step {
      case Add(checks) => AddHandles(s, checks, good, nBatchSize);
      case Execute(i) => ExecuteHandles(s, i, good, nBatchSize);
      case Lock(i) => LockHandles(s, i, good, nBatchSize);
      case _ => SignalHandles(s, step, good, nBatchSize);
    }
  }

  lemma AddHandles(s: State, checks: seq<Check>, good: Check -> bool, nBatchSize: nat)
    requires Enabled(s, Add(checks))
    ensures Pending(Apply(s, Add(checks), good, nBatchSize)) + HandledBy(s, Add(checks)) == Pending(s) + multiset(HandedOver(Add(checks)))
  {
    hide Unhandled;
    if checks != [] {
      UnhandledSame(s.threads, s.threads[0 := Notifying(|checks| != 1)]);
      MoreQueued(s.queue, checks, Unhandled(s.threads));
    }
  }

  /** Notifications, wake-ups and the call of Wait touch neither queue nor batches. */
  lemma SignalHandles(s: State, step: Step, good: Check -> bool, nBatchSize: nat)
    requires Enabled(s, step) && !step.Add? && !step.Execute? && !step.Lock?
    ensures Pending(Apply(s, step, good, nBatchSize)) + HandledBy(s, step) == Pending(s) + multiset(HandedOver(step))
  {
    hide Unhandled;
    UnhandledSame(s.threads, Apply(s, step, good, nBatchSize).threads);
  }

  lemma MoreQueued(q: seq<Check>, checks: seq<Check>, u: multiset<Check>)
    ensures multiset(q + checks) + u == multiset(q) + u + multiset(checks)
  {
    assert multiset(q + checks) == multiset(q) + multiset(checks);
  }

  lemma ExecuteHandles(s: State, i: nat, good: Check -> bool, nBatchSize: nat)
    requires Enabled(s, Execute(i))
    ensures Pending(Apply(s, Execute(i), good, nBatchSize)) + HandledBy(s, Execute(i)) == Pending(s) + multiset(HandedOver(Execute(i)))
  {
    hide Unhandled;
    var p := s.threads[i];
    var c := p.batch[p.next];
    var p' := p.(next := p.next + 1, ok := p.ok && good(c));
    UnhandledUpdate(s.threads, i, p');
    assert p.batch[p.next..] == [c] + p.batch[p.next + 1..];
    assert Rest(p) == multiset{c} + Rest(p');
    OneHandled(multiset(s.queue), Unhandled(s.threads[i := p']), Unhandled(s.threads), Rest(p'), multiset{c});
  }

  lemma OneHandled(q: multiset<Check>, u': multiset<Check>, u: multiset<Check>, r: multiset<Check>, c: multiset<Check>)
    requires u' + (c + r) == u + r
    ensures q + u' + c == q + u
  {
    forall x ensures (q + u' + c)[x] == (q + u)[x] {
      assert (u' + (c + r))[x] == (u + r)[x];
    }
  }

  lemma LockHandles(s: State, i: nat, good: Check -> bool, nBatchSize: nat)
    requires Enabled(s, Lock(i))
    ensures Pending(Apply(s, Lock(i), good, nBatchSize)) == Pending(s)
    ensures Pending(Apply(s, Lock(i), good, nBatchSize)) + HandledBy(s, Lock(i)) == Pending(s) + multiset(HandedOver(Lock(i)))
  {
    hide Pending, CleanUp, Proceed;
    CleanUpHandles(s, i);
    ProceedHandles(CleanUp(s, i), i, nBatchSize);
  }

  lemma CleanUpHandles(s: State, i: nat)
    requires i < |s.threads| && ReadyToLock(s.threads[i])
    ensures var mid := CleanUp(s, i); Pending(mid) == Pending(s) && i < |mid.threads| && Rest(mid.threads[i]) == multiset{}
  {
    hide Unhandled;
    UnhandledSame(s.threads, CleanUp(s, i).threads);
  }

  lemma ProceedHandles(s: State, i: nat, nBatchSize: nat)
    requires i < |s.threads| && Rest(s.threads[i]) == multiset{}
    ensures Pending(Proceed(s, i, nBatchSize)) == Pending(s)
  {
    hide Unhandled, BatchSize;
    var s' := Proceed(s, i, nBatchSize);
    if s.queue == [] {
      UnhandledSame(s.threads, s'.threads);
    } else {
      var keep := |s.queue| - BatchSize(s, nBatchSize);
      UnhandledUpdate(s.threads, i, s'.threads[i]);
      hide *;
      TakenRest(s, i, nBatchSize, keep);
      Taken(s.queue, keep, Unhandled(s.threads), Unhandled(s'.threads));
      PendingIs(s);
      PendingIs(s');
    }
  }

  lemma PendingIs(s: State)
    ensures Pending(s) == multiset(s.queue) + Unhandled(s.threads)
  {
  }

  lemma TakenRest(s: State, i: nat, nBatchSize: nat, keep: nat)
    requires i < |s.threads| && s.queue != [] && keep == |s.queue| - BatchSize(s, nBatchSize)
    ensures var s' := Proceed(s, i, nBatchSize);
            && s'.queue == s.queue[..keep] && i < |s'.threads| && Rest(s'.threads[i]) == multiset(s.queue[keep..])
            && s'.threads == s.threads[i := s'.threads[i]]
  {
    hide BatchSize;
    var b := s.queue[keep..];
    assert b[0..] == b;
  }

  lemma Taken(q: seq<Check>, keep: nat, u: multiset<Check>, u': multiset<Check>)
    requires keep <= |q| && u' + multiset{} == u + multiset(q[keep..])
    ensures multiset(q[..keep]) + u' == multiset(q) + u
  {
    assert q == q[..keep] + q[keep..];
    assert u' == u' + multiset{};
  }

  /** In every run the checks handed over are those handled so far and those pending. */
  lemma {:induction false} NoneLostNoneTwice(workers: nat, ss: seq<State>, steps: seq<Step>, good: Check -> bool, nBatchSize: nat, k: nat)
    requires IsRun(ss, steps, good, nBatchSize) && ss[0] == Init(workers) && k < |ss|
    ensures multiset(AddedBy(steps[..k])) == AllHandled(ss, steps, good, nBatchSize, k) + Pending(ss[k])
  {
    hide *;
    RunLength(ss, steps, good, nBatchSize);
    if k == 0 {
      InitPending(workers);
      NothingHandled(ss, steps, good, nBatchSize);
    } else {
      NoneLostNoneTwice(workers, ss, steps, good, nBatchSize, k - 1);
      AddedNext(steps, k - 1);
      RunNext(ss, steps, good, nBatchSize, k - 1);
      StepHandles(ss[k - 1], steps[k - 1], good, nBatchSize);
      Carry(AddedBy(steps[..k - 1]), HandedOver(steps[k - 1]), AllHandled(ss, steps, good, nBatchSize, k - 1),
            HandledBy(ss[k - 1], steps[k - 1]), Pending(ss[k - 1]), Pending(ss[k]));
    }
  }

  lemma NothingHandled(ss: seq<State>, steps: seq<Step>, good: Check -> bool, nBatchSize: nat)
    requires IsRun(ss, steps, good, nBatchSize)
    ensures AllHandled(ss, steps, good, nBatchSize, 0) == multiset{} && AddedBy(steps[..0]) == []
  {
  }

  lemma RunNext(ss: seq<State>, steps: seq<Step>, good: Check -> bool, nBatchSize: nat, k: nat)
    requires IsRun(ss, steps, good, nBatchSize) && k < |steps|
    ensures Enabled(ss[k], steps[k]) && ss[k + 1] == Apply(ss[k], steps[k], good, nBatchSize)
    ensures AllHandled(ss, steps, good, nBatchSize, k + 1) == AllHandled(ss, steps, good, nBatchSize, k) + HandledBy(ss[k], steps[k])
  {
    hide Apply, Enabled;
  }

  lemma Carry(a: seq<Check>, h: seq<Check>, run: multiset<Check>, r: multiset<Check>, p: multiset<Check>, p': multiset<Check>)
    requires multiset(a) == run + p && p' + r == p + multiset(h)
    ensures multiset(a + h) == run + r + p'
  {
    assert multiset(a + h) == multiset(a) + multiset(h);
    assert run + r + p' == run + (p' + r);
    assert run + p + multiset(h) == run + (p + multiset(h));
  }

  lemma {:induction false} NoneUnhandled(n: nat)
    ensures Unhandled(seq(n, _ => Entering)) == multiset{}
  {
    if n > 0 {
      NoneUnhandled(n - 1);
      assert seq(n, _ => Entering)[1..] == seq(n - 1, _ => Entering);
    }
  }

  lemma InitPending(workers: nat)
    ensures Pending(Init(workers)) == multiset{}
  {
    NoneUnhandled(workers);
    assert Init(workers).threads[1..] == seq(workers, _ => Entering);
  }

  /** When a Wait returns, every check ever handed over has been handled exactly as often as it was handed over. */
  lemma ReturnsWhenAllHandled(workers: nat, ss: seq<State>, steps: seq<Step>, good: Check -> bool, nBatchSize: nat, k: nat)
    requires IsRun(ss, steps, good, nBatchSize) && ss[0] == Init(workers) && k < |steps| && Returns(ss, k)
    ensures AllHandled(ss, steps, good, nBatchSize, k) == multiset(AddedBy(steps[..k]))
  {
    NoneLostNoneTwice(workers, ss, steps, good, nBatchSize, k);
    InitOk(workers, good);
    RunKeeps(ss, steps, good, nBatchSize, k);
    NonePending(ss[k], steps[k], good, nBatchSize);
    hide Pending, AddedBy, AllHandled, Inv;
  }

  lemma NonePending(s: State, step: Step, good: Check -> bool, nBatchSize: nat)
    requires Inv(s, good) && Enabled(s, step) && MasterInWait(s) && !MasterInWait(Apply(s, step, good, nBatchSize))
    ensures Pending(s) == multiset{}
  {
    hide Inv, MidInv, Unhandled, Pending, BatchSize;
    assert step == Lock(0);
    CleanUpKeeps(s, 0, good);
    var mid := CleanUp(s, 0);
    NothingLeft(mid, 0, good);
    AllIdle(mid);
    LockHandles(s, 0, good, nBatchSize);
    AllIdle(Apply(s, step, good, nBatchSize));
  }

  lemma {:induction false} NobodyWorks(ts: seq<Phase>)
    requires forall i :: 0 <= i < |ts| ==> !ts[i].Working?
    ensures Unhandled(ts) == multiset{}
  {
    if ts != [] {
      NobodyWorks(ts[1..]);
    }
  }

  lemma AllIdle(s: State)
    requires s.queue == [] && forall j :: 0 <= j < |s.threads| ==> !s.threads[j].Working?
    ensures Pending(s) == multiset{}
  {
    NobodyWorks(s.threads);
  }

  /**
   In every run of one master and any number of workers: no check is lost or taken twice,
   `nTodo`, `nIdle` and `nTotal` are the counts they claim to be, and every Wait returned
   true exactly when every check added since the Wait before it is good.
   */
  lemma RunsAreCorrect(workers: nat, ss: seq<State>, steps: seq<Step>, good: Check -> bool, nBatchSize: nat, k: nat)
    requires IsRun(ss, steps, good, nBatchSize) && ss[0] == Init(workers)
    requires k < |ss|
    ensures Conserved(ss[k])
    ensures Counted(ss[k], 0)
    ensures forall v :: v in ss[k].log ==> (v.result <==> AllGood(v.added, good))
  {
    InitOk(workers, good);
    RunKeeps(ss, steps, good, nBatchSize, k);
  }

  /** In every run a master that is blocked has a worker that holds a batch and can go on. */
  lemma MasterNeverStuck(workers: nat, ss: seq<State>, steps: seq<Step>, good: Check -> bool, nBatchSize: nat, k: nat)
    returns (worker: nat)
    requires IsRun(ss, steps, good, nBatchSize) && ss[0] == Init(workers)
    requires k < |ss| && |ss[k].threads| > 0 && ss[k].threads[0].Waiting?
    ensures 1 <= worker < |ss[k].threads|
    ensures Enabled(ss[k], Execute(worker)) || Enabled(ss[k], Lock(worker))
  {
    InitOk(workers, good);
    RunKeeps(ss, steps, good, nBatchSize, k);
    assert |InFlight(ss[k].threads)| > 0;
    worker := InFlightFinds(ss[k].threads);
  }

  /** No state of a run is a dead end: the master can go on, or it is in Wait and some thread can. */
  lemma NoDeadEnd(workers: nat, ss: seq<State>, steps: seq<Step>, good: Check -> bool, nBatchSize: nat, k: nat, checks: seq<Check>)
    returns (i: nat)
    requires IsRun(ss, steps, good, nBatchSize) && ss[0] == Init(workers) && k < |ss|
    ensures ss[k].threads != []
    ensures ss[k].threads[0].Outside? ==> Enabled(ss[k], Add(checks)) && Enabled(ss[k], CallWait)
    ensures ss[k].threads[0].Notifying? ==> Enabled(ss[k], Notify(i))
    ensures MasterInWait(ss[k]) ==> Enabled(ss[k], Execute(i)) || Enabled(ss[k], Lock(i))
  {
    i := 0;
    InitOk(workers, good);
    RunKeeps(ss, steps, good, nBatchSize, k);
    var ts := ss[k].threads;
    if ts[0].Waiting? {
      i := MasterNeverStuck(workers, ss, steps, good, nBatchSize, k);
    } else if ts[0].Notifying? && !NobodyWaits(ts) {
      i :| 1 <= i < |ts| && ts[i].Waiting?;
    }
  }

  // ----- Wait returns -----

  function Weight(p: Phase): int {
    match p
    case Woken => 1
    case Entering => 1
    case Working(batch, next, _) => if next <= |batch| then 2 + |batch| - next else 2
    case _ => 0
  }

  /** An upper bound on the steps left before the master's Wait returns. */
  ghost function Measure(s: State): int {
    4 * |s.queue| + Sum(s.threads, Weight)
  }

  /** The clean-up leaves the thread with weight 1; only a report can wake the master. */
  lemma CleanUpWeight(s: State, i: nat, good: Check -> bool)
    requires Inv(s, good)
    requires i < |s.threads| && ReadyToLock(s.threads[i])
    ensures var mid := CleanUp(s, i);
            && mid.queue == s.queue && i < |mid.threads| && mid.threads[i] == Entering
            && Sum(mid.threads, Weight) <= Sum(s.threads, Weight)
            && (s.queue != [] ==> Sum(mid.threads, Weight) <= Sum(s.threads, Weight) + 1 - Weight(s.threads[i]))
  {
    hide Sum, InFlight, Conserved, ThreadsOk, Verdicts;
    CleanUpKeeps(s, i, good);
    PhaseOf(s, i, good);
    var m := CleanUp(s, i).threads[0];
    SumUpdate(s.threads, i, Entering, Weight);
    if i != 0 && s.threads[i].Working? {
      SumUpdate(s.threads[i := Entering], 0, m, Weight);
      assert CleanUp(s, i).threads == s.threads[i := Entering][0 := m];
    }
  }

  lemma LockMakesProgress(s: State, i: nat, good: Check -> bool, nBatchSize: nat)
    requires Inv(s, good) && Enabled(s, Lock(i)) && MasterInWait(s)
    ensures Measure(Apply(s, Lock(i), good, nBatchSize)) <= Measure(s) - 1
  {
    hide Inv, Sum, CleanUp, BatchSize;
    var mid := CleanUp(s, i);
    CleanUpWeight(s, i, good);
    SumUpdate(mid.threads, i, Proceed(mid, i, nBatchSize).threads[i], Weight);
  }

  /** While the master is in Wait every step but a spurious wake-up brings the end nearer. */
  lemma StepMakesProgress(s: State, step: Step, good: Check -> bool, nBatchSize: nat)
    requires Inv(s, good) && Enabled(s, step) && MasterInWait(s)
    ensures Measure(Apply(s, step, good, nBatchSize)) <= Measure(s) + (if step.Spurious? then 1 else -1)
  {
    hide Inv, Sum, CleanUp, Proceed;
    match step {
      case Lock(i) => LockMakesProgress(s, i, good, nBatchSize);
      case Execute(i) => SumUpdate(s.threads, i, Apply(s, step, good, nBatchSize).threads[i], Weight);
      case Spurious(i) => SumUpdate(s.threads, i, Woken, Weight);
    }
  }

  ghost function SpuriousWakeUps(steps: seq<Step>): nat {
    if steps == [] then 0 else SpuriousWakeUps(steps[..|steps| - 1]) + if steps[|steps| - 1].Spurious? then 1 else 0
  }

  /**
   Wait cannot go on for ever: a run during which the master stays in Wait has at most
   Measure steps, plus two for each spurious wake-up.
   */
  lemma {:induction false} WaitEnds(ss: seq<State>, steps: seq<Step>, good: Check -> bool, nBatchSize: nat)
    requires IsRun(ss, steps, good, nBatchSize) && Inv(ss[0], good)
    requires forall k :: 0 <= k < |steps| ==> MasterInWait(ss[k])
    ensures |steps| <= Measure(ss[0]) + 2 * SpuriousWakeUps(steps)
    ensures Measure(ss[|steps|]) <= Measure(ss[0]) + 2 * SpuriousWakeUps(steps) - |steps|
    decreases |steps|
  {
    var n := |steps|;
    if n > 0 {
      WaitEnds(ss[..n], steps[..n - 1], good, nBatchSize);
      RunKeeps(ss, steps, good, nBatchSize, n - 1);
      StepMakesProgress(ss[n - 1], steps[n - 1], good, nBatchSize);
    }
    SumNonNegative(ss[n].threads, Weight);
  }
}
