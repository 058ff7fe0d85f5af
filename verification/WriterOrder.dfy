/**
 The waiting queue of the lock: what it always holds, and when the writers that have to wait leave it in
 order and leave nothing behind. The order of all writers, with those that need not wait, is the
 subject of ArrivalOrder.dfy.
 */
module WriterOrder {
  import opened ReadWriteLocks
  import opened DataBlocks

  // ---------------------------------------------------------------------------
  // Queue accounting, in every run
  // ---------------------------------------------------------------------------

  /** The writer conditions of a queue, in queue order. */
  ghost function WriterIds(queue: seq<Condition>): seq<nat> {
    if queue == [] then []
    else (if queue[0].WriteCondition? then [queue[0].id] else []) + WriterIds(queue[1..])
  }

  lemma {:induction false} WriterIdsAppend(queue: seq<Condition>, c: Condition)
    ensures WriterIds(queue + [c]) == WriterIds(queue) + (if c.WriteCondition? then [c.id] else [])
  {
    if queue == [] {
      assert [c][1..] == [];
    } else {
      WriterIdsAppend(queue[1..], c);
      assert (queue + [c])[1..] == queue[1..] + [c];
    }
  }

  /** Writer conditions left in the queue by nobody: entries minus waiting writers. */
  ghost function Surplus(s: State): int {
    |WriterIds(s.lock.queue)| - |WaitingWriters(s)|
  }

  /** The step lets a waiting writer in. */
  ghost predicate AdmitsWaitingWriter(s: State, a: Action) {
    a.Wake? && s.Phase(a.thread).WaitWrite? && !s.lock.Occupied()
  }

  /** The step lets a waiting writer in and removes the readers' entry instead of a writer's. */
  ghost predicate PopsReadEntry(s: State, a: Action) {
    AdmitsWaitingWriter(s, a) && s.lock.queue != [] && s.lock.queue[0] == ReadCondition
  }

  /** The readers' entry occurs at most once, and only while the reader that queued it still waits. */
  ghost predicate ReadEntry(s: State) {
    && (forall i, j :: 0 <= i < j < |s.lock.queue| ==>
          s.lock.queue[i] != ReadCondition || s.lock.queue[j] != ReadCondition)
    && (ReadCondition in s.lock.queue ==> s.Phase(s.appender).WaitRead?)
  }

  /** Besides, there are at least as many writer entries as waiting writers, and no `pop(0)` has ever
      raised. */
  ghost predicate Accounted(s: State) {
    && ReadEntry(s)
    && Surplus(s) >= 0
    && (forall t :: !s.Phase(t).Failed?)
  }

  lemma WaitingWriterHasEntry(s: State, t: Thread)
    requires Accounted(s) && s.Phase(t).WaitWrite?
    ensures WriterIds(s.lock.queue) != [] && s.lock.queue != []
  {
    assert t in WaitingWriters(s);
  }

  /** A waiting writer that gets in takes the head with it. */
  lemma AdmissionSurplus(s: State, t: Thread)
    requires Accounted(s) && s.Phase(t).WaitWrite? && !s.lock.Occupied()
    ensures
      var s' := Step(s, Wake(t));
      && s'.Phase(t).Writing?
      && Surplus(s') == Surplus(s) + (if s.lock.queue[0] == ReadCondition then 1 else 0)
  {
    var s' := Step(s, Wake(t));
    WaitingWriterHasEntry(s, t);
    Moves(s, s', t, s'.Phase(t));
    assert t in WaitingWriters(s);
  }

  /** A writer that has to wait adds its own condition. */
  lemma ArrivalSurplus(s: State, t: Thread, op: Op)
    requires s.Phase(t).Idle? && s.lock.Occupied()
    ensures Surplus(CallWriter(s, t, op)) == Surplus(s)
  {
    var s' := CallWriter(s, t, op);
    Moves(s, s', t, s'.Phase(t));
    WriterIdsAppend(s.lock.queue, WriteCondition(s.lock.created));
    assert t !in WaitingWriters(s);
  }

  /** No other step moves a waiting writer... */
  lemma OtherThreads(s: State, a: Action)
    requires !AdmitsWaitingWriter(s, a)
    requires !(a.Call? && a.op.SetValues? && s.Phase(a.thread).Idle? && s.lock.Occupied())
    ensures WaitingWriters(Step(s, a)) == WaitingWriters(s)
  {
    var s', t := Step(s, a), a.thread;
    StepMoves(s, a);
    if s'.phases != s.phases {
      assert !s'.Phase(t).WaitWrite? && !s.Phase(t).WaitWrite?;
    }
  }

  /** ... or a writer's condition. */
  lemma OtherEntries(s: State, a: Action)
    requires !AdmitsWaitingWriter(s, a)
    requires !(a.Call? && a.op.SetValues? && s.Phase(a.thread).Idle? && s.lock.Occupied())
    ensures WriterIds(Step(s, a).lock.queue) == WriterIds(s.lock.queue)
  {
    WriterIdsAppend(s.lock.queue, ReadCondition);
    var q := Step(s, a).lock.queue;
    assert || q == s.lock.queue
           || q == s.lock.queue + [ReadCondition]
           || (s.lock.queue != [] && s.lock.queue[0] == ReadCondition && q == s.lock.queue[1..]);
  }

  lemma SurplusStep(s: State, a: Action)
    requires Accounted(s)
    ensures Surplus(Step(s, a)) == Surplus(s) + (if PopsReadEntry(s, a) then 1 else 0)
  {
    if AdmitsWaitingWriter(s, a) {
      WaitingWriterHasEntry(s, a.thread);
      AdmissionSurplus(s, a.thread);
    } else if a.Call? && a.op.SetValues? && s.Phase(a.thread).Idle? && s.lock.Occupied() {
      ArrivalSurplus(s, a.thread, a.op);
    } else {
      OtherThreads(s, a);
      OtherEntries(s, a);
    }
  }

  /** The readers' entry is queued once and goes when a waiting reader goes. */
  lemma ReadEntryStep(s: State, a: Action)
    requires ReadEntry(s)
    ensures ReadEntry(Step(s, a))
  {
  }

  lemma NobodyFails(s: State, a: Action)
    requires Accounted(s)
    ensures forall u :: !Step(s, a).Phase(u).Failed?
  {
    var t, s' := a.thread, Step(s, a);
    StepMoves(s, a);
    assert !s'.Phase(t).Failed? by {
      if s.Phase(t).WaitWrite? {
        WaitingWriterHasEntry(s, t);
      }
    }
    forall u ensures !s'.Phase(u).Failed? {
      assert !s.Phase(u).Failed?;
    }
  }

  lemma AccountedStep(s: State, a: Action)
    requires Accounted(s)
    ensures Accounted(Step(s, a))
  {
    SurplusStep(s, a);
    ReadEntryStep(s, a);
    NobodyFails(s, a);
  }

  lemma {:induction false} AccountedRun(block: seq<int>, run: seq<Action>)
    ensures Accounted(Run(block, run))
  {
    if run != [] {
      AccountedRun(block, run[..|run| - 1]);
      AccountedStep(Run(block, run[..|run| - 1]), run[|run| - 1]);
    } else {
      assert WaitingWriters(Init(block)) == {};
    }
  }

  /** How often a writer has removed the readers' entry. */
  ghost function ReadEntryPops(block: seq<int>, run: seq<Action>): nat {
    if run == [] then 0
    else ReadEntryPops(block, run[..|run| - 1])
         + (if PopsReadEntry(Run(block, run[..|run| - 1]), run[|run| - 1]) then 1 else 0)
  }

  /** The surplus is exactly that number: it never shrinks. */
  lemma {:induction false} SurplusCountsPops(block: seq<int>, run: seq<Action>)
    ensures Surplus(Run(block, run)) == ReadEntryPops(block, run)
  {
    if run != [] {
      SurplusCountsPops(block, run[..|run| - 1]);
      AccountedRun(block, run[..|run| - 1]);
      SurplusStep(Run(block, run[..|run| - 1]), run[|run| - 1]);
    } else {
      assert WaitingWriters(Init(block)) == {};
    }
  }

  // ---------------------------------------------------------------------------
  // First come, first served
  // ---------------------------------------------------------------------------

  /** The conditions numbered `from` to `to - 1`, that is, in the order in which they were made. */
  ghost function Numbers(from: nat, to: nat): seq<nat>
    requires from <= to
  {
    seq(to - from, i requires 0 <= i < to - from => from + i)
  }

  /** Queued writers have been admitted in the order in which they arrived. */
  ghost predicate InOrder(served: seq<nat>) {
    forall i :: 0 <= i < |served| ==> served[i] == i
  }

  /** The step admits a waiting writer only if that writer's own condition heads the queue. */
  ghost predicate HeadStep(s: State, a: Action) {
    AdmitsWaitingWriter(s, a) ==>
      s.lock.queue != [] && s.lock.queue[0] == WriteCondition(s.Phase(a.thread).condition)
  }

  ghost predicate HeadOrdered(block: seq<int>, run: seq<Action>) {
    run == [] || (HeadOrdered(block, run[..|run| - 1]) && HeadStep(Run(block, run[..|run| - 1]), run[|run| - 1]))
  }

  ghost predicate WaitsOn(s: State, t: Thread, condition: nat) {
    s.Phase(t).WaitWrite? && s.Phase(t).condition == condition
  }

  ghost predicate Outstanding(s: State, condition: nat) {
    exists t :: WaitsOn(s, t, condition)
  }

  /** The queue is the waiting writers in arrival order, plus possibly the readers' entry. */
  ghost predicate Ordered(s: State) {
    && |s.served| <= s.lock.created
    && InOrder(s.served)
    && WriterIds(s.lock.queue) == Numbers(|s.served|, s.lock.created)
    && (forall t, c: nat :: WaitsOn(s, t, c) ==> |s.served| <= c < s.lock.created)
    && (forall t, u, c: nat :: WaitsOn(s, t, c) && WaitsOn(s, u, c) ==> t == u)
    && (forall c: nat :: |s.served| <= c < s.lock.created ==> Outstanding(s, c))
  }

  lemma OrderedArrival(s: State, t: Thread, op: Op)
    requires Ordered(s) && s.Phase(t).Idle? && op.SetValues? && s.lock.Occupied()
    ensures Ordered(Step(s, Call(t, op)))
  {
    var a := Call(t, op);
    var s' := Step(s, a);
    WriterIdsAppend(s.lock.queue, WriteCondition(s.lock.created));
    assert WaitsOn(s', t, s.lock.created);
    assert forall u, c: nat :: u != t ==> (WaitsOn(s', u, c) <==> WaitsOn(s, u, c));
    forall c: nat | |s'.served| <= c < s'.lock.created ensures Outstanding(s', c) {
      if c < s.lock.created {
        assert Outstanding(s, c);
        var u :| WaitsOn(s, u, c);
        assert WaitsOn(s', u, c);
      }
    }
  }

  lemma OrderedAdmission(s: State, a: Action)
    requires Ordered(s) && AdmitsWaitingWriter(s, a) && HeadStep(s, a)
    ensures Ordered(Step(s, a))
  {
    var s', t := Step(s, a), a.thread;
    assert WaitsOn(s, t, s.Phase(t).condition);
    assert WriterIds(s.lock.queue)[0] == s.Phase(t).condition == |s.served|;
    assert WriterIds(s'.lock.queue) == WriterIds(s.lock.queue)[1..];
    assert forall u, c: nat :: WaitsOn(s', u, c) <==> u != t && WaitsOn(s, u, c);
    forall c: nat | |s'.served| <= c < s'.lock.created ensures Outstanding(s', c) {
      assert Outstanding(s, c);
      var u :| WaitsOn(s, u, c);
      assert WaitsOn(s', u, c);
    }
  }

  lemma OrderedOther(s: State, a: Action)
    requires Ordered(s) && !AdmitsWaitingWriter(s, a)
    requires !(a.Call? && a.op.SetValues? && s.Phase(a.thread).Idle? && s.lock.Occupied())
    ensures Ordered(Step(s, a))
  {
    var s' := Step(s, a);
    OtherEntries(s, a);
    assert s'.served == s.served && s'.lock.created == s.lock.created;
    assert forall u, c: nat :: WaitsOn(s', u, c) <==> WaitsOn(s, u, c);
    forall c: nat | |s'.served| <= c < s'.lock.created ensures Outstanding(s', c) {
      assert Outstanding(s, c);
      var u :| WaitsOn(s, u, c);
      assert WaitsOn(s', u, c);
    }
  }

  lemma OrderedStep(s: State, a: Action)
    requires Ordered(s) && HeadStep(s, a)
    ensures Ordered(Step(s, a))
  {
    if AdmitsWaitingWriter(s, a) {
      OrderedAdmission(s, a);
    } else if a.Call? && a.op.SetValues? && s.Phase(a.thread).Idle? && s.lock.Occupied() {
      OrderedArrival(s, a.thread, a.op);
    } else {
      OrderedOther(s, a);
    }
  }

  lemma {:induction false} OrderedRun(block: seq<int>, run: seq<Action>)
    requires HeadOrdered(block, run)
    ensures Ordered(Run(block, run))
    ensures Surplus(Run(block, run)) == 0
  {
    if run != [] {
      OrderedRun(block, run[..|run| - 1]);
      OrderedStep(Run(block, run[..|run| - 1]), run[|run| - 1]);
      AccountedRun(block, run[..|run| - 1]);
      SurplusStep(Run(block, run[..|run| - 1]), run[|run| - 1]);
    } else {
      assert WaitingWriters(Init(block)) == {};
    }
  }

  /** If a whole run served in order without surplus, its last step did so too. */
  lemma LastAdmissionAtHead(s: State, a: Action)
    requires Ordered(s) && Accounted(s)
    requires InOrder(Step(s, a).served)
    requires !PopsReadEntry(s, a)
    ensures HeadStep(s, a)
  {
    if AdmitsWaitingWriter(s, a) {
      WaitingWriterHasEntry(s, a.thread);
      assert Step(s, a).served[|s.served|] == s.Phase(a.thread).condition;
      assert WriterIds(s.lock.queue)[0] == s.lock.queue[0].id;
    }
  }

  /**
   For the writers that had to wait: they are served first come, first served and leave no orphaned
   condition behind if and only if every one of them left from the head of the queue. Writers that
   enter without waiting do not show here.
   */
  lemma {:induction false} ServedInOrderExactly(block: seq<int>, run: seq<Action>)
    ensures HeadOrdered(block, run)
       <==> InOrder(Run(block, run).served) && Surplus(Run(block, run)) == 0
  {
    if HeadOrdered(block, run) {
      OrderedRun(block, run);
    } else {
      var s, a := Run(block, run[..|run| - 1]), run[|run| - 1];
      ServedInOrderExactly(block, run[..|run| - 1]);
      AccountedRun(block, run[..|run| - 1]);
      SurplusStep(s, a);
      if InOrder(Step(s, a).served) && Surplus(Step(s, a)) == 0 {
        assert s.served <= Step(s, a).served;
        assert forall i :: 0 <= i < |s.served| ==> Step(s, a).served[i] == s.served[i];
        OrderedRun(block, run[..|run| - 1]);
        LastAdmissionAtHead(s, a);
        assert false;
      }
    }
  }
}
