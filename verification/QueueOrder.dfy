/**
 Readers and writers in one queue. Whoever has to wait queues up at the end, readers together behind one
 entry: in runs in which writers leave from the head, a reader lets all writers go first that waited
 before it, and a writer lets the readers go first whose entry was queued before its own.
 */
module QueueOrder {
  import opened ReadWriteLocks
  import opened DataBlocks
  import opened WriterOrder
  import opened Stranding

  /** All waiting writers that are let in leave from the head. */
  ghost predicate HeadSteps(s: State, more: seq<Action>)
    decreases |more|
  {
    more == [] || (HeadStep(s, more[0]) && HeadSteps(Step(s, more[0]), more[1..]))
  }

  /** A condition is made once: nobody starts to wait on an old one. */
  lemma NobodyWaitsAgain(s: State, a: Action, t: Thread, condition: nat)
    requires condition < s.lock.created && WaitsOn(Step(s, a), t, condition)
    ensures WaitsOn(s, t, condition)
    ensures condition < Step(s, a).lock.created
  {
  }

  lemma {:induction false} WaitedAllAlong(s: State, more: seq<Action>, t: Thread, condition: nat)
    requires condition < s.lock.created && WaitsOn(After(s, more), t, condition)
    ensures WaitsOn(s, t, condition)
    decreases |more|
  {
    if more != [] {
      CreatedGrows(s, more[0]);
      WaitedAllAlong(Step(s, more[0]), more[1..], t, condition);
      NobodyWaitsAgain(s, more[0], t, condition);
    }
  }

  lemma CreatedGrows(s: State, a: Action)
    ensures s.lock.created <= Step(s, a).lock.created
  {
  }

  // ---------------------------------------------------------------------------
  // Readers behind writers
  // ---------------------------------------------------------------------------

  /** The condition is queued, and the readers' entry nowhere before it. */
  ghost predicate Ahead(queue: seq<Condition>, condition: nat) {
    exists j :: && 0 <= j < |queue| && queue[j] == WriteCondition(condition)
                && forall i :: 0 <= i < j ==> queue[i].WriteCondition?
  }

  lemma AheadOfLonger(queue: seq<Condition>, c: Condition, condition: nat)
    requires Ahead(queue, condition)
    ensures Ahead(queue + [c], condition)
  {
    var j :| && 0 <= j < |queue| && queue[j] == WriteCondition(condition)
             && forall i :: 0 <= i < j ==> queue[i].WriteCondition?;
    assert (queue + [c])[j] == queue[j];
    assert forall i :: 0 <= i < j ==> (queue + [c])[i] == queue[i];
  }

  lemma AheadOfShorter(queue: seq<Condition>, condition: nat)
    requires Ahead(queue, condition) && queue[0] != WriteCondition(condition)
    ensures Ahead(queue[1..], condition)
  {
    var j :| && 0 <= j < |queue| && queue[j] == WriteCondition(condition)
             && forall i :: 0 <= i < j ==> queue[i].WriteCondition?;
    assert queue[1..][j - 1] == queue[j];
    assert forall i :: 0 <= i < j - 1 ==> queue[1..][i] == queue[i + 1];
  }

  lemma AheadStep(s: State, a: Action, u: Thread, condition: nat)
    requires Ordered(s) && HeadStep(s, a) && Ahead(s.lock.queue, condition)
    requires WaitsOn(s, u, condition) && WaitsOn(Step(s, a), u, condition)
    ensures Ahead(Step(s, a).lock.queue, condition)
    ensures forall t :: s.Phase(t).WaitRead? ==> Step(s, a).Phase(t) == s.Phase(t)
  {
    var q, q' := s.lock.queue, Step(s, a).lock.queue;
    assert s.lock.PendingWriter();
    if AdmitsWaitingWriter(s, a) {
      assert WaitsOn(s, a.thread, s.Phase(a.thread).condition);
      assert a.thread != u;
      AheadOfShorter(q, condition);
    } else if q' != q {
      assert q' == q + [q'[|q|]];
      AheadOfLonger(q, q'[|q|], condition);
    }
  }

  lemma {:induction false} StillBehind(s: State, more: seq<Action>, u: Thread, condition: nat)
    requires Ordered(s) && HeadSteps(s, more) && Ahead(s.lock.queue, condition)
    requires condition < s.lock.created && WaitsOn(After(s, more), u, condition)
    ensures forall t :: s.Phase(t).WaitRead? ==> After(s, more).Phase(t) == s.Phase(t)
    decreases |more|
  {
    if more != [] {
      var s' := Step(s, more[0]);
      CreatedGrows(s, more[0]);
      WaitedAllAlong(s', more[1..], u, condition);
      NobodyWaitsAgain(s, more[0], u, condition);
      AheadStep(s, more[0], u, condition);
      OrderedStep(s, more[0]);
      StillBehind(s', more[1..], u, condition);
    }
  }

  lemma {:induction false} IdIsQueued(queue: seq<Condition>, id: nat)
    requires id in WriterIds(queue)
    ensures WriteCondition(id) in queue
  {
    if !(queue[0].WriteCondition? && queue[0].id == id) {
      IdIsQueued(queue[1..], id);
      assert queue == [queue[0]] + queue[1..];
    }
  }

  /** The condition of a waiting writer is queued. */
  lemma WaitingIsQueued(s: State, u: Thread)
    requires Ordered(s) && s.Phase(u).WaitWrite?
    ensures s.Phase(u).condition < s.lock.created
    ensures WriteCondition(s.Phase(u).condition) in s.lock.queue
  {
    var c := s.Phase(u).condition;
    assert WaitsOn(s, u, c);
    assert Numbers(|s.served|, s.lock.created)[c - |s.served|] == c;
    IdIsQueued(s.lock.queue, c);
  }

  /**
   The bias towards writers, in runs in which writers leave from the head: a reader that calls while
   writers wait and no reader is queued yet still waits, whatever happens, for as long as one of these
   writers still waits for the lock it has asked for before.
   */
  lemma ReadersLetWritersGoFirst(
    block: seq<int>, run: seq<Action>, t: Thread, op: Op, more: seq<Action>, u: Thread)
    requires HeadOrdered(block, run) && ReadCondition !in Run(block, run).lock.queue
    requires Run(block, run).Phase(t).Idle? && !op.SetValues?
    requires Run(block, run).Phase(u).WaitWrite?
    requires HeadSteps(Run(block, run + [Call(t, op)]), more)
    requires WaitsOn(After(Run(block, run + [Call(t, op)]), more), u, Run(block, run).Phase(u).condition)
    ensures After(Run(block, run + [Call(t, op)]), more).Phase(t).WaitRead?
  {
    var s := Run(block, run);
    var s', c := Step(s, Call(t, op)), s.Phase(u).condition;
    RunNext(block, run, Call(t, op));
    OrderedRun(block, run);
    WaitingIsQueued(s, u);
    var j :| 0 <= j < |s.lock.queue| && s.lock.queue[j] == WriteCondition(c);
    assert s.lock.queue[0] in s.lock.queue;
    assert s'.Phase(t).WaitRead? && s'.lock.queue == s.lock.queue + [ReadCondition];
    assert s'.lock.queue[j] == s.lock.queue[j];
    forall i | 0 <= i < j ensures s'.lock.queue[i].WriteCondition? {
      assert s.lock.queue[i] in s.lock.queue;
    }
    OrderedOther(s, Call(t, op));
    StillBehind(s', more, u, c);
  }

  // ---------------------------------------------------------------------------
  // Writers behind readers
  // ---------------------------------------------------------------------------

  /** The step lets a waiting reader in. */
  ghost predicate AdmitsWaitingReader(s: State, a: Action) {
    a.Wake? && s.Phase(a.thread).WaitRead? && !s.lock.PendingWriter()
  }

  ghost predicate NoReaderAdmitted(s: State, more: seq<Action>)
    decreases |more|
  {
    more == [] || (!AdmitsWaitingReader(s, more[0]) && NoReaderAdmitted(Step(s, more[0]), more[1..]))
  }

  /** The readers' entry is queued, and the condition nowhere before it. */
  ghost predicate BehindReaders(queue: seq<Condition>, condition: nat) {
    exists j :: 0 <= j < |queue| && queue[j] == ReadCondition && WriteCondition(condition) !in queue[..j]
  }

  lemma BehindStep(s: State, a: Action, w: Thread, condition: nat)
    requires HeadStep(s, a) && !AdmitsWaitingReader(s, a)
    requires BehindReaders(s.lock.queue, condition) && WaitsOn(s, w, condition)
    ensures BehindReaders(Step(s, a).lock.queue, condition) && WaitsOn(Step(s, a), w, condition)
  {
    var q, q' := s.lock.queue, Step(s, a).lock.queue;
    var j :| 0 <= j < |q| && q[j] == ReadCondition && WriteCondition(condition) !in q[..j];
    if AdmitsWaitingWriter(s, a) {
      assert j > 0 && q[0] in q[..j];
      assert q' == q[1..] && q'[j - 1] == q[j];
      assert forall x :: x in q'[..j - 1] ==> x in q[..j];
    } else {
      assert q' == q || q' == q + [q'[|q|]];
      assert q'[j] == q[j] && q'[..j] == q[..j];
    }
  }

  lemma {:induction false} StillBehindReaders(s: State, more: seq<Action>, w: Thread, condition: nat)
    requires HeadSteps(s, more) && NoReaderAdmitted(s, more)
    requires BehindReaders(s.lock.queue, condition) && WaitsOn(s, w, condition)
    ensures WaitsOn(After(s, more), w, condition)
    decreases |more|
  {
    if more != [] {
      BehindStep(s, more[0], w, condition);
      StillBehindReaders(Step(s, more[0]), more[1..], w, condition);
    }
  }

  /**
   The other way round: a writer that has to wait while the readers' entry is queued still waits, whatever
   happens, for as long as no waiting reader has been let in.
   */
  lemma WritersLetReadersGoFirst(block: seq<int>, run: seq<Action>, w: Thread, op: Op, more: seq<Action>)
    requires HeadOrdered(block, run) && ReadCondition in Run(block, run).lock.queue
    requires Run(block, run).Phase(w).Idle? && op.SetValues? && Run(block, run).lock.Occupied()
    requires HeadSteps(Run(block, run + [Call(w, op)]), more)
    requires NoReaderAdmitted(Run(block, run + [Call(w, op)]), more)
    ensures WaitsOn(After(Run(block, run + [Call(w, op)]), more), w, Run(block, run).lock.created)
  {
    var s := Run(block, run);
    var s', c := Step(s, Call(w, op)), s.lock.created;
    RunNext(block, run, Call(w, op));
    OrderedRun(block, run);
    var j :| 0 <= j < |s.lock.queue| && s.lock.queue[j] == ReadCondition;
    QueuedIdsAreOld(s);
    assert s'.lock.queue == s.lock.queue + [WriteCondition(c)];
    assert s'.lock.queue[j] == s.lock.queue[j] && s'.lock.queue[..j] == s.lock.queue[..j];
    assert BehindReaders(s'.lock.queue, c);
    StillBehindReaders(s', more, w, c);
  }

  lemma {:induction false} QueuedIsId(queue: seq<Condition>, id: nat)
    requires WriteCondition(id) in queue
    ensures id in WriterIds(queue)
  {
    if queue[0] != WriteCondition(id) {
      assert queue == [queue[0]] + queue[1..];
      QueuedIsId(queue[1..], id);
    }
  }

  lemma QueuedIdsAreOld(s: State)
    requires Ordered(s)
    ensures WriteCondition(s.lock.created) !in s.lock.queue
  {
    assert s.lock.created !in Numbers(|s.served|, s.lock.created);
    if WriteCondition(s.lock.created) in s.lock.queue {
      QueuedIsId(s.lock.queue, s.lock.created);
    }
  }
}
