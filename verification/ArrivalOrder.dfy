/**
 The promise of write order in the class comment of readwritelock.py, exactly: when do writers get the
 lock in the order in which they asked for it?

 Every write call, whether it has to wait or not, draws the next ticket when it is made. Two things can
 put the order out: a writer that finds the lock free does not look at the queue, and a writer that has
 waited takes the head of the queue away even if that is not its own condition.
 */
module ArrivalOrder {
  import opened ReadWriteLocks
  import opened DataBlocks
  import opened WriterOrder

  /** The step lets a writer in that has not waited. */
  ghost predicate EntersDirectly(s: State, a: Action) {
    a.Call? && a.op.SetValues? && s.Phase(a.thread).Idle? && !s.lock.Occupied()
  }

  /** The writer conditions behind those that are left over. */
  ghost function Line(s: State): seq<nat> {
    if 0 <= Surplus(s) <= |WriterIds(s.lock.queue)| then WriterIds(s.lock.queue)[Surplus(s)..] else []
  }

  /** Nobody walks in past a waiting writer, and a waiting writer that is let in is the first in line. */
  ghost predicate FairStep(s: State, a: Action) {
    && (EntersDirectly(s, a) ==> WaitingWriters(s) == {})
    && (AdmitsWaitingWriter(s, a) ==> Line(s) != [] && Line(s)[0] == s.Phase(a.thread).condition)
  }

  ghost predicate Fair(block: seq<int>, run: seq<Action>) {
    run == [] || (Fair(block, run[..|run| - 1]) && FairStep(Run(block, run[..|run| - 1]), run[|run| - 1]))
  }

  /** Conditions are queued in the order in which they are made. */
  ghost predicate Ascending(ids: seq<nat>, bound: nat) {
    && (forall i, j :: 0 <= i < j < |ids| ==> ids[i] < ids[j])
    && (forall i :: 0 <= i < |ids| ==> ids[i] < bound)
  }

  /** The line is the waiting writers in the order of their tickets. */
  ghost predicate InPlace(s: State, line: seq<nat>, t: Thread) {
    s.Phase(t).WaitWrite? ==>
      var place := s.Phase(t).ticket - |s.entered|;
      0 <= place < |line| && line[place] == s.Phase(t).condition
  }

  ghost predicate AllInPlace(s: State, line: seq<nat>) {
    && (forall t :: InPlace(s, line, t))
    && (forall t, u :: s.Phase(t).WaitWrite? && s.Phase(u).WaitWrite? && t != u ==>
          s.Phase(t).ticket != s.Phase(u).ticket)
  }

  ghost predicate LinedUp(s: State) {
    && Ascending(WriterIds(s.lock.queue), s.lock.created)
    && |s.entered| + |WaitingWriters(s)| == s.calls
    && AllInPlace(s, Line(s))
  }

  lemma LineLength(s: State)
    requires Accounted(s)
    ensures |Line(s)| == |WaitingWriters(s)|
    ensures Line(s) == WriterIds(s.lock.queue)[Surplus(s)..]
  {
  }

  /** One more in line, at its end... */
  lemma LineArrival(s: State, t: Thread, op: Op)
    requires Accounted(s) && s.Phase(t).Idle? && s.lock.Occupied()
    ensures var s' := CallWriter(s, t, op);
      && Line(s') == Line(s) + [s.lock.created]
      && |WaitingWriters(s')| == |WaitingWriters(s)| + 1
      && WriterIds(s'.lock.queue) == WriterIds(s.lock.queue) + [s.lock.created]
  {
    var s' := CallWriter(s, t, op);
    Moves(s, s', t, s'.Phase(t));
    assert t !in WaitingWriters(s);
    ArrivalSurplus(s, t, op);
    WriterIdsAppend(s.lock.queue, WriteCondition(s.lock.created));
    var ids := WriterIds(s.lock.queue);
    assert (ids + [s.lock.created])[Surplus(s)..] == ids[Surplus(s)..] + [s.lock.created];
  }

  /** ... and one less, at its head, whatever was taken out of the queue. */
  lemma LineAdmission(s: State, t: Thread)
    requires Accounted(s) && s.Phase(t).WaitWrite? && !s.lock.Occupied()
    ensures var s' := Step(s, Wake(t));
      && Line(s) != [] && Line(s') == Line(s)[1..]
      && |WaitingWriters(s')| == |WaitingWriters(s)| - 1
      && (|| WriterIds(s'.lock.queue) == WriterIds(s.lock.queue)
          || WriterIds(s'.lock.queue) == WriterIds(s.lock.queue)[1..])
  {
    var s' := Step(s, Wake(t));
    assert t in WaitingWriters(s);
    LineLength(s);
    WaitingWriterHasEntry(s, t);
    AdmissionSurplus(s, t);
    Moves(s, s', t, s'.Phase(t));
  }

  lemma PlaceAtTheEnd(s: State, s': State, line: seq<nat>, t: Thread)
    requires AllInPlace(s, line) && s'.phases == s.phases[t := s'.Phase(t)] && s'.entered == s.entered
    requires s'.Phase(t).WaitWrite? && s'.Phase(t).ticket == |s.entered| + |line|
    ensures AllInPlace(s', line + [s'.Phase(t).condition])
  {
    assert forall u :: u != t ==> s'.Phase(u) == s.Phase(u);
    var line' := line + [s'.Phase(t).condition];
    forall u ensures InPlace(s', line', u) {
      assert InPlace(s, line, u);
    }
    forall u | u != t && s'.Phase(u).WaitWrite? ensures s'.Phase(u).ticket < s'.Phase(t).ticket {
      assert InPlace(s, line, u);
    }
  }

  /** Only the first in line has the condition at its head. */
  lemma PlaceAtTheHead(s: State, s': State, line: seq<nat>, t: Thread)
    requires AllInPlace(s, line) && s'.phases == s.phases[t := s'.Phase(t)] && |s'.entered| == |s.entered| + 1
    requires s.Phase(t).WaitWrite? && !s'.Phase(t).WaitWrite?
    requires line != [] && line[0] == s.Phase(t).condition
    requires forall i, j :: 0 <= i < j < |line| ==> line[i] < line[j]
    ensures s.Phase(t).ticket == |s.entered|
    ensures AllInPlace(s', line[1..])
  {
    assert forall u :: u != t ==> s'.Phase(u) == s.Phase(u);
    assert InPlace(s, line, t);
    forall u ensures InPlace(s', line[1..], u) {
      assert InPlace(s, line, u);
    }
  }

  lemma OtherPlaces(s: State, s': State, line: seq<nat>, t: Thread)
    requires AllInPlace(s, line) && s'.phases == s.phases[t := s'.Phase(t)] && s'.entered == s.entered
    requires !s'.Phase(t).WaitWrite?
    ensures AllInPlace(s', line)
  {
    assert forall u :: u != t ==> s'.Phase(u) == s.Phase(u);
    forall u ensures InPlace(s', line, u) {
      assert InPlace(s, line, u);
    }
  }

  lemma LinedUpArrival(s: State, t: Thread, op: Op)
    requires Accounted(s) && LinedUp(s) && s.Phase(t).Idle? && s.lock.Occupied()
    ensures LinedUp(CallWriter(s, t, op))
    ensures CallWriter(s, t, op).entered == s.entered
  {
    LineLength(s);
    LineArrival(s, t, op);
    PlaceAtTheEnd(s, CallWriter(s, t, op), Line(s), t);
  }

  lemma AscendingTail(ids: seq<nat>, ids': seq<nat>, k: nat, bound: nat)
    requires Ascending(ids, bound) && k < |ids| && (ids' == ids || ids' == ids[1..])
    ensures Ascending(ids', bound)
    ensures forall i, j :: 0 <= i < j < |ids[k..]| ==> ids[k..][i] < ids[k..][j]
  {
  }

  lemma AdmissionRecorded(s: State, t: Thread)
    requires s.Phase(t).WaitWrite? && !s.lock.Occupied() && s.lock.queue != []
    ensures var s' := Step(s, Wake(t));
      && s'.phases == s.phases[t := s'.Phase(t)] && s'.Phase(t).Writing?
      && s'.entered == s.entered + [s.Phase(t).ticket]
      && s'.calls == s.calls && s'.lock.created == s.lock.created
  {
  }

  lemma LinedUpAdmission(s: State, t: Thread)
    requires Accounted(s) && LinedUp(s) && AdmitsWaitingWriter(s, Wake(t)) && FairStep(s, Wake(t))
    ensures LinedUp(Step(s, Wake(t)))
    ensures Step(s, Wake(t)).entered == s.entered + [|s.entered|]
  {
    var s' := Step(s, Wake(t));
    var ids, ids' := WriterIds(s.lock.queue), WriterIds(s'.lock.queue);
    LineLength(s);
    LineAdmission(s, t);
    WaitingWriterHasEntry(s, t);
    AdmissionRecorded(s, t);
    AscendingTail(ids, ids', Surplus(s), s.lock.created);
    PlaceAtTheHead(s, s', Line(s), t);
    assert LinedUp(s');
  }

  lemma LinedUpDirect(s: State, a: Action)
    requires Accounted(s) && LinedUp(s) && EntersDirectly(s, a) && FairStep(s, a)
    ensures LinedUp(Step(s, a))
    ensures Step(s, a).entered == s.entered + [|s.entered|]
  {
    var s', t := Step(s, a), a.thread;
    Moves(s, s', t, s'.Phase(t));
    assert WaitingWriters(s') == {};
    forall u ensures !s'.Phase(u).WaitWrite? {
      assert u !in WaitingWriters(s');
    }
  }

  lemma LinedUpOther(s: State, a: Action)
    requires Accounted(s) && LinedUp(s) && !AdmitsWaitingWriter(s, a)
    requires !(a.Call? && a.op.SetValues? && s.Phase(a.thread).Idle?)
    ensures LinedUp(Step(s, a))
    ensures Step(s, a).entered == s.entered
  {
    var s' := Step(s, a);
    OtherThreads(s, a);
    OtherEntries(s, a);
    StepMoves(s, a);
    NobodyFails(s, a);
    if s' != s && !s'.Phase(a.thread).WaitWrite? {
      OtherPlaces(s, s', Line(s), a.thread);
    }
  }

  lemma LinedUpStep(s: State, a: Action)
    requires Accounted(s) && LinedUp(s) && FairStep(s, a)
    ensures LinedUp(Step(s, a))
    ensures InOrder(s.entered) ==> InOrder(Step(s, a).entered)
  {
    if AdmitsWaitingWriter(s, a) {
      LinedUpAdmission(s, a.thread);
    } else if EntersDirectly(s, a) {
      LinedUpDirect(s, a);
    } else if a.Call? && a.op.SetValues? && s.Phase(a.thread).Idle? {
      LinedUpArrival(s, a.thread, a.op);
    } else {
      LinedUpOther(s, a);
    }
  }

  lemma {:induction false} FairRun(block: seq<int>, run: seq<Action>)
    requires Fair(block, run)
    ensures LinedUp(Run(block, run)) && InOrder(Run(block, run).entered)
  {
    if run != [] {
      FairRun(block, run[..|run| - 1]);
      AccountedRun(block, run[..|run| - 1]);
      LinedUpStep(Run(block, run[..|run| - 1]), run[|run| - 1]);
    } else {
      assert WaitingWriters(Init(block)) == {};
    }
  }

  /** A step that lets a writer in when it is its turn is fair. */
  lemma InOrderStepIsFair(s: State, a: Action)
    requires Accounted(s) && LinedUp(s) && InOrder(Step(s, a).entered)
    ensures FairStep(s, a)
  {
    var s' := Step(s, a);
    LineLength(s);
    if AdmitsWaitingWriter(s, a) {
      WaitingWriterHasEntry(s, a.thread);
      assert InPlace(s, Line(s), a.thread);
      assert s'.entered[|s.entered|] == s.Phase(a.thread).ticket;
    } else if EntersDirectly(s, a) {
      assert s'.entered[|s.entered|] == s.calls;
    }
  }

  lemma EnteredGrows(s: State, a: Action)
    ensures s.entered <= Step(s, a).entered
  {
  }

  /**
   In every run: the writers get the lock in the order in which they asked for it if and only if no
   writer walked in past a waiting one and every waiting writer that was let in was the first in line.
   */
  lemma {:induction false} EntersInArrivalOrderExactly(block: seq<int>, run: seq<Action>)
    ensures InOrder(Run(block, run).entered) <==> Fair(block, run)
  {
    if Fair(block, run) {
      FairRun(block, run);
    } else {
      var before, a := Run(block, run[..|run| - 1]), run[|run| - 1];
      EntersInArrivalOrderExactly(block, run[..|run| - 1]);
      if InOrder(Step(before, a).entered) {
        EnteredGrows(before, a);
        assert forall i :: 0 <= i < |before.entered| ==> Step(before, a).entered[i] == before.entered[i];
        FairRun(block, run[..|run| - 1]);
        AccountedRun(block, run[..|run| - 1]);
        InOrderStepIsFair(before, a);
        assert false;
      }
    }
  }

  // ---------------------------------------------------------------------------
  // Three short runs
  // ---------------------------------------------------------------------------

  /** A writer that finds the lock free overtakes a waiting one, although no waiting writer ever leaves
      from anywhere but the head of the queue. */
  lemma DirectEntryOvertakes()
    ensures exists run :: && HeadOrdered([], run) && InOrder(Run([], run).served)
                          && !InOrder(Run([], run).entered) && Run([], run).Phase(1).WaitWrite?
  {
    var r1 := [] + [Call(0, EMPTY_WRITE)];
    var r2 := r1 + [Call(1, EMPTY_WRITE)];
    var r3 := r2 + [Return(0)];
    var r4 := r3 + [Call(2, EMPTY_WRITE)];
    RunNext([], [], Call(0, EMPTY_WRITE));
    RunNext([], r1, Call(1, EMPTY_WRITE));
    RunNext([], r2, Return(0));
    RunNext([], r3, Call(2, EMPTY_WRITE));
    assert Run([], r4).entered[1] == 2;
    NeverWoken([], r4);
  }

  lemma {:induction false} NeverWoken(block: seq<int>, run: seq<Action>)
    requires forall i :: 0 <= i < |run| ==> !run[i].Wake?
    ensures HeadOrdered(block, run) && Run(block, run).served == []
  {
    if run != [] {
      NeverWoken(block, run[..|run| - 1]);
    }
  }

  /** And a waiting writer that leaves from behind the readers' entry need not overtake anybody. */
  lemma InOrderPastTheReaders()
    ensures exists run :: !HeadOrdered([], run) && InOrder(Run([], run).entered) && |Run([], run).entered| == 2
  {
    var r1 := [] + [Call(0, EMPTY_WRITE)];
    var r2 := r1 + [Call(1, ANY_READ)];
    var r3 := r2 + [Call(2, EMPTY_WRITE)];
    var r4 := r3 + [Return(0)];
    var r5 := r4 + [Wake(2)];
    RunNext([], [], Call(0, EMPTY_WRITE));
    RunNext([], r1, Call(1, ANY_READ));
    RunNext([], r2, Call(2, EMPTY_WRITE));
    RunNext([], r3, Return(0));
    assert Run([], r4).lock.queue == [ReadCondition, WriteCondition(0)];
    RunNext([], r4, Wake(2));
    assert r5[..4] == r4 && r5[4] == Wake(2);
    assert Run([], r5).entered == [0, 1];
  }
}
