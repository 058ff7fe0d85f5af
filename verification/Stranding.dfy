/**
 Progress of the lock. Whenever the lock is free and somebody waits, some waiter should be able to
 go on. This fails exactly when an orphaned writer condition heads the queue, and such a condition
 exists exactly when some writer has removed the readers' entry in place of its own. From then on readers
 can be locked out for good: a writer that finds the lock free does not touch the queue, so a single
 writing thread never removes the orphan.
 */
module Stranding {
  import opened ReadWriteLocks
  import opened DataBlocks
  import opened Snapshots
  import opened WriterOrder

  ghost predicate Free(s: State) {
    !s.lock.writer && s.lock.readers == 0
  }

  ghost predicate IsWaiting(s: State, t: Thread) {
    s.Phase(t).WaitRead? || s.Phase(t).WaitWrite?
  }

  ghost predicate Inside(s: State, t: Thread) {
    s.Phase(t).Reading? || s.Phase(t).Writing?
  }

  ghost predicate CanProceed(s: State, t: Thread) {
    IsWaiting(s, t) && Inside(Step(s, Wake(t)), t)
  }

  /** The lock is free, no writer waits, and yet a writer's condition heads the queue. */
  ghost predicate Stranded(s: State) {
    Free(s) && WaitingWriters(s) == {} && s.lock.queue != [] && s.lock.queue[0].WriteCondition?
  }

  /** The states of all runs satisfy all the invariants. */
  ghost predicate Sound(block: seq<int>, s: State) {
    Exclusive(s) && Accounted(s) && Consistent(block, s)
  }

  lemma SoundStep(block: seq<int>, s: State, a: Action)
    requires Sound(block, s)
    ensures Sound(block, Step(s, a))
  {
    ExclusiveStep(s, a);
    AccountedStep(s, a);
    ConsistentStep(block, s, a);
  }

  lemma SoundRun(block: seq<int>, run: seq<Action>)
    ensures Sound(block, Run(block, run))
  {
    ExclusiveRun(block, run);
    AccountedRun(block, run);
    ConsistentRun(block, run);
  }

  // ---------------------------------------------------------------------------
  // When nobody can proceed
  // ---------------------------------------------------------------------------

  /** With the lock free, a waiting thread is stuck if and only if it is a reader behind a writer's
      condition; so everybody is stuck if and only if the state is stranded. */
  lemma StuckExactly(block: seq<int>, run: seq<Action>)
    requires Free(Run(block, run))
    requires exists t :: IsWaiting(Run(block, run), t)
    ensures (forall t :: !CanProceed(Run(block, run), t)) <==> Stranded(Run(block, run))
  {
    var s := Run(block, run);
    SoundRun(block, run);
    if Stranded(s) {
      forall t ensures !CanProceed(s, t) {
        assert t !in WaitingWriters(s);
      }
    } else if WaitingWriters(s) != {} {
      var t :| t in WaitingWriters(s);
      WaitingWriterHasEntry(s, t);
      assert CanProceed(s, t);
    } else {
      var t :| IsWaiting(s, t);
      assert t !in WaitingWriters(s);
      assert CanProceed(s, t);
    }
  }

  lemma {:induction false} NoEntriesNoWriterHead(queue: seq<Condition>)
    requires WriterIds(queue) == []
    ensures forall c :: c in queue ==> c == ReadCondition
  {
    if queue != [] {
      NoEntriesNoWriterHead(queue[1..]);
      assert queue == [queue[0]] + queue[1..];
    }
  }

  /** Without a misplaced removal there is always progress. */
  lemma ProgressUnlessPopped(block: seq<int>, run: seq<Action>)
    requires ReadEntryPops(block, run) == 0
    requires Free(Run(block, run))
    requires exists t :: IsWaiting(Run(block, run), t)
    ensures exists t :: CanProceed(Run(block, run), t)
  {
    var s := Run(block, run);
    SurplusCountsPops(block, run);
    StuckExactly(block, run);
    if Stranded(s) {
      NoEntriesNoWriterHead(s.lock.queue);
    }
  }

  /** In particular in every run in which writers leave from the head of the queue. */
  lemma ProgressWhenHeadOrdered(block: seq<int>, run: seq<Action>)
    requires HeadOrdered(block, run)
    requires Free(Run(block, run))
    requires exists t :: IsWaiting(Run(block, run), t)
    ensures exists t :: CanProceed(Run(block, run), t)
  {
    OrderedRun(block, run);
    SurplusCountsPops(block, run);
    ProgressUnlessPopped(block, run);
  }

  // ---------------------------------------------------------------------------
  // Continuations
  // ---------------------------------------------------------------------------

  ghost function After(s: State, more: seq<Action>): State
    decreases |more|
  {
    if more == [] then s else After(Step(s, more[0]), more[1..])
  }

  ghost predicate NoPops(s: State, more: seq<Action>)
    decreases |more|
  {
    more == [] || (!PopsReadEntry(s, more[0]) && NoPops(Step(s, more[0]), more[1..]))
  }

  lemma {:induction false} AfterAppend(s: State, more: seq<Action>, then': seq<Action>)
    ensures After(s, more + then') == After(After(s, more), then')
    ensures NoPops(s, more + then') <==> NoPops(s, more) && NoPops(After(s, more), then')
    decreases |more|
  {
    if more == [] {
      assert more + then' == then';
    } else {
      assert (more + then')[1..] == more[1..] + then';
      AfterAppend(Step(s, more[0]), more[1..], then');
    }
  }

  lemma {:induction false} SoundAfter(block: seq<int>, s: State, more: seq<Action>)
    requires Sound(block, s)
    ensures Sound(block, After(s, more))
    ensures NoPops(s, more) ==> Surplus(After(s, more)) == Surplus(s)
    decreases |more|
  {
    if more != [] {
      SoundStep(block, s, more[0]);
      SurplusStep(s, more[0]);
      SoundAfter(block, Step(s, more[0]), more[1..]);
    }
  }

  // ---------------------------------------------------------------------------
  // Locked out for good
  // ---------------------------------------------------------------------------

  /** A writer's condition heads the queue and nobody reads. */
  ghost predicate Blocked(s: State) {
    s.lock.queue != [] && s.lock.queue[0].WriteCondition? && forall t :: !s.Phase(t).Reading?
  }

  ghost predicate NoAdmission(s: State, more: seq<Action>)
    decreases |more|
  {
    more == [] || (!AdmitsWaitingWriter(s, more[0]) && NoAdmission(Step(s, more[0]), more[1..]))
  }

  /** From `s` to `s'` no reader has got in: whoever waited to read still waits, and only writes replied. */
  ghost predicate ReadersKeptOut(s: State, s': State) {
    && (forall t :: s.Phase(t).WaitRead? ==> s'.Phase(t) == s.Phase(t))
    && s.returned <= s'.returned
    && forall i :: |s.returned| <= i < |s'.returned| ==> s'.returned[i].op.SetValues?
  }

  lemma StrandedIsBlocked(s: State)
    requires Exclusive(s) && Stranded(s)
    ensures Blocked(s)
    ensures forall t :: !s.Phase(t).WaitWrite? && !s.Phase(t).Writing?
  {
    NobodyInside(s);
    forall t ensures !s.Phase(t).WaitWrite? {
      assert t !in WaitingWriters(s);
    }
  }

  /** Only the admission of a waiting writer takes the head of the queue away. */
  lemma BlockedStep(block: seq<int>, s: State, a: Action)
    requires Sound(block, s) && Blocked(s) && !AdmitsWaitingWriter(s, a)
    ensures Blocked(Step(s, a)) && ReadersKeptOut(s, Step(s, a))
  {
    var t, s' := a.thread, Step(s, a);
    assert s.lock.PendingWriter();
    assert ThreadConsistent(block, s, t);
    assert s'.lock.queue != [] && s'.lock.queue[0] == s.lock.queue[0];
    StepMoves(s, a);
    assert !s'.Phase(t).Reading?;
    forall u ensures !s'.Phase(u).Reading? {
      assert !s.Phase(u).Reading?;
    }
  }

  /** With a writer's condition at the head of the queue no reader gets in, however many writers enter
      directly and leave again, until a waiting writer has been let in. */
  lemma {:induction false} BlockedUntilAdmission(block: seq<int>, s: State, more: seq<Action>)
    requires Sound(block, s) && Blocked(s) && NoAdmission(s, more)
    ensures Blocked(After(s, more)) && ReadersKeptOut(s, After(s, more))
    decreases |more|
  {
    if more != [] {
      BlockedStep(block, s, more[0]);
      SoundStep(block, s, more[0]);
      BlockedUntilAdmission(block, Step(s, more[0]), more[1..]);
    }
  }

  /** No writer waits, and nobody but `w` writes. */
  ghost predicate LoneWriter(s: State, w: Thread) {
    forall t :: !s.Phase(t).WaitWrite? && (s.Phase(t).Writing? ==> t == w)
  }

  /** All write calls come from one thread. */
  ghost predicate WritesFrom(w: Thread, more: seq<Action>) {
    forall i :: 0 <= i < |more| && more[i].Call? && more[i].op.SetValues? ==> more[i].thread == w
  }

  /** A lone writer never finds the lock occupied, so it never has to wait. */
  lemma LoneWriterStep(block: seq<int>, s: State, a: Action, w: Thread)
    requires Sound(block, s) && Blocked(s) && LoneWriter(s, w) && WritesFrom(w, [a])
    ensures LoneWriter(Step(s, a), w) && !AdmitsWaitingWriter(s, a)
  {
    var t, s' := a.thread, Step(s, a);
    assert Readers(s) == {} by {
      forall u ensures u !in Readers(s) {
        assert !s.Phase(u).Reading?;
      }
    }
    if s.Phase(w).Idle? {
      forall u ensures u !in Writers(s) {
        assert s.Phase(u).Writing? ==> u == w;
      }
      assert Writers(s) == {};
    }
    assert !AdmitsWaitingWriter(s, a) by {
      assert !s.Phase(t).WaitWrite?;
    }
    assert a.Call? && a.op.SetValues? ==> t == w by {
      assert [a][0] == a;
    }
    StepMoves(s, a);
    assert ThreadConsistent(block, s, t);
    forall u ensures !s'.Phase(u).WaitWrite? && (s'.Phase(u).Writing? ==> u == w) {
      assert !s.Phase(u).WaitWrite? && (s.Phase(u).Writing? ==> u == w);
    }
  }

  /** So as long as only one thread writes, as often as it likes, no reader ever gets in again. */
  lemma {:induction false} LockedOutForGood(block: seq<int>, s: State, more: seq<Action>, w: Thread)
    requires Sound(block, s) && Blocked(s) && LoneWriter(s, w) && WritesFrom(w, more)
    ensures NoAdmission(s, more)
    ensures Blocked(After(s, more)) && LoneWriter(After(s, more), w) && ReadersKeptOut(s, After(s, more))
    decreases |more|
  {
    if more != [] {
      assert WritesFrom(w, [more[0]]) && WritesFrom(w, more[1..]);
      LoneWriterStep(block, s, more[0], w);
      BlockedStep(block, s, more[0]);
      SoundStep(block, s, more[0]);
      LockedOutForGood(block, Step(s, more[0]), more[1..], w);
    }
  }

  /** In a stranded state: until a waiting writer is let in, no reader gets in; and that never happens
      while all writes come from one thread. */
  lemma StrandedForever(block: seq<int>, s: State, more: seq<Action>)
    requires Sound(block, s) && Stranded(s)
    requires NoAdmission(s, more) || exists w :: WritesFrom(w, more)
    ensures Blocked(After(s, more)) && ReadersKeptOut(s, After(s, more))
  {
    StrandedIsBlocked(s);
    if NoAdmission(s, more) {
      BlockedUntilAdmission(block, s, more);
    } else {
      var w :| WritesFrom(w, more);
      LockedOutForGood(block, s, more, w);
    }
  }

  /** And while nobody writes at all, the lock stays stranded and no call returns. */
  lemma {:induction false} StrandedWithoutWrites(block: seq<int>, s: State, more: seq<Action>)
    requires Sound(block, s) && Stranded(s)
    requires forall i :: 0 <= i < |more| && more[i].Call? ==> !more[i].op.SetValues?
    ensures Stranded(After(s, more))
    ensures After(s, more).returned == s.returned
    ensures forall t :: s.Phase(t).WaitRead? ==> After(s, more).Phase(t).WaitRead?
    decreases |more|
  {
    if more != [] {
      var a, s' := more[0], Step(s, more[0]);
      NobodyInside(s);
      assert !s.Phase(a.thread).WaitWrite? by {
        assert a.thread !in WaitingWriters(s);
      }
      assert Stranded(s') by {
        if s' != s {
          StepMoves(s, a);
          Moves(s, s', a.thread, s'.Phase(a.thread));
        }
      }
      SoundStep(block, s, a);
      StrandedWithoutWrites(block, s', more[1..]);
    }
  }

  // ---------------------------------------------------------------------------
  // An orphaned condition can always strand the readers
  // ---------------------------------------------------------------------------

  ghost predicate NoCalls(more: seq<Action>) {
    forall i :: 0 <= i < |more| ==> !more[i].Call?
  }

  /** A thread inside the lock can finish on its own, leaving all others and the queue as they were. */
  lemma {:induction false} Finish(block: seq<int>, s: State, t: Thread) returns (more: seq<Action>)
    requires Sound(block, s) && Inside(s, t)
    ensures NoPops(s, more)
    ensures Sound(block, After(s, more))
    ensures After(s, more).phases == s.phases[t := Idle]
    ensures After(s, more).lock.queue == s.lock.queue && After(s, more).appender == s.appender
    ensures NoCalls(more)
    decreases
      match s.Phase(t)
      case Reading(op, _, got) => (if op.GetValues? then |Slice(s.block, op.address, op.count)| else 0) - |got|
      case Writing(op, _, _, written) => (if op.SetValues? then |op.values| else 0) - written
      case _ => 0
  {
    assert ThreadConsistent(block, s, t);
    var a := if ReturnFrom(s, t).Phase(t).Idle? then Return(t) else Touch(t);
    var s' := Step(s, a);
    SoundStep(block, s, a);
    assert NoPops(s', []);
    if a.Return? {
      more := [a];
      assert After(s', []) == s';
    } else {
      assert ThreadConsistent(block, s', t);
      var rest := Finish(block, s', t);
      more := [a] + rest;
      assert more[1..] == rest;
      assert s'.phases[t := Idle] == s.phases[t := Idle];
    }
  }

  ghost function Busy(s: State): set<Thread> {
    set t | t in s.phases && !s.phases[t].Idle?
  }

  /** A waiting thread that can go on can also finish, taking no readers' entry away from a reader. */
  lemma WakeAndFinish(block: seq<int>, s: State, t: Thread) returns (more: seq<Action>)
    requires Sound(block, s) && CanProceed(s, t) && !PopsReadEntry(s, Wake(t))
    ensures NoPops(s, more)
    ensures Sound(block, After(s, more))
    ensures After(s, more).phases == s.phases[t := Idle] && Busy(After(s, more)) == Busy(s) - {t}
    ensures NoCalls(more)
  {
    SoundStep(block, s, Wake(t));
    StepMoves(s, Wake(t));
    var rest := Finish(block, Step(s, Wake(t)), t);
    more := [Wake(t)] + rest;
    assert more[1..] == rest;
  }

  lemma NobodyInsideIsFree(s: State)
    requires Exclusive(s) && forall t :: !Inside(s, t)
    ensures Free(s)
  {
    forall t ensures t !in Readers(s) && t !in Writers(s) {
      assert !Inside(s, t);
    }
    assert Readers(s) == {} && Writers(s) == {};
  }

  /** Let everybody finish, readers first when their entry heads the queue. */
  lemma {:induction false} Drain(block: seq<int>, s: State) returns (more: seq<Action>)
    requires Sound(block, s) && Surplus(s) > 0
    ensures NoPops(s, more) && Sound(block, After(s, more)) && Stranded(After(s, more))
    decreases |Busy(s)|
  {
    var first: seq<Action>;
    if t :| Inside(s, t) {
      first := Finish(block, s, t);
      assert Busy(After(s, first)) == Busy(s) - {t} && t in Busy(s);
    } else {
      NobodyInsideIsFree(s);
      if s.lock.queue != [] && s.lock.queue[0] == ReadCondition {
        assert CanProceed(s, s.appender) && s.appender in Busy(s);
        first := WakeAndFinish(block, s, s.appender);
      } else if t :| t in WaitingWriters(s) {
        WaitingWriterHasEntry(s, t);
        assert CanProceed(s, t) && t in Busy(s);
        first := WakeAndFinish(block, s, t);
      } else {
        assert WaitingWriters(s) == {};
        assert After(s, []) == s;
        return [];
      }
    }
    SoundAfter(block, s, first);
    var rest := Drain(block, After(s, first));
    more := first + rest;
    AfterAppend(s, first, rest);
  }

  lemma {:induction false} FreshThread(busy: set<Thread>) returns (t: Thread)
    ensures forall u :: u in busy ==> u < t
    decreases busy
  {
    if u :| u in busy {
      var v := FreshThread(busy - {u});
      t := if u < v then v else u + 1;
      assert forall w :: w in busy ==> w == u || w in busy - {u};
    } else {
      t := 0;
    }
  }

  /**
   From a state of a run, the readers can be stranded without any further misplaced removal if and
   only if one has already happened.
   */
  lemma StrandingExactly(block: seq<int>, run: seq<Action>)
    ensures ReadEntryPops(block, run) > 0
       <==> exists more :: && NoPops(Run(block, run), more)
                           && Stranded(After(Run(block, run), more))
                           && exists t :: After(Run(block, run), more).Phase(t).WaitRead?
  {
    var s := Run(block, run);
    SurplusCountsPops(block, run);
    SoundRun(block, run);
    if ReadEntryPops(block, run) > 0 {
      var drained := Drain(block, s);
      var s' := After(s, drained);
      var t := FreshThread(s'.phases.Keys);
      var call := Call(t, Validate(0, 0));
      var more := drained + [call];
      AfterAppend(s, drained, [call]);
      assert After(s', [call]) == Step(s', call) && NoPops(s', [call]);
      StrandedWithoutWrites(block, s', [call]);
      assert After(s, more).Phase(t).WaitRead?;
    } else if more :| NoPops(s, more) && Stranded(After(s, more)) && exists t :: After(s, more).Phase(t).WaitRead? {
      SoundAfter(block, s, more);
      NoEntriesNoWriterHead(After(s, more).lock.queue);
      assert false;
    }
  }

  /** A waiting reader that nothing can let in while all writes come from one thread. */
  ghost predicate LockedOut(s: State, t: Thread) {
    s.Phase(t).WaitRead? && forall rest, w :: WritesFrom(w, rest) ==> After(s, rest).Phase(t).WaitRead?
  }

  lemma WriterAtHead(s: State) returns (u: Thread)
    requires Accounted(s) && Surplus(s) == 0 && Free(s)
    requires s.lock.queue != [] && s.lock.queue[0].WriteCondition?
    ensures CanProceed(s, u) && u in Busy(s) && s.Phase(u).WaitWrite? && !PopsReadEntry(s, Wake(u))
  {
    assert WriterIds(s.lock.queue) != [];
    u :| u in WaitingWriters(s);
  }

  /** Without an orphaned condition all others can finish, writers from the head of the queue, until the
      reader gets in. */
  lemma {:induction false} ReaderGetsIn(block: seq<int>, s: State, t: Thread) returns (rest: seq<Action>)
    requires Sound(block, s) && Surplus(s) == 0 && s.Phase(t).WaitRead?
    ensures NoCalls(rest) && !After(s, rest).Phase(t).WaitRead?
    decreases |Busy(s)|
  {
    var first: seq<Action>;
    if u :| Inside(s, u) {
      first := Finish(block, s, u);
      assert Busy(After(s, first)) == Busy(s) - {u} && u in Busy(s);
    } else {
      NobodyInsideIsFree(s);
      if s.lock.queue == [] || s.lock.queue[0] == ReadCondition {
        assert After(s, [Wake(t)]) == After(Step(s, Wake(t)), []);
        return [Wake(t)];
      }
      var u := WriterAtHead(s);
      first := WakeAndFinish(block, s, u);
    }
    SoundAfter(block, s, first);
    var then' := ReaderGetsIn(block, After(s, first), t);
    rest := first + then';
    AfterAppend(s, first, then');
  }

  /**
   From a state of a run, a reader can be locked out for good without any further misplaced removal if
   and only if one has already happened.
   */
  lemma LockedOutExactly(block: seq<int>, run: seq<Action>)
    ensures ReadEntryPops(block, run) > 0
       <==> exists more, t :: NoPops(Run(block, run), more) && LockedOut(After(Run(block, run), more), t)
  {
    var s := Run(block, run);
    SurplusCountsPops(block, run);
    SoundRun(block, run);
    StrandingExactly(block, run);
    if ReadEntryPops(block, run) > 0 {
      var more :| NoPops(s, more) && Stranded(After(s, more)) && exists t :: After(s, more).Phase(t).WaitRead?;
      var t :| After(s, more).Phase(t).WaitRead?;
      SoundAfter(block, s, more);
      forall rest, w | WritesFrom(w, rest) ensures After(After(s, more), rest).Phase(t).WaitRead? {
        StrandedForever(block, After(s, more), rest);
      }
      assert LockedOut(After(s, more), t);
    } else if more, t :| NoPops(s, more) && LockedOut(After(s, more), t) {
      SoundAfter(block, s, more);
      var rest := ReaderGetsIn(block, After(s, more), t);
      assert WritesFrom(0, rest);
      assert false;
    }
  }

  // ---------------------------------------------------------------------------
  // Two short runs
  // ---------------------------------------------------------------------------

  /** Three writers; the one that arrived last is let in before the one ahead of it. */
  lemma WriteOrderIsNotGuaranteed()
    ensures exists run :: !InOrder(Run([], run).served)
  {
    var r1 := [] + [Call(0, EMPTY_WRITE)];
    var r2 := r1 + [Call(1, EMPTY_WRITE)];
    var r3 := r2 + [Call(2, EMPTY_WRITE)];
    var r4 := r3 + [Return(0)];
    RunNext([], [], Call(0, EMPTY_WRITE));
    RunNext([], r1, Call(1, EMPTY_WRITE));
    RunNext([], r2, Call(2, EMPTY_WRITE));
    RunNext([], r3, Return(0));
    assert Run([], r4).lock == Lock([WriteCondition(0), WriteCondition(1)], 0, false, 2);
    assert Run([], r4).Phase(2).condition == 1;
    RunNext([], r4, Wake(2));
    assert Run([], r4 + [Wake(2)]).served[0] == 1;
  }

  lemma RunFour(block: seq<int>, run: seq<Action>, a: Action, b: Action, c: Action, d: Action)
    ensures Run(block, run + [a] + [b] + [c] + [d]) == Step(Step(Step(Step(Run(block, run), a), b), c), d)
  {
    RunNext(block, run, a);
    RunNext(block, run + [a], b);
    RunNext(block, run + [a] + [b], c);
    RunNext(block, run + [a] + [b] + [c], d);
  }

  /** A reader waits for a writer. */
  lemma ReaderWaits() returns (run: seq<Action>)
    ensures var s := Run([], run);
      && s.lock == Lock([ReadCondition], 0, true, 0) && s.phases.Keys == {0, 1}
      && s.Phase(0).Writing? && s.Phase(0).op == EMPTY_WRITE && s.Phase(1).WaitRead?
  {
    var first := [] + [Call(0, EMPTY_WRITE)];
    RunNext([], [], Call(0, EMPTY_WRITE));
    RunNext([], first, Call(1, ANY_READ));
    run := first + [Call(1, ANY_READ)];
  }

  /** A writer times out while the readers' entry is ahead of its own, and takes the wrong one away. */
  lemma ReadersCanBeStranded()
    ensures exists run :: Stranded(Run([], run)) && Run([], run).Phase(1).WaitRead?
  {
    var run := ReaderWaits();
    var s := Run([], run);
    RunFour([], run, Call(2, EMPTY_WRITE), Return(0), Wake(2), Return(2));
    SecondWriterComes(s);
    ReaderLeftBehind(Step(Step(s, Call(2, EMPTY_WRITE)), Return(0)));
  }

  lemma SecondWriterComes(s: State)
    requires s.lock == Lock([ReadCondition], 0, true, 0) && s.phases.Keys == {0, 1}
    requires s.Phase(0).Writing? && s.Phase(0).op == EMPTY_WRITE && s.Phase(1).WaitRead?
    ensures var s' := Step(Step(s, Call(2, EMPTY_WRITE)), Return(0));
      && s'.lock == Lock([ReadCondition, WriteCondition(0)], 0, false, 1)
      && s'.phases.Keys == {0, 1, 2} && s'.Phase(0).Idle? && s'.Phase(1).WaitRead?
      && s'.Phase(2).WaitWrite? && s'.Phase(2).op == EMPTY_WRITE
  {
    assert Step(s, Call(2, EMPTY_WRITE)).lock == Lock([ReadCondition, WriteCondition(0)], 0, true, 1);
  }

  lemma ReaderLeftBehind(s: State)
    requires s.lock == Lock([ReadCondition, WriteCondition(0)], 0, false, 1)
    requires s.phases.Keys == {0, 1, 2} && s.Phase(0).Idle? && s.Phase(1).WaitRead?
    requires s.Phase(2).WaitWrite? && s.Phase(2).op == EMPTY_WRITE
    ensures var s' := Step(Step(s, Wake(2)), Return(2)); Stranded(s') && s'.Phase(1).WaitRead?
  {
    var s' := Step(Step(s, Wake(2)), Return(2));
    assert s'.lock == Lock([WriteCondition(0)], 0, false, 1);
    assert WaitingWriters(s') == {};
  }
}
