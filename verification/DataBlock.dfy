/**
 The thread-safe data block (modbusgenerator/threadsafe_datastore.py) as a transition system over
 any number of threads, each using the lock of ReadWriteLock.dfy.

 The block is a list: `getValues` is a slice of it and `setValues` a slice assignment. Neither is
 atomic here: a thread inside the lock touches one cell per step, so that interleavings in the middle
 of an operation are all covered and exclusion has to be earned from the lock.
 */
module DataBlocks {
  import opened Wrappers
  import opened ReadWriteLocks

  type Thread = nat

  datatype Op =
    | Validate(address: nat, count: nat)
    | GetValues(address: nat, count: nat)
    | SetValues(address: nat, values: seq<int>)

  datatype Answer = Flag(ok: bool) | Cells(cells: seq<int>) | Done

  /** Where a thread is. `since` is the number of writes completed when it called, `ticket` the number
      of write calls made before its own. */
  datatype Phase =
    | Idle
    | WaitRead(op: Op, since: nat)
    | WaitWrite(op: Op, since: nat, condition: nat, ticket: nat)
    | Reading(op: Op, since: nat, got: seq<int>)
    | Writing(op: Op, since: nat, start: nat, written: nat)
    | Failed

  /** A completed call; `version` is the number of writes that had been granted the lock by then. */
  datatype Reply = Reply(op: Op, since: nat, version: nat, answer: Answer)

  /**
   `appender`, `granted`, `calls`, `served`, `entered` and `returned` only record history: the reader
   that last queued the read condition, the writes in the order in which they got the lock, the number
   of write calls so far, the conditions of waiting writers and the tickets of all writers in the order
   in which they were let in, and the completed calls.
   */
  datatype State = State(
    lock: Lock,
    block: seq<int>,
    phases: map<Thread, Phase>,
    appender: Thread,
    granted: seq<Op>,
    calls: nat,
    served: seq<nat>,
    entered: seq<nat>,
    returned: seq<Reply>)
  {
    function Phase(t: Thread): Phase {
      if t in phases then phases[t] else Idle
    }

    function Set(t: Thread, p: Phase): State {
      this.(phases := phases[t := p])
    }

    function Completed(): nat {
      if lock.writer && granted != [] then |granted| - 1 else |granted|
    }
  }

  // ---------------------------------------------------------------------------
  // The block
  // ---------------------------------------------------------------------------

  function Min(a: int, b: int): int {
    if a < b then a else b
  }

  /** `block[address:address+count]` */
  function Slice(block: seq<int>, address: nat, count: nat): seq<int> {
    block[Min(address, |block|)..Min(address + count, |block|)]
  }

  /** The block after `block[start:start+len(values)] = values`. */
  function Patch(block: seq<int>, start: nat, values: seq<int>): seq<int>
    requires start <= |block|
  {
    block[..start] + values + (if start + |values| < |block| then block[start + |values|..] else [])
  }

  /** One cell of a slice assignment. */
  function Store(block: seq<int>, at: nat, value: int): seq<int>
    requires at <= |block|
  {
    if at < |block| then block[at := value] else block + [value]
  }

  /** The whole effect of one operation on the block. */
  function Apply(block: seq<int>, op: Op): seq<int> {
    if op.SetValues? then Patch(block, Min(op.address, |block|), op.values) else block
  }

  /** What one operation answers on a block that nobody else touches. */
  function Respond(block: seq<int>, op: Op): Answer {
    match op
    case Validate(address, count) => Flag(address + count <= |block|)
    case GetValues(address, count) => Cells(Slice(block, address, count))
    case SetValues(_, _) => Done
  }

  /** The block after the operations `ops`, one after the other. */
  function Contents(block: seq<int>, ops: seq<Op>): seq<int> {
    if ops == [] then block else Apply(Contents(block, ops[..|ops| - 1]), ops[|ops| - 1])
  }

  // ---------------------------------------------------------------------------
  // Steps and runs
  // ---------------------------------------------------------------------------

  datatype Action =
    | Call(thread: Thread, op: Op)
    | Wake(thread: Thread)
    | Touch(thread: Thread)
    | Return(thread: Thread)

  function Init(block: seq<int>): State {
    State(UNLOCKED, block, map[], 0, [], 0, [], [], [])
  }

  function StartReading(s: State, t: Thread, op: Op, since: nat, lock: Lock): State {
    s.(lock := lock).Set(t, Reading(op, since, []))
  }

  function StartWriting(s: State, t: Thread, op: Op, since: nat, ticket: nat, lock: Lock): State {
    s.(lock := lock, granted := s.granted + [op], entered := s.entered + [ticket])
     .Set(t, Writing(op, since, Min(op.address, |s.block|), 0))
  }

  function CallReader(s: State, t: Thread, op: Op): State {
    var (lock, outcome) := s.lock.RequestReader();
    if outcome.Granted? then StartReading(s, t, op, s.Completed(), lock)
    else s.(lock := lock, appender := if lock.queue != s.lock.queue then t else s.appender)
          .Set(t, WaitRead(op, s.Completed()))
  }

  function CallWriter(s: State, t: Thread, op: Op): State {
    var (lock, outcome) := s.lock.RequestWriter();
    var s' := s.(calls := s.calls + 1);
    if outcome.Granted? then StartWriting(s', t, op, s.Completed(), s.calls, lock)
    else s'.(lock := lock).Set(t, WaitWrite(op, s.Completed(), s.lock.created, s.calls))
  }

  function WakeReader(s: State, t: Thread, op: Op, since: nat): State {
    var (lock, outcome) := s.lock.RecheckReader();
    if outcome.Granted? then StartReading(s, t, op, since, lock) else s
  }

  function WakeWriter(s: State, t: Thread, op: Op, since: nat, condition: nat, ticket: nat): State {
    var (lock, outcome) := s.lock.RecheckWriter();
    match outcome
    case Granted => StartWriting(s, t, op, since, ticket, lock).(served := s.served + [condition])
    case Waits => s
    case IndexError => s.Set(t, Failed)
  }

  function TouchCell(s: State, t: Thread): State {
    match s.Phase(t)
    case Reading(op, since, got) =>
      if op.GetValues? && |got| < |Slice(s.block, op.address, op.count)|
      then s.Set(t, Reading(op, since, got + [s.block[op.address + |got|]]))
      else s
    case Writing(op, since, start, written) =>
      if op.SetValues? && written < |op.values| && start + written <= |s.block|
      then s.(block := Store(s.block, start + written, op.values[written]))
            .Set(t, Writing(op, since, start, written + 1))
      else s
    case _ => s
  }

  function ReturnFrom(s: State, t: Thread): State {
    match s.Phase(t)
    case Reading(op, since, got) =>
      if op.GetValues? && |got| < |Slice(s.block, op.address, op.count)| then s
      else
        var answer := if op.GetValues? then Cells(got) else Respond(s.block, op);
        s.(lock := s.lock.ReleaseReader(), returned := s.returned + [Reply(op, since, |s.granted|, answer)])
         .Set(t, Idle)
    case Writing(op, since, start, written) =>
      if op.SetValues? && written < |op.values| then s
      else
        s.(lock := s.lock.ReleaseWriter(), returned := s.returned + [Reply(op, since, |s.granted|, Done)])
         .Set(t, Idle)
    case _ => s
  }

  /** One step of one thread. A thread that is not in a position to act leaves everything alone. */
  function Step(s: State, a: Action): State {
    match a
    case Call(t, op) =>
      if !s.Phase(t).Idle? then s else if op.SetValues? then CallWriter(s, t, op) else CallReader(s, t, op)
    case Wake(t) =>
      (match s.Phase(t)
       case WaitRead(op, since) => WakeReader(s, t, op, since)
       case WaitWrite(op, since, condition, ticket) => WakeWriter(s, t, op, since, condition, ticket)
       case _ => s)
    case Touch(t) => TouchCell(s, t)
    case Return(t) => ReturnFrom(s, t)
  }

  /** The state after the actions `run`, from a fresh lock around `block`. */
  function Run(block: seq<int>, run: seq<Action>): State {
    if run == [] then Init(block) else Step(Run(block, run[..|run| - 1]), run[|run| - 1])
  }

  lemma RunNext(block: seq<int>, run: seq<Action>, a: Action)
    ensures Run(block, run + [a]) == Step(Run(block, run), a)
  {
    assert (run + [a])[..|run|] == run;
  }

  /** Operations for short runs in which only the lock matters. */
  const EMPTY_WRITE := SetValues(0, [])
  const ANY_READ := Validate(0, 0)

  // ---------------------------------------------------------------------------
  // Exclusion
  // ---------------------------------------------------------------------------

  ghost function Readers(s: State): set<Thread> {
    set t | t in s.phases && s.phases[t].Reading?
  }

  ghost function Writers(s: State): set<Thread> {
    set t | t in s.phases && s.phases[t].Writing?
  }

  ghost function WaitingWriters(s: State): set<Thread> {
    set t | t in s.phases && s.phases[t].WaitWrite?
  }

  /** The counters of the lock are the truth about the threads, and a writer is alone. */
  ghost predicate Exclusive(s: State) {
    && s.lock.readers == |Readers(s)|
    && |Writers(s)| == (if s.lock.writer then 1 else 0)
    && (s.lock.writer ==> Readers(s) == {})
  }

  /** Changing the phase of one thread moves only that thread between the three sets. */
  lemma Moves(s: State, s': State, t: Thread, p: Phase)
    requires s'.phases == s.phases[t := p]
    ensures Readers(s') == if p.Reading? then Readers(s) + {t} else Readers(s) - {t}
    ensures Writers(s') == if p.Writing? then Writers(s) + {t} else Writers(s) - {t}
    ensures WaitingWriters(s') == if p.WaitWrite? then WaitingWriters(s) + {t} else WaitingWriters(s) - {t}
  {
  }

  lemma StepMoves(s: State, a: Action)
    ensures Step(s, a) == s || Step(s, a).phases == s.phases[a.thread := Step(s, a).Phase(a.thread)]
  {
  }

  lemma SingletonIs<T>(x: T, xs: set<T>)
    requires x in xs && |xs| == 1
    ensures xs == {x}
  {
    assert |xs - {x}| == 0;
  }

  function Count(b: bool): int {
    if b then 1 else 0
  }

  /** One thread changes phase and the lock changes its books accordingly. */
  lemma ExclusiveMove(s: State, s': State, t: Thread, p: Phase)
    requires Exclusive(s) && s'.phases == s.phases[t := p]
    requires s'.lock.readers == s.lock.readers + Count(p.Reading?) - Count(s.Phase(t).Reading?)
    requires Count(s'.lock.writer) == Count(s.lock.writer) + Count(p.Writing?) - Count(s.Phase(t).Writing?)
    requires p.Reading? && !s.Phase(t).Reading? ==> !s.lock.writer
    requires p.Writing? && !s.Phase(t).Writing? ==> !s.lock.Occupied()
    ensures Exclusive(s')
  {
    Moves(s, s', t, p);
    assert t in Readers(s) <==> s.Phase(t).Reading?;
    assert t in Writers(s) <==> s.Phase(t).Writing?;
    assert s.lock.readers == 0 ==> Readers(s) == {};
  }

  lemma ReadersAreCounted(s: State, t: Thread)
    requires Exclusive(s) && s.Phase(t).Reading?
    ensures s.lock.readers > 0 && !s.lock.writer
  {
    assert t in Readers(s);
  }

  lemma WritersAreNoted(s: State, t: Thread)
    requires Exclusive(s) && s.Phase(t).Writing?
    ensures s.lock.writer && s.lock.readers == 0
  {
    assert t in Writers(s);
  }

  lemma ExclusiveStep(s: State, a: Action)
    requires Exclusive(s)
    ensures Exclusive(Step(s, a))
  {
    var t, s' := a.thread, Step(s, a);
    StepMoves(s, a);
    if s' != s {
      if s.Phase(t).Reading? {
        ReadersAreCounted(s, t);
      } else if s.Phase(t).Writing? {
        WritersAreNoted(s, t);
      }
      ExclusiveMove(s, s', t, s'.Phase(t));
    }
  }

  lemma {:induction false} ExclusiveRun(block: seq<int>, run: seq<Action>)
    ensures Exclusive(Run(block, run))
  {
    if run != [] {
      ExclusiveRun(block, run[..|run| - 1]);
      ExclusiveStep(Run(block, run[..|run| - 1]), run[|run| - 1]);
    } else {
      assert Readers(Init(block)) == {} == Writers(Init(block));
    }
  }

  // ---------------------------------------------------------------------------
  // The object
  // ---------------------------------------------------------------------------

  /** The decorated block as one thread sees it: a call up to its return or to its first wait, while no
      other thread moves. `None` or false is a wait. What happens after a wait, and how calls interleave,
      is the subject of the transition system above. */
  class ThreadSafeDataBlock {
    const rwlock: ReadWriteLock
    var block: seq<int>

    constructor (block: seq<int>)
      ensures this.block == block && fresh(rwlock) && rwlock.Value() == UNLOCKED
    {
      rwlock := new ReadWriteLock();
      this.block := block;
    }

    method Validate(address: nat, count: nat) returns (answer: Option<Answer>)
      modifies rwlock
      ensures answer ==
        if old(rwlock.Value()).PendingWriter() then None else Some(Respond(block, Op.Validate(address, count)))
      ensures rwlock.Value() == AfterRead(old(rwlock.Value()))
    {
      var outcome := rwlock.RequestReader();
      if outcome.Waits? {
        return None;
      }
      answer := Some(Flag(address + count <= |block|));
      rwlock.ReleaseReader();
    }

    method GetValues(address: nat, count: nat) returns (answer: Option<Answer>)
      modifies rwlock
      ensures answer ==
        if old(rwlock.Value()).PendingWriter() then None else Some(Respond(block, Op.GetValues(address, count)))
      ensures rwlock.Value() == AfterRead(old(rwlock.Value()))
    {
      var outcome := rwlock.RequestReader();
      if outcome.Waits? {
        return None;
      }
      var got: seq<int> := [];
      var end := Min(address + count, |block|);
      for i := Min(address, |block|) to end
        invariant got == block[Min(address, |block|)..i]
      {
        got := got + [block[i]];
      }
      answer := Some(Cells(got));
      rwlock.ReleaseReader();
    }

    method SetValues(address: nat, values: seq<int>) returns (done: bool)
      modifies this, rwlock
      ensures done <==> !old(rwlock.Value()).Occupied()
      ensures block == if done then Apply(old(block), Op.SetValues(address, values)) else old(block)
      ensures rwlock.Value() == if done then old(rwlock.Value()) else old(rwlock.Value()).RequestWriter().0
    {
      var outcome := rwlock.RequestWriter();
      if outcome.Waits? {
        return false;
      }
      var start := Min(address, |block|);
      for i := 0 to |values|
        invariant rwlock.Value() == old(rwlock.Value()).(writer := true)
        invariant start <= |old(block)| && block == Patch(old(block), start, values[..i])
      {
        PatchCell(old(block), start, values, i);
        block := Store(block, start + i, values[i]);
      }
      assert values[..|values|] == values;
      rwlock.ReleaseWriter();
      return true;
    }
  }

  /** A reader that gets in leaves the lock as it found it (a reader count below 0, which no run has,
      would become 0); one that has to wait leaves an entry in the queue. */
  function AfterRead(lock: Lock): Lock {
    if lock.PendingWriter() then lock.RequestReader().0
    else lock.(readers := if lock.readers < 0 then 0 else lock.readers)
  }

  /** One more cell continues a slice assignment. */
  lemma PatchCell(block: seq<int>, start: nat, values: seq<int>, k: nat)
    requires start <= |block| && k < |values|
    ensures start + k <= |Patch(block, start, values[..k])|
    ensures Store(Patch(block, start, values[..k]), start + k, values[k]) == Patch(block, start, values[..k + 1])
  {
  }
}
