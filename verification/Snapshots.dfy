/**
 Linearizability of the thread-safe data block: in every run of any number of threads, every
 operation answers as if it had been carried out in one instant between its call and its return,
 although it touches the block cell by cell while other threads move. The order of the replies is
 such an order of the operations.
 */
module Snapshots {
  import opened ReadWriteLocks
  import opened DataBlocks

  /** The reply is the one a lone client gets on the block left by the first `version` writes, among them
      all that were completed before the call. That these are no more than have replied by then is
      part of the order of the replies below. */
  ghost predicate Linearized(block: seq<int>, granted: seq<Op>, r: Reply) {
    && r.since <= r.version <= |granted|
    && r.answer == Respond(Contents(block, granted[..r.version]), r.op)
    && (r.op.SetValues? ==> r.since < r.version && granted[r.version - 1] == r.op)
  }

  /** A reader inside the lock has read a prefix of what it came for. */
  ghost predicate ReaderConsistent(s: State, t: Thread)
    requires s.Phase(t).Reading?
  {
    var Reading(op, since, got) := s.Phase(t);
    && !op.SetValues?
    && since <= |s.granted|
    && (op.GetValues? ==> got <= Slice(s.block, op.address, op.count))
  }

  /** The writer inside the lock has carried out a prefix of its slice assignment. */
  ghost predicate WriterConsistent(block: seq<int>, s: State, t: Thread)
    requires s.Phase(t).Writing?
  {
    var Writing(op, since, start, written) := s.Phase(t);
    && op.SetValues?
    && s.granted != []
    && s.granted[|s.granted| - 1] == op
    && since < |s.granted|
    && written <= |op.values|
    && var before := Contents(block, s.granted[..|s.granted| - 1]);
    && start == Min(op.address, |before|)
    && s.block == Patch(before, start, op.values[..written])
  }

  ghost predicate ThreadConsistent(block: seq<int>, s: State, t: Thread) {
    match s.Phase(t)
    case WaitRead(op, since) => !op.SetValues? && since <= s.Completed()
    case WaitWrite(op, since, _, _) => op.SetValues? && since <= s.Completed()
    case Reading(_, _, _) => ReaderConsistent(s, t)
    case Writing(_, _, _, _) => WriterConsistent(block, s, t)
    case _ => true
  }

  ghost predicate Consistent(block: seq<int>, s: State) {
    && (forall t :: ThreadConsistent(block, s, t))
    && (s.lock.writer ==> s.granted != [])
    && (!s.lock.writer ==> s.block == Contents(block, s.granted))
    && (forall i :: 0 <= i < |s.returned| ==> Linearized(block, s.granted, s.returned[i]))
  }

  lemma PatchNothing(block: seq<int>, start: nat)
    requires start <= |block|
    ensures Patch(block, start, []) == block
  {
  }

  lemma LinearizedLater(block: seq<int>, granted: seq<Op>, op: Op, r: Reply)
    requires Linearized(block, granted, r)
    ensures Linearized(block, granted + [op], r)
  {
    assert (granted + [op])[..r.version] == granted[..r.version];
  }

  lemma NobodyInside(s: State)
    requires Exclusive(s) && !s.lock.Occupied()
    ensures forall t :: !s.Phase(t).Reading? && !s.Phase(t).Writing?
  {
    forall t ensures !s.Phase(t).Reading? && !s.Phase(t).Writing? {
      assert t !in Readers(s) && t !in Writers(s);
    }
  }

  /** Granting the write lock starts a slice assignment on the block left by all earlier writes. */
  lemma StartWritingConsistent(
    block: seq<int>, s: State, t: Thread, op: Op, since: nat, ticket: nat, lock: Lock, s': State)
    requires Exclusive(s) && Consistent(block, s)
    requires !s.lock.Occupied() && lock.writer && op.SetValues? && since <= s.Completed()
    requires s' == StartWriting(s, t, op, since, ticket, lock).(calls := s'.calls, served := s'.served)
    ensures Consistent(block, s')
  {
    assert s'.granted[..|s.granted|] == s.granted;
    PatchNothing(s.block, Min(op.address, |s.block|));
    assert op.values[..0] == [];
    forall i | 0 <= i < |s.returned| {
      LinearizedLater(block, s.granted, op, s.returned[i]);
    }
    NobodyInside(s);
    forall u ensures ThreadConsistent(block, s', u) {
      assert ThreadConsistent(block, s, u);
    }
  }

  /** Nothing happens to the data when a thread waits or reads. */
  lemma KeepsConsistent(block: seq<int>, s: State, s': State, t: Thread)
    requires Consistent(block, s) && ThreadConsistent(block, s', t)
    requires s'.phases == s.phases[t := s'.Phase(t)] && s'.lock.writer == s.lock.writer
    requires s'.block == s.block && s'.granted == s.granted && s'.returned == s.returned
    ensures Consistent(block, s')
  {
    forall u ensures ThreadConsistent(block, s', u) {
      assert ThreadConsistent(block, s, u);
    }
  }

  /** Only the writer changes cells, and it is alone. */
  lemma WriteCellConsistent(block: seq<int>, s: State, t: Thread)
    requires Exclusive(s) && Consistent(block, s) && s.Phase(t).Writing?
    ensures Consistent(block, TouchCell(s, t))
  {
    var s' := TouchCell(s, t);
    assert ThreadConsistent(block, s, t);
    WritersAreNoted(s, t);
    assert t in Writers(s);
    SingletonIs(t, Writers(s));
    var Writing(op, _, start, written) := s.Phase(t);
    if written < |op.values| {
      PatchCell(Contents(block, s.granted[..|s.granted| - 1]), start, op.values, written);
    }
    forall u ensures ThreadConsistent(block, s', u) {
      assert ThreadConsistent(block, s, u);
      if s.Phase(u).Reading? {
        ReadersAreCounted(s, u);
      } else if s.Phase(u).Writing? {
        assert u in Writers(s);
      }
    }
  }

  lemma TouchConsistent(block: seq<int>, s: State, t: Thread)
    requires Exclusive(s) && Consistent(block, s)
    ensures Consistent(block, TouchCell(s, t))
  {
    assert ThreadConsistent(block, s, t);
    if s.Phase(t).Writing? {
      WriteCellConsistent(block, s, t);
    } else if TouchCell(s, t) != s {
      KeepsConsistent(block, s, TouchCell(s, t), t);
    }
  }

  /** A finished slice assignment is the whole write; a finished read saw the whole slice. */
  lemma ReturnConsistent(block: seq<int>, s: State, t: Thread)
    requires Exclusive(s) && Consistent(block, s)
    ensures Consistent(block, ReturnFrom(s, t))
  {
    var s' := ReturnFrom(s, t);
    assert ThreadConsistent(block, s, t);
    if s' != s {
      assert s.granted[..|s.granted|] == s.granted;
      if s.Phase(t).Writing? {
        assert t in Writers(s);
        SingletonIs(t, Writers(s));
        var op := s.Phase(t).op;
        assert op.values[..|op.values|] == op.values;
        assert s'.block == Contents(block, s.granted);
      } else {
        assert t in Readers(s);
      }
      forall u ensures ThreadConsistent(block, s', u) {
        assert ThreadConsistent(block, s, u);
        if u != t && s.Phase(u).Writing? {
          assert u in Writers(s);
        }
      }
    }
  }

  lemma AcquireConsistent(block: seq<int>, s: State, a: Action)
    requires Exclusive(s) && Consistent(block, s) && (a.Call? || a.Wake?)
    ensures Consistent(block, Step(s, a))
  {
    var t, s' := a.thread, Step(s, a);
    assert ThreadConsistent(block, s, t);
    if |s'.granted| > |s.granted| {
      StartWritingConsistent(block, s, t, s'.Phase(t).op, s'.Phase(t).since, s'.entered[|s.entered|], s'.lock, s');
    } else if s' != s {
      StepMoves(s, a);
      KeepsConsistent(block, s, s', t);
    }
  }

  lemma ConsistentStep(block: seq<int>, s: State, a: Action)
    requires Exclusive(s) && Consistent(block, s)
    ensures Consistent(block, Step(s, a))
  {
    match a
    case Touch(t) => TouchConsistent(block, s, t);
    case Return(t) => ReturnConsistent(block, s, t);
    case _ => AcquireConsistent(block, s, a);
  }

  lemma {:induction false} ConsistentRun(block: seq<int>, run: seq<Action>)
    ensures Consistent(block, Run(block, run))
  {
    if run != [] {
      var before := run[..|run| - 1];
      ConsistentRun(block, before);
      ExclusiveRun(block, before);
      ConsistentStep(block, Run(block, before), run[|run| - 1]);
    }
  }

  /** The main result: every completed call of every run is linearized, in write-lock order. */
  lemma EveryReplyIsLinearized(block: seq<int>, run: seq<Action>, i: nat)
    requires i < |Run(block, run).returned|
    ensures var s := Run(block, run); Linearized(block, s.granted, s.returned[i])
  {
    ConsistentRun(block, run);
  }

  /** In particular `getValues` returns a slice of one block content, never a mixture of two. */
  lemma ReadsAreSnapshots(block: seq<int>, run: seq<Action>, i: nat)
    requires i < |Run(block, run).returned|
    requires Run(block, run).returned[i].op.GetValues?
    ensures
      var s, r := Run(block, run), Run(block, run).returned[i];
      && r.version <= |s.granted|
      && r.answer == Cells(Slice(Contents(block, s.granted[..r.version]), r.op.address, r.op.count))
  {
    EveryReplyIsLinearized(block, run, i);
  }

  // ---------------------------------------------------------------------------
  // The order of the replies
  // ---------------------------------------------------------------------------

  /** The writes among some replies, in their order. */
  function WritesOf(returned: seq<Reply>): seq<Op> {
    if returned == [] then []
    else
      WritesOf(returned[..|returned| - 1])
      + (if returned[|returned| - 1].op.SetValues? then [returned[|returned| - 1].op] else [])
  }

  /** The reply stands behind exactly the writes that it has seen, a write behind itself. */
  ghost predicate ReplyInOrder(returned: seq<Reply>, granted: seq<Op>, i: nat)
    requires i < |returned|
  {
    |WritesOf(returned[..i + 1])| == returned[i].version && WritesOf(returned[..i + 1]) <= granted
  }

  /** The writes that have replied are the completed ones, in write-lock order. */
  ghost predicate RepliesInOrder(s: State) {
    && s.Completed() <= |s.granted|
    && WritesOf(s.returned) == s.granted[..s.Completed()]
    && forall i :: 0 <= i < |s.returned| ==> ReplyInOrder(s.returned, s.granted, i)
  }

  /** One more reply, behind all writes granted so far. */
  lemma ReplyAppended(returned: seq<Reply>, granted: seq<Op>, r: Reply)
    requires forall i :: 0 <= i < |returned| ==> ReplyInOrder(returned, granted, i)
    requires WritesOf(returned) + (if r.op.SetValues? then [r.op] else []) == granted && r.version == |granted|
    ensures WritesOf(returned + [r]) == granted
    ensures forall i :: 0 <= i <= |returned| ==> ReplyInOrder(returned + [r], granted, i)
  {
    var returned' := returned + [r];
    assert returned'[..|returned|] == returned && returned'[..|returned| + 1] == returned';
    forall i | 0 <= i < |returned| ensures ReplyInOrder(returned', granted, i) {
      assert ReplyInOrder(returned, granted, i);
      assert returned'[..i + 1] == returned[..i + 1];
    }
  }

  /** A reply comes when nobody writes any more; a write that replies was the last one granted. */
  lemma ReturnInOrder(block: seq<int>, s: State, t: Thread)
    requires Exclusive(s) && Consistent(block, s) && RepliesInOrder(s) && ReturnFrom(s, t) != s
    ensures RepliesInOrder(ReturnFrom(s, t))
  {
    var s' := ReturnFrom(s, t);
    var r := s'.returned[|s.returned|];
    assert ThreadConsistent(block, s, t);
    if s.Phase(t).Reading? {
      ReadersAreCounted(s, t);
    } else {
      WritersAreNoted(s, t);
      assert s.granted == s.granted[..|s.granted| - 1] + [s.Phase(t).op];
    }
    assert WritesOf(s.returned) + (if r.op.SetValues? then [r.op] else []) == s.granted;
    ReplyAppended(s.returned, s.granted, r);
    assert s'.returned == s.returned + [r] && s'.granted == s.granted;
  }

  /** Any other step gives no reply and completes no write. */
  lemma NoReply(s: State, a: Action)
    requires Exclusive(s) && !a.Return?
    ensures Step(s, a).returned == s.returned && s.granted <= Step(s, a).granted
    ensures Step(s, a).Completed() == s.Completed()
  {
  }

  lemma MoreGrants(s: State, s': State)
    requires RepliesInOrder(s)
    requires s'.returned == s.returned && s.granted <= s'.granted && s'.Completed() == s.Completed()
    ensures RepliesInOrder(s')
  {
    assert s'.granted[..s.Completed()] == s.granted[..s.Completed()];
    forall i | 0 <= i < |s.returned| ensures ReplyInOrder(s'.returned, s'.granted, i) {
      assert ReplyInOrder(s.returned, s.granted, i);
    }
  }

  lemma StepInOrder(block: seq<int>, s: State, a: Action)
    requires Exclusive(s) && Consistent(block, s) && RepliesInOrder(s)
    ensures RepliesInOrder(Step(s, a))
  {
    if !a.Return? {
      NoReply(s, a);
      MoreGrants(s, Step(s, a));
    } else if Step(s, a) != s {
      ReturnInOrder(block, s, a.thread);
    }
  }

  lemma {:induction false} RunInOrder(block: seq<int>, run: seq<Action>)
    ensures RepliesInOrder(Run(block, run))
  {
    if run != [] {
      var before := run[..|run| - 1];
      RunInOrder(block, before);
      ConsistentRun(block, before);
      ExclusiveRun(block, before);
      StepInOrder(block, Run(block, before), run[|run| - 1]);
    }
  }

  /** The writes that have replied are exactly the completed ones, in write-lock order. */
  lemma CompletedWritesHaveReturned(block: seq<int>, run: seq<Action>)
    ensures var s := Run(block, run);
      s.Completed() <= |s.granted| && WritesOf(s.returned) == s.granted[..s.Completed()]
  {
    RunInOrder(block, run);
  }

  /**
   The replies, in the order in which they were given, are those of a single client that makes the same
   calls in that order: each answers on the block left by the writes that replied before it. Calls that
   do not overlap keep their order, for the one has replied before the other is made.
   */
  lemma RepliesAreSequential(block: seq<int>, run: seq<Action>, i: nat)
    requires i < |Run(block, run).returned|
    ensures
      var s := Run(block, run);
      var r, writes := s.returned[i], WritesOf(s.returned[..i + 1]);
      && r.answer == Respond(Contents(block, writes), r.op)
      && r.version == |writes| && writes <= s.granted
  {
    RunInOrder(block, run);
    EveryReplyIsLinearized(block, run, i);
    var s := Run(block, run);
    assert ReplyInOrder(s.returned, s.granted, i);
    assert WritesOf(s.returned[..i + 1]) == s.granted[..s.returned[i].version];
  }

  lemma {:induction false} WritesGrow(returned: seq<Reply>, i: nat, j: nat)
    requires i <= j <= |returned|
    ensures |WritesOf(returned[..i])| <= |WritesOf(returned[..j])|
    ensures i < j && returned[j - 1].op.SetValues? ==> |WritesOf(returned[..i])| < |WritesOf(returned[..j])|
    decreases j
  {
    if i < j {
      WritesGrow(returned, i, j - 1);
      assert returned[..j][..j - 1] == returned[..j - 1];
    }
  }

  lemma VersionsGrowIn(s: State, i: nat, j: nat)
    requires RepliesInOrder(s) && i < j < |s.returned|
    ensures s.returned[i].version <= s.returned[j].version
    ensures s.returned[j].op.SetValues? ==> s.returned[i].version < s.returned[j].version
  {
    assert ReplyInOrder(s.returned, s.granted, i) && ReplyInOrder(s.returned, s.granted, j);
    WritesGrow(s.returned, i + 1, j + 1);
  }

  /** Later replies have seen no fewer writes, and a write more than all replies before it. */
  lemma VersionsGrow(block: seq<int>, run: seq<Action>, i: nat, j: nat)
    requires i < j < |Run(block, run).returned|
    ensures
      var returned := Run(block, run).returned;
      && returned[i].version <= returned[j].version
      && (returned[j].op.SetValues? ==> returned[i].version < returned[j].version)
  {
    RunInOrder(block, run);
    VersionsGrowIn(Run(block, run), i, j);
  }

  /** A call notes as `since` the number of writes that have replied, so it starts from no fewer writes
      than any earlier reply has seen. */
  lemma CallsStartFromReplies(block: seq<int>, run: seq<Action>, t: Thread, op: Op)
    requires Run(block, run).Phase(t).Idle?
    ensures
      var s, p := Run(block, run), Run(block, run + [Call(t, op)]).Phase(t);
      && (p.WaitRead? || p.WaitWrite? || p.Reading? || p.Writing?)
      && p.since == |WritesOf(s.returned)|
      && forall i :: 0 <= i < |s.returned| ==> s.returned[i].version <= p.since
  {
    var s := Run(block, run);
    RunNext(block, run, Call(t, op));
    RunInOrder(block, run);
    forall i | 0 <= i < |s.returned| ensures s.returned[i].version <= |WritesOf(s.returned)| {
      assert ReplyInOrder(s.returned, s.granted, i);
      WritesGrow(s.returned, i + 1, |s.returned|);
      assert s.returned[..|s.returned|] == s.returned;
    }
  }

  /** Whenever nobody writes, the block is exactly what the granted writes make of it. */
  lemma QuiescentBlock(block: seq<int>, run: seq<Action>)
    ensures var s := Run(block, run); Writers(s) == {} ==> s.block == Contents(block, s.granted)
  {
    ConsistentRun(block, run);
    ExclusiveRun(block, run);
  }
}
