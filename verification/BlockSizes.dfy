/**
 The size of a shared block. A slice assignment makes a list longer when it reaches beyond its end, so the
 size is kept exactly by writes that fit; then every reply has as many cells as were asked for, and
 polls of the whole block see one whole update.
 */
module BlockSizes {
  import opened ReadWriteLocks
  import opened DataBlocks
  import opened Snapshots

  predicate FitsIn(op: Op, size: nat) {
    op.SetValues? ==> op.address + |op.values| <= size
  }

  lemma ApplySize(block: seq<int>, op: Op)
    ensures |Apply(block, op)| >= |block|
    ensures FitsIn(op, |block|) ==> |Apply(block, op)| == |block|
    ensures op.SetValues? && op.address <= |block| && !FitsIn(op, |block|) ==> |Apply(block, op)| > |block|
  {
  }

  lemma {:induction false} ContentsSize(block: seq<int>, ops: seq<Op>)
    requires forall op :: op in ops ==> FitsIn(op, |block|)
    ensures |Contents(block, ops)| == |block|
  {
    if ops != [] {
      ContentsSize(block, ops[..|ops| - 1]);
      ApplySize(Contents(block, ops[..|ops| - 1]), ops[|ops| - 1]);
    }
  }

  // ---------------------------------------------------------------------------
  // Cell by cell
  // ---------------------------------------------------------------------------

  /** What a read answers: the cells from the address on that there are. */
  ghost predicate AreCells(block: seq<int>, address: nat, count: nat, cells: seq<int>) {
    && |cells| == (if address >= |block| then 0 else if address + count <= |block| then count else |block| - address)
    && forall k :: 0 <= k < |cells| ==> cells[k] == block[address + k]
  }

  /** What a write leaves: the values from the address on, or at the end if that is beyond it, and all
      other cells as they were. */
  ghost predicate IsWritten(block: seq<int>, address: nat, values: seq<int>, after: seq<int>) {
    var at := if address <= |block| then address else |block|;
    && |after| == (if at + |values| <= |block| then |block| else at + |values|)
    && forall k :: 0 <= k < |after| ==> after[k] == if at <= k < at + |values| then values[k - at] else block[k]
  }

  /** The answer to one call on a block, cell by cell. */
  ghost predicate AnswersTo(block: seq<int>, op: Op, answer: Answer) {
    match op
    case Validate(address, count) => answer.Flag? && (answer.ok <==> address + count <= |block|)
    case GetValues(address, count) => answer.Cells? && AreCells(block, address, count, answer.cells)
    case SetValues(_, _) => answer == Done
  }

  lemma RespondByCells(block: seq<int>, op: Op)
    ensures AnswersTo(block, op, Respond(block, op))
  {
  }

  lemma ApplyByCells(block: seq<int>, op: Op)
    ensures op.SetValues? ==> IsWritten(block, op.address, op.values, Apply(block, op))
    ensures !op.SetValues? ==> Apply(block, op) == block
  {
  }

  /** The block after some writes, one after the other, cell by cell: `states[k]` is left by the first k. */
  ghost predicate IsHistory(ops: seq<Op>, states: seq<seq<int>>) {
    && |states| == |ops| + 1
    && forall k :: 0 <= k < |ops| ==>
         if ops[k].SetValues? then IsWritten(states[k], ops[k].address, ops[k].values, states[k + 1])
         else states[k + 1] == states[k]
  }

  lemma {:induction false} HistoryOf(block: seq<int>, ops: seq<Op>) returns (states: seq<seq<int>>)
    ensures IsHistory(ops, states) && states[0] == block
    ensures forall k :: 0 <= k <= |ops| ==> states[k] == Contents(block, ops[..k])
  {
    if ops == [] {
      states := [block];
    } else {
      var n := |ops| - 1;
      var front := HistoryOf(block, ops[..n]);
      states := front + [Contents(block, ops)];
      assert ops[..n][..n] == ops[..n] && ops[..|ops|] == ops;
      ApplyByCells(Contents(block, ops[..n]), ops[n]);
      forall k | 0 <= k <= |ops| ensures states[k] == Contents(block, ops[..k]) {
        if k <= n {
          assert ops[..n][..k] == ops[..k];
        }
      }
    }
  }

  /** Every reply of every run, cell by cell: the granted writes lead from state to state, and each call is
      answered on the state that its version names. */
  lemma RepliesByCells(block: seq<int>, run: seq<Action>) returns (states: seq<seq<int>>)
    ensures
      var s := Run(block, run);
      && IsHistory(s.granted, states) && states[0] == block
      && forall i :: 0 <= i < |s.returned| ==>
           var r := s.returned[i];
           r.version < |states| && AnswersTo(states[r.version], r.op, r.answer)
  {
    var s := Run(block, run);
    states := HistoryOf(block, s.granted);
    forall i | 0 <= i < |s.returned|
      ensures s.returned[i].version < |states|
      ensures AnswersTo(states[s.returned[i].version], s.returned[i].op, s.returned[i].answer)
    {
      EveryReplyIsLinearized(block, run, i);
      RespondByCells(Contents(block, s.granted[..s.returned[i].version]), s.returned[i].op);
    }
  }

  // ---------------------------------------------------------------------------
  // Where operations come from
  // ---------------------------------------------------------------------------

  /** The operation has been called in the run. */
  ghost predicate Called(run: seq<Action>, op: Op) {
    exists i :: 0 <= i < |run| && run[i].Call? && run[i].op == op
  }

  /** What threads are busy with, what has been granted and what has been answered has been called. */
  ghost predicate AllCalled(run: seq<Action>, s: State) {
    && (forall t :: !s.Phase(t).Idle? && !s.Phase(t).Failed? ==> Called(run, s.Phase(t).op))
    && (forall i :: 0 <= i < |s.granted| ==> Called(run, s.granted[i]))
  }

  lemma CalledLater(run: seq<Action>, a: Action, op: Op)
    requires Called(run, op) || (a.Call? && a.op == op)
    ensures Called(run + [a], op)
  {
    if Called(run, op) {
      var i :| 0 <= i < |run| && run[i].Call? && run[i].op == op;
      assert (run + [a])[i] == run[i];
    } else {
      assert (run + [a])[|run|] == a;
    }
  }

  lemma PhaseComesFrom(s: State, a: Action)
    ensures var p := Step(s, a).Phase(a.thread);
      p.Idle? || p.Failed? || (a.Call? && s.Phase(a.thread).Idle? && p.op == a.op)
      || (!s.Phase(a.thread).Idle? && !s.Phase(a.thread).Failed? && p.op == s.Phase(a.thread).op)
    ensures var granted, p := Step(s, a).granted, Step(s, a).Phase(a.thread);
      granted == s.granted || (p.Writing? && granted == s.granted + [p.op])
  {
  }

  lemma AllCalledStep(run: seq<Action>, s: State, a: Action)
    requires AllCalled(run, s)
    ensures AllCalled(run + [a], Step(s, a))
  {
    var s', t := Step(s, a), a.thread;
    StepMoves(s, a);
    PhaseComesFrom(s, a);
    assert !s.Phase(t).Idle? && !s.Phase(t).Failed? ==> Called(run, s.Phase(t).op);
    forall u | !s'.Phase(u).Idle? && !s'.Phase(u).Failed? ensures Called(run + [a], s'.Phase(u).op) {
      assert u != t ==> s'.Phase(u) == s.Phase(u) && Called(run, s.Phase(u).op);
      CalledLater(run, a, s'.Phase(u).op);
    }
    forall i | 0 <= i < |s'.granted| ensures Called(run + [a], s'.granted[i]) {
      assert i < |s.granted| ==> Called(run, s.granted[i]) && s'.granted[i] == s.granted[i];
      assert i >= |s.granted| ==> s'.granted[i] == s'.Phase(t).op && s'.Phase(t).Writing?;
      CalledLater(run, a, s'.granted[i]);
    }
  }

  lemma {:induction false} AllCalledRun(block: seq<int>, run: seq<Action>)
    ensures AllCalled(run, Run(block, run))
  {
    if run != [] {
      var n := |run| - 1;
      AllCalledRun(block, run[..n]);
      AllCalledStep(run[..n], Run(block, run[..n]), run[n]);
      assert run[..n] + [run[n]] == run;
    }
  }

  // ---------------------------------------------------------------------------
  // Sizes and whole updates
  // ---------------------------------------------------------------------------

  /** All write calls of the run fit the block. */
  ghost predicate CallsFit(run: seq<Action>, size: nat) {
    forall i :: 0 <= i < |run| && run[i].Call? ==> FitsIn(run[i].op, size)
  }

  lemma GrantedFit(block: seq<int>, run: seq<Action>)
    requires CallsFit(run, |block|)
    ensures forall op :: op in Run(block, run).granted ==> FitsIn(op, |block|)
  {
    AllCalledRun(block, run);
    var s := Run(block, run);
    forall op | op in s.granted ensures FitsIn(op, |block|) {
      var i :| 0 <= i < |s.granted| && s.granted[i] == op;
      assert Called(run, s.granted[i]);
    }
  }

  lemma PatchSize(block: seq<int>, start: nat, values: seq<int>)
    requires start + |values| <= |block|
    ensures |Patch(block, start, values)| == |block|
  {
  }

  /** The block keeps its size in every state, in the middle of a write too. */
  lemma BlockKeepsSize(block: seq<int>, run: seq<Action>)
    requires CallsFit(run, |block|)
    ensures |Run(block, run).block| == |block|
  {
    var s := Run(block, run);
    ConsistentRun(block, run);
    ExclusiveRun(block, run);
    GrantedFit(block, run);
    if s.lock.writer {
      var before := s.granted[..|s.granted| - 1];
      ContentsSize(block, before);
      assert |Writers(s)| == 1;
      var t :| t in Writers(s);
      assert ThreadConsistent(block, s, t) && s.Phase(t).Writing?;
      var Writing(op, _, start, written) := s.Phase(t);
      assert op in s.granted;
      PatchSize(Contents(block, before), start, op.values[..written]);
    } else {
      ContentsSize(block, s.granted);
    }
  }

  /** So every read of cells of the block is answered with exactly as many as it asked for. */
  lemma ReadsHaveTheSize(block: seq<int>, run: seq<Action>, i: nat)
    requires CallsFit(run, |block|) && i < |Run(block, run).returned|
    ensures var r := Run(block, run).returned[i];
      r.op.GetValues? && r.op.address + r.op.count <= |block| ==> r.answer.Cells? && |r.answer.cells| == r.op.count
  {
    EveryReplyIsLinearized(block, run, i);
    GrantedFit(block, run);
    var s := Run(block, run);
    ContentsSize(block, s.granted[..s.returned[i].version]);
  }

  /** All write calls of the run replace the whole block. */
  ghost predicate WholeUpdates(run: seq<Action>, size: nat) {
    forall i :: 0 <= i < |run| && run[i].Call? && run[i].op.SetValues? ==>
      run[i].op.address == 0 && |run[i].op.values| == size
  }

  /** What a read of the whole block may answer: the block at the start, or the values of one update. */
  ghost predicate IsOneUpdate(block: seq<int>, granted: seq<Op>, cells: seq<int>) {
    cells == block || exists i :: 0 <= i < |granted| && granted[i].SetValues? && cells == granted[i].values
  }

  lemma {:induction false} WholeContents(block: seq<int>, ops: seq<Op>)
    requires forall op :: op in ops && op.SetValues? ==> op.address == 0 && |op.values| == |block|
    ensures IsOneUpdate(block, ops, Contents(block, ops)) && |Contents(block, ops)| == |block|
  {
    if ops != [] {
      var front, last := ops[..|ops| - 1], ops[|ops| - 1];
      WholeContents(block, front);
      assert last in ops;
      if last.SetValues? {
        assert Contents(block, ops) == last.values;
      }
    }
  }

  /** A read of the whole block never mixes two updates. */
  lemma WholeReadsSeeOneUpdate(block: seq<int>, run: seq<Action>, i: nat)
    requires WholeUpdates(run, |block|) && i < |Run(block, run).returned|
    requires Run(block, run).returned[i].op == GetValues(0, |block|)
    ensures var s := Run(block, run);
      && s.returned[i].answer.Cells? && |s.returned[i].answer.cells| == |block|
      && IsOneUpdate(block, s.granted, s.returned[i].answer.cells)
  {
    var s := Run(block, run);
    EveryReplyIsLinearized(block, run, i);
    var seen := s.granted[..s.returned[i].version];
    AllCalledRun(block, run);
    forall op | op in seen && op.SetValues? ensures op.address == 0 && |op.values| == |block| {
      var k :| 0 <= k < |seen| && seen[k] == op;
      assert Called(run, s.granted[k]);
    }
    WholeContents(block, seen);
    assert s.returned[i].answer == Cells(Contents(block, seen));
  }
}
