/**
 The writer-biased reader/writer lock (modbusgenerator/readwritelock.py).

 Every `with self.lock` section is one atomic step. A `condition.wait(1)` inside a section releases
 the lock, so each acquire operation is cut there: `Request...` runs from the call to the first wait
 (or to the end), `Recheck...` runs from a wake-up to the next wait (or to the end). Because a wait
 times out after a second, a recheck may happen at any moment; notifications only make it sooner.
 */
module ReadWriteLocks {

  /** The entries of the waiting queue. Every waiting writer makes a condition of its own; `id`
      stands for the identity of that object. */
  datatype Condition = ReadCondition | WriteCondition(id: nat)

  /** How a section of an acquire operation ends. */
  datatype Outcome = Granted | Waits | IndexError

  /** The fields of the lock as one value; `created` is the number of writer conditions made so far. */
  datatype Lock = Lock(queue: seq<Condition>, readers: int, writer: bool, created: nat) {

    /** Some writer runs, or the queue is headed by somebody who is not a reader. */
    predicate PendingWriter() {
      writer || (queue != [] && queue[0] != ReadCondition)
    }

    /** What a writer waits for. */
    predicate Occupied() {
      writer || readers != 0
    }

    function RequestReader(): (Lock, Outcome) {
      if !PendingWriter() then (this.(readers := readers + 1), Granted)
      else if ReadCondition in queue then (this, Waits)
      else (this.(queue := queue + [ReadCondition]), Waits)
    }

    function RecheckReader(): (Lock, Outcome) {
      if PendingWriter() then (this, Waits)
      else if queue != [] && queue[0] == ReadCondition
      then (this.(queue := queue[1..], readers := readers + 1), Granted)
      else (this.(readers := readers + 1), Granted)
    }

    function RequestWriter(): (Lock, Outcome) {
      if Occupied() then (this.(queue := queue + [WriteCondition(created)], created := created + 1), Waits)
      else (this.(writer := true), Granted)
    }

    /** The departing writer removes the head of the queue, whatever that is; an empty queue would
        make `pop(0)` raise. */
    function RecheckWriter(): (Lock, Outcome) {
      if Occupied() then (this, Waits)
      else if queue == [] then (this, IndexError)
      else (this.(queue := queue[1..], writer := true), Granted)
    }

    function ReleaseReader(): Lock {
      this.(readers := if readers - 1 > 0 then readers - 1 else 0)
    }

    function ReleaseWriter(): Lock {
      this.(writer := false)
    }
  }

  const UNLOCKED := Lock([], 0, false, 0)

  /** The lock object, its methods being the sections above carried out in place. */
  class ReadWriteLock {
    var queue: seq<Condition>
    var readers: int
    var writer: bool
    var created: nat

    function Value(): Lock
      reads this
    {
      Lock(queue, readers, writer, created)
    }

    constructor ()
      ensures Value() == UNLOCKED
    {
      queue, readers, writer, created := [], 0, false, 0;
    }

    method RequestReader() returns (outcome: Outcome)
      modifies this
      ensures (Value(), outcome) == old(Value()).RequestReader()
    {
      if Value().PendingWriter() {
        if ReadCondition !in queue {
          queue := queue + [ReadCondition];
        }
        return Waits;
      }
      readers := readers + 1;
      return Granted;
    }

    method RecheckReader() returns (outcome: Outcome)
      modifies this
      ensures (Value(), outcome) == old(Value()).RecheckReader()
    {
      if Value().PendingWriter() {
        return Waits;
      }
      if queue != [] && queue[0] == ReadCondition {
        queue := queue[1..];
      }
      readers := readers + 1;
      return Granted;
    }

    method RequestWriter() returns (outcome: Outcome)
      modifies this
      ensures (Value(), outcome) == old(Value()).RequestWriter()
    {
      if writer || readers != 0 {
        var condition := WriteCondition(created);
        created := created + 1;
        queue := queue + [condition];
        return Waits;
      }
      writer := true;
      return Granted;
    }

    method RecheckWriter() returns (outcome: Outcome)
      modifies this
      ensures (Value(), outcome) == old(Value()).RecheckWriter()
    {
      if writer || readers != 0 {
        return Waits;
      }
      if queue == [] {
        return IndexError;
      }
      queue := queue[1..];
      writer := true;
      return Granted;
    }

    method ReleaseReader()
      modifies this
      ensures Value() == old(Value()).ReleaseReader()
    {
      readers := if 0 < readers - 1 then readers - 1 else 0;
    }

    method ReleaseWriter()
      modifies this
      ensures Value() == old(Value()).ReleaseWriter()
    {
      writer := false;
    }
  }
}
