/**
 All interleavings of callbacks and periodic steps of the multiplexer: array accesses stay in bounds,
 a clear flag means that outputs agree with inputs, and after a periodic step every mapped output shows
 the last value received. The conditions on the configuration that this takes are exact.
 */
module MultiplexerRuns {
  import opened Wrappers
  import opened PointTypes
  import opened Multiplexer

  datatype Action = Callback(slot: Slot, batch: seq<Event>) | PassThru

  /** The state after some actions, from the freshly configured one; `None` once an access has gone
      out of bounds. */
  function Run(layout: Layout, run: seq<Action>): Option<State> {
    if run == [] then Some(Init(layout))
    else
      match Run(layout, run[..|run| - 1])
      case None => None
      case Some(s) =>
        match run[|run| - 1]
        case Callback(slot, batch) => Some(Process(s, slot, batch))
        case PassThru => CopyChanges(s, layout.sources)
  }

  // ---------------------------------------------------------------------------
  // Conditions on the configuration
  // ---------------------------------------------------------------------------

  /** The sources are the keys of a map. */
  ghost predicate DistinctNames(sources: seq<Source>) {
    forall i, j :: 0 <= i < j < |sources| ==> sources[i].name != sources[j].name
  }

  /** A mapped point of one of the three multiplexed types. */
  ghost predicate Maps(layout: Layout, a: Source, p: MappedPoint) {
    a in layout.sources && p in a.points && p.pointType in KINDS
  }

  ghost predicate PointInBounds(layout: Layout, a: Source, p: MappedPoint) {
    0 <= p.index < SizeOf(layout, p.pointType) && 0 <= p.inputIndex < InputSize(a.points, p.pointType)
  }

  ghost predicate InBounds(layout: Layout) {
    forall a, p :: Maps(layout, a, p) ==> PointInBounds(layout, a, p)
  }

  /** No output point is fed from two different input points. */
  ghost predicate NoClash(layout: Layout) {
    forall a, p, b, q :: Maps(layout, a, p) && Maps(layout, b, q) && p.pointType == q.pointType && p.index == q.index
      ==> a.name == b.name && p.inputIndex == q.inputIndex
  }

  // ---------------------------------------------------------------------------
  // Sizes
  // ---------------------------------------------------------------------------

  ghost predicate Sized(layout: Layout, s: State) {
    && (forall a, k :: a in layout.sources && k in KINDS ==>
          Slot(k, a.name) in s.inputs && |s.inputs[Slot(k, a.name)]| == InputSize(a.points, k))
    && (forall k :: k in KINDS ==> k in s.outputs && |s.outputs[k]| == SizeOf(layout, k))
  }

  function InputAt(s: State, slot: Slot, i: int): Point {
    if slot in s.inputs && 0 <= i < |s.inputs[slot]| then s.inputs[slot][i] else FRESH
  }

  function OutputAt(s: State, kind: PointType, i: int): Point {
    if kind in s.outputs && 0 <= i < |s.outputs[kind]| then s.outputs[kind][i] else FRESH
  }

  lemma {:induction false} InitInputsSized(sources: seq<Source>, a: Source, k: PointType)
    requires DistinctNames(sources) && a in sources && k in KINDS
    ensures Slot(k, a.name) in InitInputs(sources)
    ensures InitInputs(sources)[Slot(k, a.name)] == Clear(InputSize(a.points, k))
  {
    var last := sources[|sources| - 1];
    if a != last {
      var i :| 0 <= i < |sources| && sources[i] == a;
      assert a == sources[..|sources| - 1][i];
      InitInputsSized(sources[..|sources| - 1], a, k);
    }
  }

  lemma InKinds(k: PointType)
    ensures k in KINDS <==> k == AnalogInput || k == BinaryInput || k == Counter
  {
    assert KINDS[0] == AnalogInput && KINDS[1] == BinaryInput && KINDS[2] == Counter;
  }

  lemma {:induction false} InitInputsFresh(sources: seq<Source>, slot: Slot, i: nat)
    requires slot in InitInputs(sources) && i < |InitInputs(sources)[slot]|
    ensures InitInputs(sources)[slot][i] == FRESH
  {
    var front, last := sources[..|sources| - 1], sources[|sources| - 1];
    InKinds(slot.kind);
    if slot.source != last.name || slot.kind !in KINDS {
      assert slot in InitInputs(front) && InitInputs(sources)[slot] == InitInputs(front)[slot];
      InitInputsFresh(front, slot, i);
    } else {
      assert InitInputs(sources)[slot] == Clear(InputSize(last.points, slot.kind));
      assert Clear(InputSize(last.points, slot.kind))[i] == FRESH;
    }
  }

  // ---------------------------------------------------------------------------
  // Copying the points of one flag
  // ---------------------------------------------------------------------------

  ghost predicate PointFits(outs: seq<Point>, cells: seq<Point>, kind: PointType, p: MappedPoint) {
    p.pointType == kind ==> 0 <= p.index < |outs| && 0 <= p.inputIndex < |cells|
  }

  lemma {:induction false} CopySucceedsExactly(
    outs: seq<Point>, cells: seq<Point>, kind: PointType, points: seq<MappedPoint>)
    ensures CopyPoints(outs, cells, kind, points).Some? <==> forall p :: p in points ==> PointFits(outs, cells, kind, p)
    ensures CopyPoints(outs, cells, kind, points).Some? ==> |CopyPoints(outs, cells, kind, points).value| == |outs|
  {
    if points != [] {
      var front, last := points[..|points| - 1], points[|points| - 1];
      CopySucceedsExactly(outs, cells, kind, front);
      assert points == front + [last];
      assert forall p :: p in points <==> p in front || p == last;
      assert CopyPoints(outs, cells, kind, points).Some? <==>
        CopyPoints(outs, cells, kind, front).Some? && PointFits(outs, cells, kind, last);
    }
  }

  /** A point that nobody is mapped to keeps its value; a mapped one gets that of its input, if all
      mappings to it agree. */
  lemma {:induction false} CopiedPoint(
    outs: seq<Point>, cells: seq<Point>, kind: PointType, points: seq<MappedPoint>, j: int, input: int)
    requires CopyPoints(outs, cells, kind, points).Some? && 0 <= j < |outs|
    requires forall p :: p in points && p.pointType == kind && p.index == j ==> p.inputIndex == input
    ensures |CopyPoints(outs, cells, kind, points).value| == |outs|
    ensures Targets(points, kind, j) ==>
      0 <= input < |cells| && CopyPoints(outs, cells, kind, points).value[j] == cells[input]
    ensures !Targets(points, kind, j) ==> CopyPoints(outs, cells, kind, points).value[j] == outs[j]
  {
    if points != [] {
      var front, last := points[..|points| - 1], points[|points| - 1];
      assert points == front + [last];
      assert last in points && forall p :: p in front ==> p in points;
      assert Targets(points, kind, j) <==> Targets(front, kind, j) || (last.pointType == kind && last.index == j);
      CopiedPoint(outs, cells, kind, front, j, input);
    }
  }

  /** Some point of the list is mapped to this output. */
  ghost predicate Targets(points: seq<MappedPoint>, kind: PointType, j: int) {
    exists p :: p in points && p.pointType == kind && p.index == j
  }

  // ---------------------------------------------------------------------------
  // Coherence
  // ---------------------------------------------------------------------------

  /** A clear flag means that the outputs of its source and type are up to date. */
  ghost predicate Coherent(layout: Layout, s: State) {
    forall a, p :: Maps(layout, a, p) && Slot(p.pointType, a.name) !in s.dirty ==>
      OutputAt(s, p.pointType, p.index) == InputAt(s, Slot(p.pointType, a.name), p.inputIndex)
  }

  /** No mapping writes this output. */
  ghost predicate Unmapped(layout: Layout, kind: PointType, j: int) {
    kind in KINDS && forall b, p :: Maps(layout, b, p) && p.pointType == kind ==> p.index != j
  }

  lemma VisitSome(layout: Layout, s: State, a: Source, k: PointType)
    requires Sized(layout, s) && InBounds(layout) && a in layout.sources && k in KINDS
    ensures Visit(s, a, k).Some?
    ensures Sized(layout, Visit(s, a, k).value)
    ensures Visit(s, a, k).value.inputs == s.inputs
    ensures Visit(s, a, k).value.dirty == s.dirty - {Slot(k, a.name)}
  {
    var slot := Slot(k, a.name);
    if slot in s.dirty {
      forall p | p in a.points ensures PointFits(s.outputs[k], s.inputs[slot], k, p) {
        if p.pointType == k {
          assert Maps(layout, a, p);
        }
      }
      CopySucceedsExactly(s.outputs[k], s.inputs[slot], k, a.points);
    }
  }

  /** What one visit does to one output point. */
  lemma VisitOutput(layout: Layout, s: State, a: Source, k: PointType, kind: PointType, j: int, input: int)
    requires Sized(layout, s) && InBounds(layout) && a in layout.sources && k in KINDS && kind in KINDS
    requires forall p :: p in a.points && p.pointType == k && k == kind && p.index == j ==> p.inputIndex == input
    ensures Visit(s, a, k).Some?
    ensures OutputAt(Visit(s, a, k).value, kind, j) ==
      if k == kind && Slot(k, a.name) in s.dirty && Targets(a.points, k, j)
      then InputAt(s, Slot(k, a.name), input) else OutputAt(s, kind, j)
  {
    var slot := Slot(k, a.name);
    VisitSome(layout, s, a, k);
    forall p | p in a.points && p.pointType == k ensures PointInBounds(layout, a, p) {
      assert Maps(layout, a, p);
    }
    if slot in s.dirty && k == kind && 0 <= j < |s.outputs[k]| {
      CopiedPoint(s.outputs[k], s.inputs[slot], k, a.points, j, input);
    }
  }

  lemma SameSource(layout: Layout, a: Source, b: Source)
    requires DistinctNames(layout.sources) && a in layout.sources && b in layout.sources && a.name == b.name
    ensures a == b
  {
  }

  lemma VisitCoherentAt(layout: Layout, s: State, a: Source, k: PointType, b: Source, q: MappedPoint)
    requires DistinctNames(layout.sources) && InBounds(layout) && NoClash(layout)
    requires Sized(layout, s) && Coherent(layout, s)
    requires a in layout.sources && k in KINDS && Maps(layout, b, q)
    requires Slot(q.pointType, b.name) !in s.dirty || Slot(q.pointType, b.name) == Slot(k, a.name)
    ensures Visit(s, a, k).Some?
    ensures var s' := Visit(s, a, k).value;
      OutputAt(s', q.pointType, q.index) == InputAt(s', Slot(q.pointType, b.name), q.inputIndex)
  {
    forall p | p in a.points && p.pointType == k && k == q.pointType && p.index == q.index
      ensures a.name == b.name && p.inputIndex == q.inputIndex
    {
      assert Maps(layout, a, p);
    }
    VisitSome(layout, s, a, k);
    VisitOutput(layout, s, a, k, q.pointType, q.index, q.inputIndex);
    if a.name == b.name {
      SameSource(layout, a, b);
    }
  }

  lemma VisitCoherent(layout: Layout, s: State, a: Source, k: PointType)
    requires DistinctNames(layout.sources) && InBounds(layout) && NoClash(layout)
    requires Sized(layout, s) && Coherent(layout, s)
    requires a in layout.sources && k in KINDS
    ensures Visit(s, a, k).Some? && Coherent(layout, Visit(s, a, k).value)
  {
    VisitSome(layout, s, a, k);
    forall b, q | Maps(layout, b, q) && Slot(q.pointType, b.name) !in Visit(s, a, k).value.dirty {
      VisitCoherentAt(layout, s, a, k, b, q);
    }
  }

  /** A visit writes only where its source is mapped. */
  lemma VisitUnmapped(layout: Layout, s: State, a: Source, k: PointType, kind: PointType, j: int)
    requires Sized(layout, s) && InBounds(layout) && a in layout.sources && k in KINDS && Unmapped(layout, kind, j)
    ensures Visit(s, a, k).Some? && OutputAt(Visit(s, a, k).value, kind, j) == OutputAt(s, kind, j)
  {
    forall p | p in a.points && p.pointType == k && k == kind ensures p.index != j {
      assert Maps(layout, a, p);
    }
    VisitOutput(layout, s, a, k, kind, j, 0);
  }

  // ---------------------------------------------------------------------------
  // A whole periodic step
  // ---------------------------------------------------------------------------

  /** What holds after some visits, if it held before; `coherent` asks for coherence as well. */
  ghost predicate Passes(layout: Layout, s: State, r: Option<State>, coherent: bool) {
    && r.Some?
    && Sized(layout, r.value)
    && r.value.inputs == s.inputs
    && r.value.dirty <= s.dirty
    && (coherent ==> Coherent(layout, r.value))
    && (forall kind, j :: Unmapped(layout, kind, j) ==> OutputAt(r.value, kind, j) == OutputAt(s, kind, j))
  }

  /** The state is fit for a periodic step. */
  ghost predicate Fit(layout: Layout, s: State, coherent: bool) {
    Sized(layout, s) && (coherent ==> NoClash(layout) && Coherent(layout, s))
  }

  lemma VisitPasses(layout: Layout, s: State, a: Source, k: PointType, coherent: bool)
    requires DistinctNames(layout.sources) && InBounds(layout) && Fit(layout, s, coherent)
    requires a in layout.sources && k in KINDS
    ensures Passes(layout, s, Visit(s, a, k), coherent)
    ensures Slot(k, a.name) !in Visit(s, a, k).value.dirty
  {
    VisitSome(layout, s, a, k);
    if coherent {
      VisitCoherent(layout, s, a, k);
    }
    forall kind, j | Unmapped(layout, kind, j)
      ensures OutputAt(Visit(s, a, k).value, kind, j) == OutputAt(s, kind, j)
    {
      VisitUnmapped(layout, s, a, k, kind, j);
    }
  }

  lemma PassesCompose(layout: Layout, s: State, s': State, r: Option<State>, coherent: bool)
    requires Passes(layout, s, Some(s'), coherent) && Passes(layout, s', r, coherent)
    ensures Passes(layout, s, r, coherent)
  {
  }

  lemma {:induction false} VisitKindsPasses(layout: Layout, s: State, a: Source, kinds: seq<PointType>, coherent: bool)
    requires DistinctNames(layout.sources) && InBounds(layout) && Fit(layout, s, coherent) && a in layout.sources
    requires forall k :: k in kinds ==> k in KINDS
    ensures Passes(layout, s, VisitKinds(s, a, kinds), coherent)
    ensures forall k :: k in kinds ==> Slot(k, a.name) !in VisitKinds(s, a, kinds).value.dirty
  {
    if kinds != [] {
      var front, last := kinds[..|kinds| - 1], kinds[|kinds| - 1];
      assert kinds == front + [last];
      VisitKindsPasses(layout, s, a, front, coherent);
      var s' := VisitKinds(s, a, front).value;
      VisitPasses(layout, s', a, last, coherent);
      PassesCompose(layout, s, s', Visit(s', a, last), coherent);
    }
  }

  lemma {:induction false} CopyChangesPasses(layout: Layout, s: State, sources: seq<Source>, coherent: bool)
    requires DistinctNames(layout.sources) && InBounds(layout) && Fit(layout, s, coherent)
    requires forall a :: a in sources ==> a in layout.sources
    ensures Passes(layout, s, CopyChanges(s, sources), coherent)
    ensures forall a, k :: a in sources && k in KINDS ==> Slot(k, a.name) !in CopyChanges(s, sources).value.dirty
  {
    if sources != [] {
      var front, last := sources[..|sources| - 1], sources[|sources| - 1];
      assert sources == front + [last];
      CopyChangesPasses(layout, s, front, coherent);
      var s' := CopyChanges(s, front).value;
      VisitKindsPasses(layout, s', last, KINDS, coherent);
      PassesCompose(layout, s, s', VisitKinds(s', last, KINDS), coherent);
    }
  }

  // ---------------------------------------------------------------------------
  // Runs
  // ---------------------------------------------------------------------------

  /** In bounds, coherent if no outputs clash, and unmapped outputs untouched. */
  ghost predicate Invariant(layout: Layout, s: State, coherent: bool) {
    && Fit(layout, s, coherent)
    && (forall k, j :: Unmapped(layout, k, j) ==> OutputAt(s, k, j) == FRESH)
  }

  lemma InitAllFresh(layout: Layout)
    ensures forall slot, i :: InputAt(Init(layout), slot, i) == FRESH
    ensures forall k, j :: OutputAt(Init(layout), k, j) == FRESH
  {
    forall slot, i ensures InputAt(Init(layout), slot, i) == FRESH {
      if slot in InitInputs(layout.sources) && 0 <= i < |InitInputs(layout.sources)[slot]| {
        InitInputsFresh(layout.sources, slot, i);
      }
    }
  }

  lemma InitInvariant(layout: Layout, coherent: bool)
    requires DistinctNames(layout.sources) && (coherent ==> NoClash(layout))
    ensures Invariant(layout, Init(layout), coherent)
  {
    InitAllFresh(layout);
    forall a, k | a in layout.sources && k in KINDS {
      InitInputsSized(layout.sources, a, k);
    }
  }

  lemma ProcessInvariant(layout: Layout, s: State, slot: Slot, batch: seq<Event>, coherent: bool)
    requires Invariant(layout, s, coherent)
    ensures Invariant(layout, Process(s, slot, batch), coherent)
  {
    var s' := Process(s, slot, batch);
    assert s'.outputs == s.outputs;
    assert forall other, i :: other != slot ==> InputAt(s', other, i) == InputAt(s, other, i);
    assert forall k, i :: OutputAt(s', k, i) == OutputAt(s, k, i);
  }

  lemma {:induction false} RunInvariant(layout: Layout, run: seq<Action>, coherent: bool)
    requires DistinctNames(layout.sources) && InBounds(layout) && (coherent ==> NoClash(layout))
    ensures Run(layout, run).Some? && Invariant(layout, Run(layout, run).value, coherent)
  {
    if run == [] {
      InitInvariant(layout, coherent);
    } else {
      RunInvariant(layout, run[..|run| - 1], coherent);
      var s := Run(layout, run[..|run| - 1]).value;
      match run[|run| - 1]
      case Callback(slot, batch) => ProcessInvariant(layout, s, slot, batch, coherent);
      case PassThru => CopyChangesPasses(layout, s, layout.sources, coherent);
    }
  }

  // ---------------------------------------------------------------------------
  // The last value received
  // ---------------------------------------------------------------------------

  /** The value of the last event for a cell in a batch, if any. */
  function LastIn(batch: seq<Event>, i: nat): Option<int> {
    if batch == [] then None
    else if batch[|batch| - 1].index == i then Some(batch[|batch| - 1].value)
    else LastIn(batch[..|batch| - 1], i)
  }

  /** The last value that any callback of a run has delivered for a cell, or 0. */
  function LastReceived(run: seq<Action>, slot: Slot, i: nat): int {
    if run == [] then 0
    else
      var before := LastReceived(run[..|run| - 1], slot, i);
      match run[|run| - 1]
      case Callback(slot', batch) => if slot' == slot then LastIn(batch, i).GetOr(before) else before
      case PassThru => before
  }

  lemma {:induction false} PointHoldsLast(p: Point, i: nat, batch: seq<Event>)
    ensures PointAfter(p, i, batch).value == LastIn(batch, i).GetOr(p.value)
  {
    if batch != [] {
      PointHoldsLast(p, i, batch[..|batch| - 1]);
    }
  }

  lemma {:induction false} InputsHoldLast(layout: Layout, run: seq<Action>, slot: Slot, i: nat)
    requires DistinctNames(layout.sources) && InBounds(layout)
    requires slot in InitInputs(layout.sources) && i < |InitInputs(layout.sources)[slot]|
    ensures Run(layout, run).Some?
    ensures var s := Run(layout, run).value;
      && slot in s.inputs && |s.inputs[slot]| == |InitInputs(layout.sources)[slot]|
      && s.inputs[slot][i].value == LastReceived(run, slot, i)
  {
    if run == [] {
      InitInputsFresh(layout.sources, slot, i);
    } else {
      var front := run[..|run| - 1];
      InputsHoldLast(layout, front, slot, i);
      RunInvariant(layout, front, false);
      var s := Run(layout, front).value;
      match run[|run| - 1]
      case Callback(slot', batch) =>
        CellsAreIndependent(s.inputs[slot], batch, i);
        PointHoldsLast(s.inputs[slot][i], i, batch);
      case PassThru => CopyChangesPasses(layout, s, layout.sources, false);
    }
  }

  /** After a periodic step every mapped output agrees with its input, in value and in time. */
  lemma PassSettles(layout: Layout, s: State, a: Source, p: MappedPoint)
    requires DistinctNames(layout.sources) && InBounds(layout) && NoClash(layout) && Invariant(layout, s, true)
    requires Maps(layout, a, p)
    ensures CopyChanges(s, layout.sources).Some?
    ensures var s', slot := CopyChanges(s, layout.sources).value, Slot(p.pointType, a.name);
      && OutputAt(s', p.pointType, p.index) == InputAt(s', slot, p.inputIndex) == InputAt(s, slot, p.inputIndex)
  {
    CopyChangesPasses(layout, s, layout.sources, true);
    assert Slot(p.pointType, a.name) !in CopyChanges(s, layout.sources).value.dirty;
  }

  /** Right after a periodic step the output shows the last value received for its source, type and input
      index, or 0 if there was none. */
  ghost predicate ShowsLast(layout: Layout, run: seq<Action>, a: Source, p: MappedPoint) {
    && p.inputIndex >= 0 && Run(layout, run + [PassThru]).Some?
    && OutputAt(Run(layout, run + [PassThru]).value, p.pointType, p.index).value
       == LastReceived(run, Slot(p.pointType, a.name), p.inputIndex)
  }

  /** End to end: this holds of every mapped output, in every interleaving. */
  lemma OutputsShowLastReceived(layout: Layout, run: seq<Action>, a: Source, p: MappedPoint)
    requires DistinctNames(layout.sources) && InBounds(layout) && NoClash(layout) && Maps(layout, a, p)
    ensures ShowsLast(layout, run, a, p)
  {
    assert PointInBounds(layout, a, p);
    assert (run + [PassThru])[..|run|] == run;
    RunInvariant(layout, run, true);
    PassSettles(layout, Run(layout, run).value, a, p);
    InitInputsSized(layout.sources, a, p.pointType);
    InputsHoldLast(layout, run, Slot(p.pointType, a.name), p.inputIndex);
  }

  /** Outputs that no source is mapped to never change. */
  lemma UnmappedOutputsNeverChange(layout: Layout, run: seq<Action>, k: PointType, j: int)
    requires DistinctNames(layout.sources) && InBounds(layout) && Unmapped(layout, k, j)
    ensures Run(layout, run).Some? && OutputAt(Run(layout, run).value, k, j) == FRESH
  {
    RunInvariant(layout, run, false);
  }

  // ---------------------------------------------------------------------------
  // The conditions are exact
  // ---------------------------------------------------------------------------

  lemma {:induction false} CleanVisitsDoNothing(s: State, a: Source, kinds: seq<PointType>)
    requires forall k :: k in kinds ==> Slot(k, a.name) !in s.dirty
    ensures VisitKinds(s, a, kinds) == Some(s)
  {
    if kinds != [] {
      assert kinds == kinds[..|kinds| - 1] + [kinds[|kinds| - 1]];
      CleanVisitsDoNothing(s, a, kinds[..|kinds| - 1]);
    }
  }

  /** A visit with a bad point fails, whatever was visited before it. */
  lemma {:induction false} BadVisitFails(s: State, a: Source, kinds: seq<PointType>, k: PointType)
    requires k in kinds && s.dirty == {Slot(k, a.name)} && Visit(s, a, k).None?
    ensures VisitKinds(s, a, kinds).None?
  {
    var front, last := kinds[..|kinds| - 1], kinds[|kinds| - 1];
    assert kinds == front + [last];
    if k in front {
      BadVisitFails(s, a, front, k);
    } else {
      CleanVisitsDoNothing(s, a, front);
    }
  }

  lemma {:induction false} BadPassFails(s: State, sources: seq<Source>, a: Source, k: PointType)
    requires DistinctNames(sources) && a in sources && k in KINDS
    requires s.dirty == {Slot(k, a.name)} && Visit(s, a, k).None?
    ensures CopyChanges(s, sources).None?
  {
    var front, last := sources[..|sources| - 1], sources[|sources| - 1];
    assert sources == front + [last];
    if a in front {
      BadPassFails(s, front, a, k);
    } else {
      CleanPassDoesNothing(s, front, a.name);
      BadVisitFails(s, a, KINDS, k);
    }
  }

  lemma {:induction false} CleanPassDoesNothing(s: State, sources: seq<Source>, name: string)
    requires forall b :: b in sources ==> b.name != name
    requires forall slot :: slot in s.dirty ==> slot.source == name
    ensures CopyChanges(s, sources) == Some(s)
  {
    if sources != [] {
      var front, last := sources[..|sources| - 1], sources[|sources| - 1];
      assert sources == front + [last];
      CleanPassDoesNothing(s, front, name);
      CleanVisitsDoNothing(s, last, KINDS);
    }
  }

  /** A single callback, of any batch, and one periodic step meet a point that is out of bounds. */
  lemma BadPointFaults(layout: Layout, a: Source, p: MappedPoint, batch: seq<Event>)
    requires DistinctNames(layout.sources) && Maps(layout, a, p) && !PointInBounds(layout, a, p)
    ensures Run(layout, [Callback(Slot(p.pointType, a.name), batch), PassThru]).None?
  {
    var slot := Slot(p.pointType, a.name);
    var run := [Callback(slot, batch), PassThru];
    assert run[..1] == [Callback(slot, batch)] && run[..1][..0] == [];
    InitInvariant(layout, false);
    var s := Process(Init(layout), slot, batch);
    assert Run(layout, run[..1]) == Some(s);
    assert !PointFits(s.outputs[p.pointType], s.inputs[slot], p.pointType, p);
    CopySucceedsExactly(s.outputs[p.pointType], s.inputs[slot], p.pointType, a.points);
    BadPassFails(s, layout.sources, a, p.pointType);
  }

  /**
   The input arrays are sized by output indices. So the program never reads or writes outside its
   arrays if and only if every input index is below the size that the output indices of its source and
   type happen to give, and no output index is negative or beyond the database.
   */
  lemma NeverOutOfBoundsExactly(layout: Layout)
    requires DistinctNames(layout.sources)
    ensures (forall run :: Run(layout, run).Some?) <==> InBounds(layout)
  {
    if InBounds(layout) {
      forall run ensures Run(layout, run).Some? {
        RunInvariant(layout, run, false);
      }
    } else {
      var a, p :| Maps(layout, a, p) && !PointInBounds(layout, a, p);
      BadPointFaults(layout, a, p, []);
    }
  }

  /** A single value for one input, and a periodic step. */
  lemma OneValuePassed(layout: Layout, slot: Slot, i: nat, slot': Slot, j: nat) returns (s: State)
    requires DistinctNames(layout.sources) && InBounds(layout)
    requires slot in InitInputs(layout.sources) && i < |InitInputs(layout.sources)[slot]|
    requires slot' in InitInputs(layout.sources) && j < |InitInputs(layout.sources)[slot']|
    requires slot != slot' || i != j
    ensures exists run :: Run(layout, run) == Some(s)
    ensures InputAt(s, slot, i).value == 1 && InputAt(s, slot', j).value == 0
    ensures forall a, k :: a in layout.sources && k in KINDS ==> Slot(k, a.name) !in s.dirty
  {
    var e := Event(i, 1, 0);
    var before := [Callback(slot, [e])];
    var run := before + [PassThru];
    assert run[..1] == before && before[..0] == [] && [e][..0] == [];
    RunInvariant(layout, before, false);
    CopyChangesPasses(layout, Run(layout, before).value, layout.sources, false);
    InputsHoldLast(layout, run, slot, i);
    InputsHoldLast(layout, run, slot', j);
    s := Run(layout, run).value;
    assert LastIn([e], i) == Some(1) && (j != i ==> LastIn([e], j) == None);
    assert LastReceived([], slot, i) == 0 && LastReceived([], slot', j) == 0;
    assert LastReceived(before, slot, i) == 1 && LastReceived(before, slot', j) == 0;
  }

  /** Two inputs of one output cannot both be shown. */
  lemma ClashShows(layout: Layout, a: Source, p: MappedPoint, b: Source, q: MappedPoint)
    requires DistinctNames(layout.sources) && InBounds(layout)
    requires Maps(layout, a, p) && Maps(layout, b, q) && p.pointType == q.pointType && p.index == q.index
    requires a.name != b.name || p.inputIndex != q.inputIndex
    ensures exists run :: Run(layout, run).Some? && !Coherent(layout, Run(layout, run).value)
  {
    assert PointInBounds(layout, a, p) && PointInBounds(layout, b, q);
    InitInputsSized(layout.sources, a, p.pointType);
    InitInputsSized(layout.sources, b, q.pointType);
    var s := OneValuePassed(layout, Slot(p.pointType, a.name), p.inputIndex, Slot(q.pointType, b.name), q.inputIndex);
    assert !Coherent(layout, s);
  }

  /** After one value for the one input, one of the two outputs shows the wrong value. */
  lemma ClashMisleads(layout: Layout, a: Source, p: MappedPoint, b: Source, q: MappedPoint)
    requires DistinctNames(layout.sources) && InBounds(layout)
    requires Maps(layout, a, p) && Maps(layout, b, q) && p.pointType == q.pointType && p.index == q.index
    requires a.name != b.name || p.inputIndex != q.inputIndex
    ensures
      var run := [Callback(Slot(p.pointType, a.name), [Event(p.inputIndex, 1, 0)])];
      !ShowsLast(layout, run, a, p) || !ShowsLast(layout, run, b, q)
  {
    var slot, slot' := Slot(p.pointType, a.name), Slot(q.pointType, b.name);
    var e := Event(p.inputIndex, 1, 0);
    var run := [Callback(slot, [e])];
    assert run[..0] == [] && [e][..0] == [];
    assert LastIn([e], p.inputIndex) == Some(1);
    assert q.inputIndex != p.inputIndex ==> LastIn([e], q.inputIndex) == None;
    assert LastReceived([], slot', q.inputIndex) == 0;
    assert LastReceived(run, slot, p.inputIndex) == 1 && LastReceived(run, slot', q.inputIndex) == 0;
  }

  ghost predicate AlwaysShowsLast(layout: Layout, a: Source, p: MappedPoint) {
    forall run :: ShowsLast(layout, run, a, p)
  }

  lemma OnlyOneIsShown(layout: Layout, a: Source, p: MappedPoint, b: Source, q: MappedPoint)
    requires DistinctNames(layout.sources) && InBounds(layout)
    requires Maps(layout, a, p) && Maps(layout, b, q) && p.pointType == q.pointType && p.index == q.index
    requires AlwaysShowsLast(layout, a, p) && AlwaysShowsLast(layout, b, q)
    ensures a.name == b.name && p.inputIndex == q.inputIndex
  {
    assert PointInBounds(layout, a, p);
    var run := [Callback(Slot(p.pointType, a.name), [Event(p.inputIndex, 1, 0)])];
    assert ShowsLast(layout, run, a, p) && ShowsLast(layout, run, b, q);
    if a.name != b.name || p.inputIndex != q.inputIndex {
      ClashMisleads(layout, a, p, b, q);
    }
  }

  ghost predicate AllShowLast(layout: Layout) {
    forall a, p :: Maps(layout, a, p) ==> AlwaysShowsLast(layout, a, p)
  }

  lemma AlwaysShown(layout: Layout, a: Source, p: MappedPoint)
    requires DistinctNames(layout.sources) && InBounds(layout) && NoClash(layout) && Maps(layout, a, p)
    ensures AlwaysShowsLast(layout, a, p)
  {
    forall run ensures ShowsLast(layout, run, a, p) {
      OutputsShowLastReceived(layout, run, a, p);
    }
  }

  lemma ShownMeansNoClash(layout: Layout)
    requires DistinctNames(layout.sources) && InBounds(layout) && AllShowLast(layout)
    ensures NoClash(layout)
  {
    forall a, p, b, q | Maps(layout, a, p) && Maps(layout, b, q) && p.pointType == q.pointType && p.index == q.index
      ensures a.name == b.name && p.inputIndex == q.inputIndex
    {
      assert AlwaysShowsLast(layout, a, p) && AlwaysShowsLast(layout, b, q);
      OnlyOneIsShown(layout, a, p, b, q);
    }
  }

  /** All outputs always show the last value received if and only if no output is fed by two inputs. */
  lemma ShowsLastExactly(layout: Layout)
    requires DistinctNames(layout.sources) && InBounds(layout)
    ensures AllShowLast(layout) <==> NoClash(layout)
  {
    if AllShowLast(layout) {
      ShownMeansNoClash(layout);
    } else {
      var a, p :| Maps(layout, a, p) && !AlwaysShowsLast(layout, a, p);
      if NoClash(layout) {
        AlwaysShown(layout, a, p);
      }
    }
  }

  /** A clear flag means up-to-date outputs in every reachable state. */
  ghost predicate AlwaysCoherent(layout: Layout) {
    forall run :: Run(layout, run).Some? ==> Coherent(layout, Run(layout, run).value)
  }

  lemma CoherentMeansNoClash(layout: Layout)
    requires DistinctNames(layout.sources) && InBounds(layout) && AlwaysCoherent(layout)
    ensures NoClash(layout)
  {
    forall a, p, b, q | Maps(layout, a, p) && Maps(layout, b, q) && p.pointType == q.pointType && p.index == q.index
      ensures a.name == b.name && p.inputIndex == q.inputIndex
    {
      if a.name != b.name || p.inputIndex != q.inputIndex {
        ClashShows(layout, a, p, b, q);
      }
    }
  }

  /** A clear flag always means up-to-date outputs if and only if no output is fed by two inputs. */
  lemma CoherentExactly(layout: Layout)
    requires DistinctNames(layout.sources) && InBounds(layout)
    ensures AlwaysCoherent(layout) <==> NoClash(layout)
  {
    if AlwaysCoherent(layout) {
      CoherentMeansNoClash(layout);
    } else if NoClash(layout) {
      var run :| Run(layout, run).Some? && !Coherent(layout, Run(layout, run).value);
      RunInvariant(layout, run, true);
    }
  }
}
