/**
 The DNP3 multiplexer: values that arrive from several sources (dnp3generator/MappingSoeHandler.cpp)
 are kept in one input array per source and type, and copied to the points of one outstation
 (dnp3generator/MappingOutstation.cpp) by a periodic step that looks at dirty flags only. Callbacks and
 the periodic step hold the mutex of the outstation, so each is one atomic step.
 */
module Multiplexer {
  import opened Wrappers
  import opened PointTypes

  datatype Point = Point(value: int, timestamp: int)

  const FRESH := Point(0, 0)

  /** A measurement of a batch; the index is unsigned on the wire. */
  datatype Event = Event(index: nat, value: int, time: int)

  datatype MappedPoint = MappedPoint(pointType: PointType, index: int, inputIndex: int)

  datatype Source = Source(name: string, points: seq<MappedPoint>)

  /** `sources` is the ordered map `dataSources`, `size` the `dbSize` that the parser raised. */
  datatype Layout = Layout(sources: seq<Source>, size: map<PointType, nat>)

  /** One input array and its dirty flag. */
  datatype Slot = Slot(kind: PointType, source: string)

  const KINDS := [AnalogInput, BinaryInput, Counter]

  datatype State = State(
    inputs: map<Slot, seq<Point>>,
    dirty: set<Slot>,
    outputs: map<PointType, seq<Point>>)

  // ---------------------------------------------------------------------------
  // Configuration
  // ---------------------------------------------------------------------------

  /** What the loop over the mapped points of a source computes: note that it looks at the output
      index of each point, not at its input index. */
  function InputSize(points: seq<MappedPoint>, kind: PointType): nat {
    if points == [] then 0
    else
      var size, p := InputSize(points[..|points| - 1], kind), points[|points| - 1];
      if p.pointType == kind && size < p.index + 1 then p.index + 1 else size
  }

  function Clear(n: nat): seq<Point> {
    seq(n, _ => FRESH)
  }

  function SizeOf(layout: Layout, kind: PointType): nat {
    if kind in layout.size then layout.size[kind] else 0
  }

  function InitInputs(sources: seq<Source>): map<Slot, seq<Point>> {
    if sources == [] then map[]
    else
      var s := sources[|sources| - 1];
      InitInputs(sources[..|sources| - 1])
        [Slot(AnalogInput, s.name) := Clear(InputSize(s.points, AnalogInput))]
        [Slot(BinaryInput, s.name) := Clear(InputSize(s.points, BinaryInput))]
        [Slot(Counter, s.name) := Clear(InputSize(s.points, Counter))]
  }

  function Init(layout: Layout): State {
    State(InitInputs(layout.sources), {},
          map k | k in KINDS :: Clear(SizeOf(layout, k)))
  }

  // ---------------------------------------------------------------------------
  // Callbacks
  // ---------------------------------------------------------------------------

  function ReceivePoint(p: Point, e: Event): Point {
    if p.value == e.value && e.time == 0 then p else Point(e.value, e.time)
  }

  function Receive(cells: seq<Point>, e: Event): seq<Point> {
    if e.index < |cells| then cells[e.index := ReceivePoint(cells[e.index], e)] else cells
  }

  function ReceiveAll(cells: seq<Point>, batch: seq<Event>): (r: seq<Point>)
    ensures |r| == |cells|
  {
    if batch == [] then cells else Receive(ReceiveAll(cells, batch[..|batch| - 1]), batch[|batch| - 1])
  }

  function Process(s: State, slot: Slot, batch: seq<Event>): State {
    s.(inputs := if slot in s.inputs then s.inputs[slot := ReceiveAll(s.inputs[slot], batch)] else s.inputs,
       dirty := s.dirty + {slot})
  }

  // ---------------------------------------------------------------------------
  // The periodic step
  // ---------------------------------------------------------------------------

  /** Copy one mapped point; `None` is an access outside one of the two arrays. */
  function CopyPoint(outs: seq<Point>, cells: seq<Point>, kind: PointType, p: MappedPoint): Option<seq<Point>> {
    if p.pointType != kind then Some(outs)
    else if 0 <= p.index < |outs| && 0 <= p.inputIndex < |cells| then Some(outs[p.index := cells[p.inputIndex]])
    else None
  }

  function CopyPoints(outs: seq<Point>, cells: seq<Point>, kind: PointType, points: seq<MappedPoint>)
    : Option<seq<Point>>
  {
    if points == [] then Some(outs)
    else
      match CopyPoints(outs, cells, kind, points[..|points| - 1])
      case None => None
      case Some(outs') => CopyPoint(outs', cells, kind, points[|points| - 1])
  }

  /** One flag: if it is set, clear it and copy the points of its source and type. */
  function Visit(s: State, source: Source, kind: PointType): Option<State> {
    var slot := Slot(kind, source.name);
    if slot !in s.dirty then Some(s)
    else if slot !in s.inputs || kind !in s.outputs then None
    else
      match CopyPoints(s.outputs[kind], s.inputs[slot], kind, source.points)
      case None => None
      case Some(outs) => Some(s.(dirty := s.dirty - {slot}, outputs := s.outputs[kind := outs]))
  }

  function VisitKinds(s: State, source: Source, kinds: seq<PointType>): Option<State> {
    if kinds == [] then Some(s)
    else
      match VisitKinds(s, source, kinds[..|kinds| - 1])
      case None => None
      case Some(s') => Visit(s', source, kinds[|kinds| - 1])
  }

  function CopyChanges(s: State, sources: seq<Source>): Option<State> {
    if sources == [] then Some(s)
    else
      match CopyChanges(s, sources[..|sources| - 1])
      case None => None
      case Some(s') => VisitKinds(s', sources[|sources| - 1], KINDS)
  }

  // ---------------------------------------------------------------------------
  // Replaying a batch
  // ---------------------------------------------------------------------------

  /** The events of a batch for one cell. */
  function PointAfter(p: Point, index: nat, batch: seq<Event>): Point {
    if batch == [] then p
    else
      var q, e := PointAfter(p, index, batch[..|batch| - 1]), batch[|batch| - 1];
      if e.index == index then ReceivePoint(q, e) else q
  }

  /** The cells of an array do not influence each other. */
  lemma {:induction false} CellsAreIndependent(cells: seq<Point>, batch: seq<Event>, i: nat)
    requires i < |cells|
    ensures ReceiveAll(cells, batch)[i] == PointAfter(cells[i], i, batch)
  {
    if batch != [] {
      CellsAreIndependent(cells, batch[..|batch| - 1], i);
    }
  }

  lemma {:induction false} PointAfterFirst(p: Point, index: nat, batch: seq<Event>)
    requires batch != []
    ensures PointAfter(p, index, batch)
         == PointAfter(if batch[0].index == index then ReceivePoint(p, batch[0]) else p, index, batch[1..])
  {
    if |batch| > 1 {
      PointAfterFirst(p, index, batch[..|batch| - 1]);
      assert batch[..|batch| - 1][1..] == batch[1..][..|batch[1..]| - 1];
    }
  }

  /** From two points of the same value a batch leads to the same point, unless it changes neither. */
  lemma {:induction false} SameValuesConverge(p: Point, q: Point, index: nat, batch: seq<Event>)
    requires p.value == q.value
    ensures PointAfter(p, index, batch).value == PointAfter(q, index, batch).value
    ensures PointAfter(p, index, batch) == PointAfter(q, index, batch)
         || (PointAfter(p, index, batch) == p && PointAfter(q, index, batch) == q)
  {
    if batch != [] {
      SameValuesConverge(p, q, index, batch[..|batch| - 1]);
    }
  }

  lemma {:induction false} ReplayPoint(p: Point, index: nat, batch: seq<Event>)
    ensures PointAfter(PointAfter(p, index, batch), index, batch) == PointAfter(p, index, batch)
  {
    if batch != [] {
      var r, e := PointAfter(p, index, batch), batch[0];
      PointAfterFirst(p, index, batch);
      PointAfterFirst(r, index, batch);
      if e.index == index {
        SameValuesConverge(ReceivePoint(p, e), ReceivePoint(r, e), index, batch[1..]);
      } else {
        ReplayPoint(p, index, batch[1..]);
      }
    }
  }

  /** Replaying a batch straight after itself changes nothing. */
  lemma ReplayChangesNothing(cells: seq<Point>, batch: seq<Event>)
    ensures ReceiveAll(ReceiveAll(cells, batch), batch) == ReceiveAll(cells, batch)
  {
    var once := ReceiveAll(cells, batch);
    forall i | 0 <= i < |cells| ensures ReceiveAll(once, batch)[i] == once[i] {
      CellsAreIndependent(cells, batch, i);
      CellsAreIndependent(once, batch, i);
      ReplayPoint(cells[i], i, batch);
    }
  }

  /** The stored point is that of the latest event that changed the value or carried a time: every
      later event repeats its value without a time. */
  lemma {:induction false} StoredPointExplained(p: Point, index: nat, batch: seq<Event>)
    ensures var r := PointAfter(p, index, batch);
      || (r == p && forall k :: 0 <= k < |batch| && batch[k].index == index ==>
            batch[k].value == p.value && batch[k].time == 0)
      || exists j :: && 0 <= j < |batch| && batch[j].index == index
                     && r == Point(batch[j].value, batch[j].time)
                     && (batch[j].time != 0 || PointAfter(p, index, batch[..j]).value != batch[j].value)
                     && forall k :: j < k < |batch| && batch[k].index == index ==>
                          batch[k].value == r.value && batch[k].time == 0
  {
    if batch != [] {
      var n := |batch| - 1;
      StoredPointExplained(p, index, batch[..n]);
      var q := PointAfter(p, index, batch[..n]);
      if batch[n].index == index && (q.value != batch[n].value || batch[n].time != 0) {
        assert PointAfter(p, index, batch) == Point(batch[n].value, batch[n].time);
      } else {
        assert PointAfter(p, index, batch) == q;
        assert forall k :: 0 <= k < n ==> batch[..n][k] == batch[k];
        assert forall j :: 0 <= j <= n ==> batch[..n][..j] == batch[..j];
      }
    }
  }

  // ---------------------------------------------------------------------------
  // The objects
  // ---------------------------------------------------------------------------

  class MappingOutstation {
    const layout: Layout
    var inputs: map<Slot, seq<Point>>
    var dirty: set<Slot>
    var outputs: map<PointType, seq<Point>>

    function Value(): State
      reads this
    {
      State(inputs, dirty, outputs)
    }

    /** `ConfigureInputMultiplexingArrays` and the clearing of the flags. */
    constructor (layout: Layout)
      ensures this.layout == layout && Value() == Init(layout)
    {
      this.layout := layout;
      inputs, dirty, outputs := map[], {}, map[];
      new;
      for i := 0 to |layout.sources|
        invariant this.layout == layout && dirty == {} && outputs == map[]
        invariant inputs == InitInputs(layout.sources[..i])
      {
        var source := layout.sources[i];
        var sizes: map<PointType, nat> := map[AnalogInput := 0, BinaryInput := 0, Counter := 0];
        for j := 0 to |source.points|
          invariant sizes.Keys >= {AnalogInput, BinaryInput, Counter}
          invariant forall k :: k in sizes ==> sizes[k] == InputSize(source.points[..j], k)
        {
          var p := source.points[j];
          assert source.points[..j + 1][..j] == source.points[..j];
          if p.pointType in sizes && sizes[p.pointType] < p.index + 1 {
            sizes := sizes[p.pointType := p.index + 1];
          }
        }
        assert source.points[..|source.points|] == source.points;
        assert layout.sources[..i + 1][..i] == layout.sources[..i];
        inputs := inputs[Slot(AnalogInput, source.name) := Clear(sizes[AnalogInput])]
                        [Slot(BinaryInput, source.name) := Clear(sizes[BinaryInput])]
                        [Slot(Counter, source.name) := Clear(sizes[Counter])];
      }
      assert layout.sources[..|layout.sources|] == layout.sources;
      outputs := map k | k in KINDS :: Clear(SizeOf(layout, k));
    }

    /** A callback for one destination: update the input array cell by cell, then set the flag. */
    method ReceiveBatch(slot: Slot, batch: seq<Event>)
      modifies this
      ensures Value() == Process(old(Value()), slot, batch)
    {
      var before := inputs;
      for i := 0 to |batch|
        invariant dirty == old(dirty) && outputs == old(outputs)
        invariant slot !in before ==> inputs == before
        invariant slot in before ==> inputs == before[slot := ReceiveAll(before[slot], batch[..i])]
      {
        var e := batch[i];
        assert batch[..i + 1][..i] == batch[..i];
        if slot in inputs && e.index < |inputs[slot]| {
          var p := inputs[slot][e.index];
          if !(p.value == e.value && e.time == 0) {
            inputs := inputs[slot := inputs[slot][e.index := Point(e.value, e.time)]];
          }
        }
        if slot in before {
          var cells := ReceiveAll(before[slot], batch[..i]);
          assert ReceiveAll(before[slot], batch[..i + 1]) == Receive(cells, e);
          assert inputs[slot] == Receive(cells, e);
        }
      }
      assert batch[..|batch|] == batch;
      dirty := dirty + {slot};
    }

    /** The copying part of one flag; false when an access is out of bounds. */
    method CopySlot(source: Source, kind: PointType) returns (ok: bool)
      modifies this
      ensures ok <==> Visit(old(Value()), source, kind).Some?
      ensures ok ==> Value() == Visit(old(Value()), source, kind).value
    {
      var slot := Slot(kind, source.name);
      if slot !in dirty {
        return true;
      }
      if slot !in inputs || kind !in outputs {
        return false;
      }
      dirty := dirty - {slot};
      var cells, outs := inputs[slot], outputs[kind];
      assert source.points[..|source.points|] == source.points;
      for i := 0 to |source.points|
        invariant CopyPoints(outputs[kind], cells, kind, source.points[..i]) == Some(outs)
      {
        var p := source.points[i];
        assert source.points[..i + 1][..i] == source.points[..i];
        if p.pointType == kind {
          if !(0 <= p.index < |outs| && 0 <= p.inputIndex < |cells|) {
            CopyFailsForGood(outputs[kind], cells, kind, source.points, i + 1);
            return false;
          }
          outs := outs[p.index := cells[p.inputIndex]];
        }
      }
      outputs := outputs[kind := outs];
      return true;
    }

    /** The loop of `passThruDataChanges` over the sources, each with its three flags. */
    method PassThru() returns (ok: bool)
      modifies this
      ensures ok <==> CopyChanges(old(Value()), layout.sources).Some?
      ensures ok ==> Value() == CopyChanges(old(Value()), layout.sources).value
    {
      ghost var s := Value();
      assert layout.sources[..|layout.sources|] == layout.sources;
      for i := 0 to |layout.sources|
        invariant CopyChanges(s, layout.sources[..i]) == Some(Value())
      {
        var source := layout.sources[i];
        assert layout.sources[..i + 1][..i] == layout.sources[..i];
        ghost var s' := Value();
        for j := 0 to |KINDS|
          invariant VisitKinds(s', source, KINDS[..j]) == Some(Value())
        {
          assert KINDS[..j + 1][..j] == KINDS[..j];
          var copied := CopySlot(source, KINDS[j]);
          if !copied {
            VisitFailsForGood(s', source, KINDS, j + 1);
            PassFailsForGood(s, layout.sources, i + 1);
            return false;
          }
        }
        assert KINDS[..|KINDS|] == KINDS;
      }
      return true;
    }
  }

  lemma {:induction false} CopyFailsForGood(
    outs: seq<Point>, cells: seq<Point>, kind: PointType, points: seq<MappedPoint>, i: nat)
    requires i <= |points| && CopyPoints(outs, cells, kind, points[..i]).None?
    ensures CopyPoints(outs, cells, kind, points).None?
    decreases |points| - i
  {
    if i < |points| {
      assert points[..i + 1][..i] == points[..i];
      CopyFailsForGood(outs, cells, kind, points, i + 1);
    } else {
      assert points[..i] == points;
    }
  }

  lemma {:induction false} VisitFailsForGood(s: State, source: Source, kinds: seq<PointType>, i: nat)
    requires i <= |kinds| && VisitKinds(s, source, kinds[..i]).None?
    ensures VisitKinds(s, source, kinds).None?
    decreases |kinds| - i
  {
    if i < |kinds| {
      assert kinds[..i + 1][..i] == kinds[..i];
      VisitFailsForGood(s, source, kinds, i + 1);
    } else {
      assert kinds[..i] == kinds;
    }
  }

  lemma {:induction false} PassFailsForGood(s: State, sources: seq<Source>, i: nat)
    requires i <= |sources| && CopyChanges(s, sources[..i]).None?
    ensures CopyChanges(s, sources).None?
    decreases |sources| - i
  {
    if i < |sources| {
      assert sources[..i + 1][..i] == sources[..i];
      PassFailsForGood(s, sources, i + 1);
    } else {
      assert sources[..i] == sources;
    }
  }

  lemma ReplayedCallback(s: State, slot: Slot, batch: seq<Event>)
    ensures Process(Process(s, slot, batch), slot, batch) == Process(s, slot, batch)
  {
    if slot in s.inputs {
      ReplayChangesNothing(s.inputs[slot], batch);
    }
  }

  class MappingSoeHandler {
    const srcName: string
    var destinations: seq<MappingOutstation>

    constructor (srcName: string, destinations: seq<MappingOutstation>)
      ensures this.srcName == srcName && this.destinations == destinations
    {
      this.srcName, this.destinations := srcName, destinations;
    }

    /** One callback for all destinations. A destination that is listed twice receives the batch twice
        and still ends as if it were listed once. */
    method ProcessBatch(kind: PointType, batch: seq<Event>)
      modifies destinations
      ensures forall d :: d in destinations ==> d.Value() == Process(old(d.Value()), Slot(kind, srcName), batch)
    {
      var slot := Slot(kind, srcName);
      for i := 0 to |destinations|
        invariant forall d :: d in destinations ==>
          d.Value() == if d in destinations[..i] then Process(old(d.Value()), slot, batch) else old(d.Value())
      {
        var dest := destinations[i];
        ReplayedCallback(old(dest.Value()), slot, batch);
        dest.ReceiveBatch(slot, batch);
        assert forall d :: d in destinations[..i + 1] <==> d == dest || d in destinations[..i];
      }
      assert destinations[..|destinations|] == destinations;
    }
  }
}
