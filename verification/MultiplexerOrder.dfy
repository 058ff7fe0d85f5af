/**
 What a periodic step does to one output, whatever the configuration: sources are visited in order, and
 the points of a source in order, so the last point that feeds the output from a source with a set flag
 decides.
 */
module MultiplexerOrder {
  import opened Wrappers
  import opened PointTypes
  import opened Multiplexer
  import opened MultiplexerRuns

  /** The point feeds the output. */
  predicate FeedsPoint(p: MappedPoint, kind: PointType, j: int) {
    p.pointType == kind && p.index == j
  }

  lemma {:induction false} CopyNext(
    outs: seq<Point>, cells: seq<Point>, kind: PointType, points: seq<MappedPoint>, j: nat)
    returns (y: int)
    requires CopyPoints(outs, cells, kind, points).Some? && j < |outs|
    ensures |CopyPoints(outs, cells, kind, points).value| == |outs|
    ensures -1 <= y < |points|
    ensures forall z :: y < z < |points| ==> !FeedsPoint(points[z], kind, j)
    ensures
      var outs' := CopyPoints(outs, cells, kind, points).value;
      if y < 0 then outs'[j] == outs[j]
      else
        && FeedsPoint(points[y], kind, j)
        && 0 <= points[y].inputIndex < |cells| && outs'[j] == cells[points[y].inputIndex]
  {
    if points == [] {
      y := -1;
    } else {
      var n := |points| - 1;
      y := CopyNext(outs, cells, kind, points[..n], j);
      if FeedsPoint(points[n], kind, j) {
        y := n;
      } else {
        assert forall z :: 0 <= z < n ==> points[..n][z] == points[z];
      }
    }
  }

  // ---------------------------------------------------------------------------
  // One source
  // ---------------------------------------------------------------------------

  ghost predicate NoRepeats(kinds: seq<PointType>) {
    forall i, j :: 0 <= i < j < |kinds| ==> kinds[i] != kinds[j]
  }

  /** What the visits to one source do to the outputs of one type. */
  ghost predicate Visited(s: State, s': State, a: Source, kinds: seq<PointType>, kind: PointType) {
    && s'.inputs == s.inputs && s'.outputs.Keys == s.outputs.Keys
    && (forall slot :: slot in s'.dirty <==> slot in s.dirty && !(slot.source == a.name && slot.kind in kinds))
    && (kind in s.outputs ==>
          if kind in kinds && Slot(kind, a.name) in s.dirty
          then Slot(kind, a.name) in s.inputs
               && CopyPoints(s.outputs[kind], s.inputs[Slot(kind, a.name)], kind, a.points) == Some(s'.outputs[kind])
          else s'.outputs[kind] == s.outputs[kind])
  }

  lemma OneVisited(s: State, mid: State, s': State, a: Source, kinds: seq<PointType>, k: PointType, kind: PointType)
    requires Visited(s, mid, a, kinds, kind) && k !in kinds && Visit(mid, a, k) == Some(s')
    ensures Visited(s, s', a, kinds + [k], kind)
  {
    var slot := Slot(k, a.name);
    assert s'.inputs == mid.inputs && s'.dirty == mid.dirty - {slot};
    assert k in kinds + [k];
  }

  lemma {:induction false} KindsVisited(s: State, a: Source, kinds: seq<PointType>, kind: PointType)
    requires NoRepeats(kinds) && VisitKinds(s, a, kinds).Some?
    ensures Visited(s, VisitKinds(s, a, kinds).value, a, kinds, kind)
  {
    if kinds != [] {
      var n := |kinds| - 1;
      KindsVisited(s, a, kinds[..n], kind);
      assert kinds == kinds[..n] + [kinds[n]] && kinds[n] !in kinds[..n];
      OneVisited(s, VisitKinds(s, a, kinds[..n]).value, VisitKinds(s, a, kinds).value, a, kinds[..n], kinds[n], kind);
    }
  }

  // ---------------------------------------------------------------------------
  // All sources
  // ---------------------------------------------------------------------------

  /** Point `y` of source `x` feeds the output, and the flag of its source and type is set. */
  ghost predicate Feeds(s: State, sources: seq<Source>, kind: PointType, j: int, x: int, y: int) {
    && 0 <= x < |sources| && 0 <= y < |sources[x].points|
    && Slot(kind, sources[x].name) in s.dirty && FeedsPoint(sources[x].points[y], kind, j)
  }

  /** No point behind this one feeds the output. */
  ghost predicate LastToFeed(s: State, sources: seq<Source>, kind: PointType, j: int, x: int, y: int) {
    forall x', y' :: Feeds(s, sources, kind, j, x', y') ==> x' < x || (x' == x && y' <= y)
  }

  /** The flags and inputs of sources that have not been visited are as they were. */
  lemma {:induction false} OthersUntouched(s: State, sources: seq<Source>, slot: Slot)
    requires CopyChanges(s, sources).Some? && forall a :: a in sources ==> a.name != slot.source
    ensures CopyChanges(s, sources).value.inputs == s.inputs
    ensures slot in CopyChanges(s, sources).value.dirty <==> slot in s.dirty
  {
    if sources != [] {
      var front, last := sources[..|sources| - 1], sources[|sources| - 1];
      assert sources == front + [last];
      OthersUntouched(s, front, slot);
      var mid := CopyChanges(s, front).value;
      KindsVisited(mid, last, KINDS, slot.kind);
      assert Visited(mid, CopyChanges(s, sources).value, last, KINDS, slot.kind);
      assert last in sources;
    }
  }

  /** How the output comes about: from point `y` of source `x`, or not at all if `x` is negative. */
  ghost predicate Decided(s: State, s': State, sources: seq<Source>, kind: PointType, j: nat, x: int, y: int) {
    && kind in s.outputs && kind in s'.outputs && |s'.outputs[kind]| == |s.outputs[kind]| && j < |s.outputs[kind]|
    && LastToFeed(s, sources, kind, j, x, y)
    && if x < 0 then s'.outputs[kind][j] == s.outputs[kind][j]
       else
         && Feeds(s, sources, kind, j, x, y)
         && var slot, i := Slot(kind, sources[x].name), sources[x].points[y].inputIndex;
         && slot in s.inputs && 0 <= i < |s.inputs[slot]| && s'.outputs[kind][j] == s.inputs[slot][i]
  }

  /** The last source decides if it feeds the output and its flag is set. */
  lemma LastSourceDecides(
    s: State, mid: State, s': State, sources: seq<Source>, kind: PointType, j: nat, x: int, y: int)
    returns (x': int, y': int)
    requires sources != [] && kind in KINDS
    requires Decided(s, mid, sources[..|sources| - 1], kind, j, x, y)
    requires var a := sources[|sources| - 1];
      && mid.inputs == s.inputs && (Slot(kind, a.name) in mid.dirty <==> Slot(kind, a.name) in s.dirty)
      && Visited(mid, s', a, KINDS, kind)
    ensures Decided(s, s', sources, kind, j, x', y')
  {
    var n := |sources| - 1;
    var a, front := sources[n], sources[..n];
    assert forall i :: 0 <= i < n ==> front[i] == sources[i];
    assert forall u, v :: u < n ==> (Feeds(s, sources, kind, j, u, v) <==> Feeds(s, front, kind, j, u, v));
    var z := -1;
    if Slot(kind, a.name) in s.dirty {
      z := CopyNext(mid.outputs[kind], mid.inputs[Slot(kind, a.name)], kind, a.points, j);
    }
    if z >= 0 {
      x', y' := n, z;
    } else {
      x', y' := x, y;
      assert forall v :: !Feeds(s, sources, kind, j, n, v);
    }
  }

  /**
   A periodic step, for every configuration in which it stays within the arrays: an output that no set
   flag feeds is left alone; any other takes value and time of the input that the last point feeding it
   names, in the order of the sources and of their points.
   */
  lemma {:induction false} LastFeederDecides(s: State, sources: seq<Source>, kind: PointType, j: nat)
    returns (x: int, y: int)
    requires DistinctNames(sources) && CopyChanges(s, sources).Some?
    requires kind in KINDS && kind in s.outputs && j < |s.outputs[kind]|
    ensures Decided(s, CopyChanges(s, sources).value, sources, kind, j, x, y)
  {
    if sources == [] {
      x, y := -1, -1;
    } else {
      var n := |sources| - 1;
      var front, a := sources[..n], sources[n];
      x, y := LastFeederDecides(s, front, kind, j);
      var mid := CopyChanges(s, front).value;
      forall b | b in front ensures b.name != a.name {
        var i :| 0 <= i < n && sources[i] == b;
      }
      OthersUntouched(s, front, Slot(kind, a.name));
      InKinds(kind);
      KindsVisited(mid, a, KINDS, kind);
      x, y := LastSourceDecides(s, mid, CopyChanges(s, sources).value, sources, kind, j, x, y);
    }
  }

  /** Before anything is received, all inputs and outputs are 0 at time 0. */
  lemma StartsAtZero(layout: Layout, slot: Slot, kind: PointType, i: nat)
    ensures var s := Init(layout);
      && s.dirty == {}
      && (slot in s.inputs && i < |s.inputs[slot]| ==> s.inputs[slot][i] == Point(0, 0))
      && (kind in s.outputs && i < |s.outputs[kind]| ==> s.outputs[kind][i] == Point(0, 0))
  {
    if slot in InitInputs(layout.sources) && i < |InitInputs(layout.sources)[slot]| {
      InitInputsFresh(layout.sources, slot, i);
    }
  }
}
