/** What the configuration parser guarantees for the arrays of the multiplexer, and what it does not. */
module MultiplexerLayout {
  import opened PointTypes
  import opened Multiplexer
  import opened MultiplexerRuns
  import DatabaseSizing

  type Sources = map<string, seq<MappedPoint>>

  /** The sources of a map, each once. */
  ghost predicate Lists(sources: seq<Source>, dataSources: Sources) {
    && DistinctNames(sources)
    && (forall a :: a in sources <==> a.name in dataSources && a.points == dataSources[a.name])
  }

  /** The layout that an outstation takes from its parsed node. */
  ghost predicate IsLayoutOf(layout: Layout, node: DatabaseSizing.Node)
    reads node
  {
    Lists(layout.sources, node.dataSources) && layout.size == node.dbSize
  }

  lemma {:induction false} ListOf(dataSources: Sources) returns (sources: seq<Source>)
    ensures Lists(sources, dataSources)
    decreases |dataSources|
  {
    if name :| name in dataSources {
      var rest := ListOf(dataSources - {name});
      sources := rest + [Source(name, dataSources[name])];
    } else {
      sources := [];
    }
  }

  lemma EveryNodeHasLayout(node: DatabaseSizing.Node)
    ensures exists layout :: IsLayoutOf(layout, node)
  {
    var sources := ListOf(node.dataSources);
    assert IsLayoutOf(Layout(sources, node.dbSize), node);
  }

  /** The parser records every mapped point as a data point and sizes the database by these. */
  ghost predicate Parsed(layout: Layout, points: seq<DatabaseSizing.DataPoint>) {
    && (forall a, p :: Maps(layout, a, p) ==> DatabaseSizing.AsPoint(p) in points)
    && (forall k :: k in KINDS ==> SizeOf(layout, k) == DatabaseSizing.DbSize(points, k))
  }

  lemma LayoutOfNodeIsParsed(node: DatabaseSizing.Node, layout: Layout)
    requires node.Valid() && IsLayoutOf(layout, node)
    ensures DistinctNames(layout.sources) && Parsed(layout, node.dataPoints)
  {
    forall a, p | Maps(layout, a, p) ensures DatabaseSizing.AsPoint(p) in node.dataPoints {
      assert a.name in node.dataSources && p in node.dataSources[a.name];
    }
  }

  /** Output indices are then never too large; what is left to the author of the configuration is that no
      index is negative and that input indices stay below the size taken from the output indices. */
  lemma ParsedLayoutInBoundsExactly(layout: Layout, points: seq<DatabaseSizing.DataPoint>)
    requires Parsed(layout, points)
    ensures InBounds(layout) <==>
      forall a, p :: Maps(layout, a, p) ==> p.index >= 0 && 0 <= p.inputIndex < InputSize(a.points, p.pointType)
  {
    forall a, p | Maps(layout, a, p) ensures p.index < SizeOf(layout, p.pointType) {
      DatabaseSizing.DbSizeIsLeast(points, p.pointType);
    }
    if InBounds(layout) {
      forall a, p | Maps(layout, a, p) ensures PointInBounds(layout, a, p) {
      }
    } else {
      var a, p :| Maps(layout, a, p) && !PointInBounds(layout, a, p);
    }
  }

  /** A mapped point that keeps within the arrays: no index is negative, and the input index stays below
      the size that the output indices of its source and type give. */
  predicate PointIsSafe(points: seq<MappedPoint>, p: MappedPoint) {
    p.pointType in KINDS ==> p.index >= 0 && 0 <= p.inputIndex < InputSize(points, p.pointType)
  }

  /** From the parsed node to all runs of its outstation: no run ever leaves an array if and only if all
      mapped points are safe. */
  lemma ParsedNodeRunsExactly(node: DatabaseSizing.Node, layout: Layout)
    requires node.Valid() && IsLayoutOf(layout, node)
    ensures (forall run :: Run(layout, run).Some?)
       <==> forall name, p :: name in node.dataSources && p in node.dataSources[name] ==>
              PointIsSafe(node.dataSources[name], p)
  {
    LayoutOfNodeIsParsed(node, layout);
    ParsedLayoutInBoundsExactly(layout, node.dataPoints);
    NeverOutOfBoundsExactly(layout);
    if InBounds(layout) {
      forall name, p | name in node.dataSources && p in node.dataSources[name]
        ensures PointIsSafe(node.dataSources[name], p)
      {
        var a := Source(name, node.dataSources[name]);
        assert a in layout.sources;
        assert p.pointType in KINDS ==> Maps(layout, a, p);
      }
    } else {
      var a, p :| Maps(layout, a, p) && !(p.index >= 0 && 0 <= p.inputIndex < InputSize(a.points, p.pointType));
      assert a.name in node.dataSources && !PointIsSafe(node.dataSources[a.name], p);
    }
  }

  /** A mapping in which no input index exceeds its output index is safe. */
  lemma DownwardMappingIsSafe(node: DatabaseSizing.Node, layout: Layout, run: seq<Action>)
    requires node.Valid() && IsLayoutOf(layout, node)
    requires forall name, p :: name in node.dataSources && p in node.dataSources[name] ==> 0 <= p.inputIndex <= p.index
    ensures Run(layout, run).Some?
  {
    forall name, p | name in node.dataSources && p in node.dataSources[name]
      ensures PointIsSafe(node.dataSources[name], p)
    {
      InputSizeCovers(node.dataSources[name], p);
    }
    ParsedNodeRunsExactly(node, layout);
  }

  /** The size of an input array is one more than the largest output index of its source and type, or 0;
      the input indices have no part in it. */
  lemma {:induction false} InputSizeIsLeast(points: seq<MappedPoint>, kind: PointType)
    ensures forall p :: p in points && p.pointType == kind ==> p.index < InputSize(points, kind)
    ensures InputSize(points, kind) == 0
         || exists p :: p in points && p.pointType == kind && p.index + 1 == InputSize(points, kind)
  {
    if points != [] {
      var front, last := points[..|points| - 1], points[|points| - 1];
      assert points == front + [last];
      InputSizeIsLeast(front, kind);
      assert last in points;
    }
  }

  lemma {:induction false} InputSizeCovers(points: seq<MappedPoint>, p: MappedPoint)
    requires p in points
    ensures p.index < InputSize(points, p.pointType)
  {
    var front, last := points[..|points| - 1], points[|points| - 1];
    assert points == front + [last];
    if p in front {
      InputSizeCovers(front, p);
    }
  }
}
