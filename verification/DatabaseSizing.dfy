/**
 From index lists in the configuration to the sizes of an outstation's database
 (dnp3generator/CfgJsonParser.cpp) and to the set of indices it accepts (`ConfigureDatabase` in
 dnp3generator/Station.cpp).
 */
module DatabaseSizing {
  import opened Wrappers
  import opened PointTypes
  import opened Text
  import Multiplexer

  // ---------------------------------------------------------------------------
  // Index lists
  // ---------------------------------------------------------------------------

  /** One match of the expression: digits, hyphens, and possibly more digits. */
  datatype Match = Match(first: string, second: string)

  function Hyphens(s: string): (n: nat)
    ensures n <= |s| && (n < |s| ==> s[n] != '-')
  {
    if s == "" || s[0] != '-' then 0 else 1 + Hyphens(s[1..])
  }

  function SkipToDigit(s: string): (n: nat)
    ensures n <= |s| && (n < |s| ==> IsDigit(s[n]))
  {
    if s == "" || IsDigit(s[0]) then 0 else 1 + SkipToDigit(s[1..])
  }

  /** The match at the start of a text that begins with a digit, and what follows it. */
  function FirstMatch(s: string): (r: (Match, string))
    ensures s != "" && IsDigit(s[0]) ==> |r.1| < |s|
    ensures AllDigits(r.0.first) && AllDigits(r.0.second)
  {
    var after := s[Leading(s)..];
    var tail := after[Hyphens(after)..];
    (Match(s[..Leading(s)], tail[..Leading(tail)]), tail[Leading(tail)..])
  }

  /** The first match anywhere in a text, and what follows it. */
  function NextMatch(s: string): (r: Option<(Match, string)>)
    ensures r.Some? ==> |r.value.1| < |s| && AllDigits(r.value.0.first) && AllDigits(r.value.0.second)
  {
    var rest := s[SkipToDigit(s)..];
    if rest == "" then None else Some(FirstMatch(rest))
  }

  /** All matches, from left to right. */
  function Matches(s: string): seq<Match>
    decreases |s|
  {
    match NextMatch(s)
    case None => []
    case Some((m, rest)) => [m] + Matches(rest)
  }

  /** `from` to `to`, both included. */
  function Run(from: int, to: int): seq<int>
    decreases to - from
  {
    if from > to then [] else Run(from, to - 1) + [to]
  }

  /** The end of the range of a match: without a readable second number it is the start. */
  function EndOf(m: Match): int
    requires AllDigits(m.first) && AllDigits(m.second)
  {
    if m.second == "" || Value(m.second) > INT_MAX then Value(m.first) else Value(m.second)
  }

  /** The indices of the matches in order; `None` when a first number does not fit an int, which
      nobody catches. */
  function Indices(ms: seq<Match>): Option<seq<int>>
    requires forall m :: m in ms ==> AllDigits(m.first) && AllDigits(m.second)
  {
    if ms == [] then Some([])
    else
      var m := ms[|ms| - 1];
      match Indices(ms[..|ms| - 1])
      case None => None
      case Some(front) => if Value(m.first) > INT_MAX then None else Some(front + Run(Value(m.first), EndOf(m)))
  }

  lemma {:induction false} MatchesAreDigits(s: string)
    ensures forall m :: m in Matches(s) ==> AllDigits(m.first) && AllDigits(m.second)
    decreases |s|
  {
    match NextMatch(s)
    case None =>
    case Some((m, rest)) => MatchesAreDigits(rest);
  }

  function IndexList(s: string): Option<seq<int>> {
    MatchesAreDigits(s);
    Indices(Matches(s))
  }

  // ---------------------------------------------------------------------------
  // Round trip
  // ---------------------------------------------------------------------------

  /** What people write: single indices and ranges. */
  datatype Item = Single(index: nat) | Span(from: nat, to: nat)

  predicate Fits(item: Item) {
    if item.Single? then item.index <= INT_MAX else item.from <= INT_MAX && item.to <= INT_MAX
  }

  function Render(item: Item): string {
    match item
    case Single(i) => Show(i)
    case Span(from, to) => Show(from) + "-" + Show(to)
  }

  function Expand(item: Item): seq<int> {
    match item
    case Single(i) => [i]
    case Span(from, to) => Run(from, to)
  }

  function MatchOf(item: Item): Match {
    match item
    case Single(i) => Match(Show(i), "")
    case Span(from, to) => Match(Show(from), Show(to))
  }

  /** Something to put between items: no digits, and not to be taken for a range. */
  predicate Separator(sep: string) {
    sep != "" && sep[0] != '-' && forall c :: c in sep ==> !IsDigit(c)
  }

  function RenderAll(items: seq<Item>, sep: string): string {
    if items == [] then ""
    else if |items| == 1 then Render(items[0])
    else Render(items[0]) + (sep + RenderAll(items[1..], sep))
  }

  function ExpandAll(items: seq<Item>): seq<int> {
    if items == [] then [] else ExpandAll(items[..|items| - 1]) + Expand(items[|items| - 1])
  }

  lemma FirstMatchSpan(a: string, b: string, rest: string)
    requires AllDigits(a) && AllDigits(b) && b != "" && (rest == "" || !IsDigit(rest[0]))
    ensures FirstMatch(a + ("-" + (b + rest))) == (Match(a, b), rest)
  {
    var tail := b + rest;
    LeadingOf(a, "-" + tail);
    assert (a + ("-" + tail))[|a|..] == "-" + tail;
    assert ("-" + tail)[1..] == tail && tail[0] == b[0];
    assert Hyphens(tail) == 0;
    assert Hyphens("-" + tail) == 1;
    LeadingOf(b, rest);
    assert tail[|b|..] == rest;
  }

  lemma Associates(a: string, b: string, c: string)
    ensures (a + b) + c == a + (b + c)
  {
  }

  /** The text begins with this match and goes on like that. */
  predicate BeginsWith(text: string, m: Match, rest: string) {
    text != "" && IsDigit(text[0]) && FirstMatch(text) == (m, rest)
  }

  lemma BeginsWithSingle(a: string, rest: string)
    requires a != "" && AllDigits(a) && (rest == "" || (!IsDigit(rest[0]) && rest[0] != '-'))
    ensures BeginsWith(a + rest, Match(a, ""), rest)
  {
    var text := a + rest;
    LeadingOf(a, rest);
    assert text[|a|..] == rest;
    assert Hyphens(rest) == 0 && Leading(rest) == 0;
    assert rest[0..] == rest && rest[..0] == "";
    assert FirstMatch(text).0 == Match(a, "");
    assert FirstMatch(text).1 == rest;
    assert text[0] == a[0];
  }

  lemma BeginsWithSpan(a: string, b: string, rest: string)
    requires a != "" && b != "" && AllDigits(a) && AllDigits(b) && (rest == "" || !IsDigit(rest[0]))
    ensures BeginsWith(a + "-" + b + rest, Match(a, b), rest)
  {
    FirstMatchSpan(a, b, rest);
    Associates(a + "-", b, rest);
    Associates(a, "-", b + rest);
    assert (a + ("-" + (b + rest)))[0] == a[0];
  }

  lemma FirstMatchOf(item: Item, rest: string)
    requires rest == "" || (!IsDigit(rest[0]) && rest[0] != '-')
    ensures BeginsWith(Render(item) + rest, MatchOf(item), rest)
  {
    match item
    case Single(i) => BeginsWithSingle(Show(i), rest);
    case Span(from, to) => BeginsWithSpan(Show(from), Show(to), rest);
  }

  lemma {:induction false} SkipSeparator(sep: string, rest: string)
    requires forall c :: c in sep ==> !IsDigit(c)
    requires rest != "" && IsDigit(rest[0])
    ensures SkipToDigit(sep + rest) == |sep|
  {
    if sep != "" {
      assert (sep + rest)[1..] == sep[1..] + rest;
      SkipSeparator(sep[1..], rest);
    } else {
      assert sep + rest == rest;
    }
  }

  lemma {:induction false} MatchesSkip(sep: string, rest: string)
    requires forall c :: c in sep ==> !IsDigit(c)
    requires rest != "" && IsDigit(rest[0])
    ensures Matches(sep + rest) == [FirstMatch(rest).0] + Matches(FirstMatch(rest).1)
  {
    SkipSeparator(sep, rest);
    assert (sep + rest)[|sep|..] == rest;
    assert NextMatch(sep + rest) == Some(FirstMatch(rest));
  }

  lemma MatchesHead(before: string, text: string, m: Match, rest: string)
    requires forall c :: c in before ==> !IsDigit(c)
    requires BeginsWith(text, m, rest)
    ensures Matches(before + text) == [m] + Matches(rest)
  {
    MatchesSkip(before, text);
  }

  lemma MatchesItem(before: string, item: Item, rest: string)
    requires forall c :: c in before ==> !IsDigit(c)
    requires rest == "" || (!IsDigit(rest[0]) && rest[0] != '-')
    ensures Matches(before + (Render(item) + rest)) == [MatchOf(item)] + Matches(rest)
  {
    FirstMatchOf(item, rest);
    MatchesHead(before, Render(item) + rest, MatchOf(item), rest);
  }

  function MatchesOf(items: seq<Item>): seq<Match> {
    if items == [] then [] else [MatchOf(items[0])] + MatchesOf(items[1..])
  }

  /** Nothing but a separator in front and items behind: the matches are those of the items. */
  lemma {:induction false} MatchesOfItems(items: seq<Item>, sep: string, before: string)
    requires Separator(sep) && items != [] && forall c :: c in before ==> !IsDigit(c)
    ensures Matches(before + RenderAll(items, sep)) == MatchesOf(items)
    decreases |items|
  {
    var head, tail := items[0], items[1..];
    if tail == [] {
      MatchesItem(before, head, "");
      assert Render(head) + "" == Render(head) == RenderAll(items, sep);
      assert Matches("") == [] == MatchesOf(tail);
    } else {
      var rest := sep + RenderAll(tail, sep);
      assert RenderAll(items, sep) == Render(head) + rest;
      assert rest[0] == sep[0] && sep[0] in sep;
      MatchesOfItems(tail, sep, sep);
      MatchesItem(before, head, rest);
    }
  }

  lemma {:induction false} MatchesOfAt(items: seq<Item>)
    ensures |MatchesOf(items)| == |items|
    ensures forall i :: 0 <= i < |items| ==> MatchesOf(items)[i] == MatchOf(items[i])
  {
    if items != [] {
      MatchesOfAt(items[1..]);
    }
  }

  lemma {:induction false} IndicesOfItems(ms: seq<Match>, items: seq<Item>)
    requires |ms| == |items| && forall i :: 0 <= i < |items| ==> ms[i] == MatchOf(items[i]) && Fits(items[i])
    ensures forall m :: m in ms ==> AllDigits(m.first) && AllDigits(m.second)
    ensures Indices(ms) == Some(ExpandAll(items))
  {
    if ms != [] {
      var n := |ms| - 1;
      IndicesOfItems(ms[..n], items[..n]);
      match items[n]
      case Single(i) =>
        ShowValue(i);
        assert Run(i, i) == [i];
      case Span(from, to) =>
        ShowValue(from);
        ShowValue(to);
    }
  }

  /** Whatever list of indices and ranges is written down, its indices come back, in order. */
  lemma IndexListRoundTrip(items: seq<Item>, sep: string)
    requires Separator(sep) && forall i :: 0 <= i < |items| ==> Fits(items[i])
    ensures IndexList(RenderAll(items, sep)) == Some(ExpandAll(items))
  {
    if items != [] {
      MatchesOfItems(items, sep, "");
      assert "" + RenderAll(items, sep) == RenderAll(items, sep);
      MatchesOfAt(items);
      IndicesOfItems(MatchesOf(items), items);
    }
  }

  // ---------------------------------------------------------------------------
  // Database sizes
  // ---------------------------------------------------------------------------

  datatype DataPoint = DataPoint(pointType: PointType, index: int)

  /** A point of the "Data" section: an index, an index list, or both. */
  datatype DataSpec = DataSpec(pointType: PointType, index: Option<int>, indexList: Option<string>)

  /** One more than the largest index of the type, at least 0. */
  function DbSize(points: seq<DataPoint>, t: PointType): nat {
    if points == [] then 0
    else
      var size, p := DbSize(points[..|points| - 1], t), points[|points| - 1];
      if p.pointType == t && size < p.index + 1 then p.index + 1 else size
  }

  function PointsAt(t: PointType, indices: seq<int>): seq<DataPoint> {
    if indices == [] then [] else PointsAt(t, indices[..|indices| - 1]) + [DataPoint(t, indices[|indices| - 1])]
  }

  function PointsOf(spec: DataSpec): Option<seq<DataPoint>> {
    var single := if spec.index.Some? then [DataPoint(spec.pointType, spec.index.value)] else [];
    if spec.indexList.None? then Some(single)
    else
      match IndexList(spec.indexList.value)
      case None => None
      case Some(indices) => Some(single + PointsAt(spec.pointType, indices))
  }

  /** A size that every point of the type fits and that some point needs. */
  lemma {:induction false} DbSizeIsLeast(points: seq<DataPoint>, t: PointType)
    ensures forall p :: p in points && p.pointType == t ==> p.index < DbSize(points, t)
    ensures DbSize(points, t) == 0 || exists p :: p in points && p.pointType == t && p.index + 1 == DbSize(points, t)
  {
    if points != [] {
      var front, last := points[..|points| - 1], points[|points| - 1];
      assert points == front + [last];
      DbSizeIsLeast(front, t);
      assert last in points;
    }
  }

  function AsPoint(p: Multiplexer.MappedPoint): DataPoint {
    DataPoint(p.pointType, p.index)
  }

  /** The data points that a list of mapped points makes. */
  function AsPoints(points: seq<Multiplexer.MappedPoint>): seq<DataPoint> {
    seq(|points|, i requires 0 <= i < |points| => AsPoint(points[i]))
  }

  lemma DbSizeNext(points: seq<DataPoint>, p: DataPoint, t: PointType)
    ensures DbSize(points + [p], t) ==
      if p.pointType == t && DbSize(points, t) < p.index + 1 then p.index + 1 else DbSize(points, t)
  {
    assert (points + [p])[..|points|] == points;
  }

  class Node {
    var dbSize: map<PointType, nat>
    var dataPoints: seq<DataPoint>
    var dataSources: map<string, seq<Multiplexer.MappedPoint>>

    /** The recorded sizes are those of the recorded points, and all mapped points are among these. */
    ghost predicate Valid()
      reads this
    {
      && (forall t :: (if t in dbSize then dbSize[t] else 0) == DbSize(dataPoints, t))
      && (forall source, p :: source in dataSources && p in dataSources[source] ==> AsPoint(p) in dataPoints)
    }

    constructor ()
      ensures Valid() && dataPoints == [] && dataSources == map[]
    {
      dbSize := map[BinaryInput := 0, DoubleBinaryInput := 0, AnalogInput := 0, Counter := 0,
                    FrozenCounter := 0, BinaryOutput := 0, AnalogOutput := 0, TimeInterval := 0];
      dataPoints, dataSources := [], map[];
    }

    method PushPoint(p: DataPoint)
      requires Valid()
      modifies this`dbSize, this`dataPoints
      ensures Valid() && dataPoints == old(dataPoints) + [p]
    {
      var size := if p.pointType in dbSize then dbSize[p.pointType] else 0;
      forall t {
        DbSizeNext(dataPoints, p, t);
      }
      if size < p.index + 1 {
        dbSize := dbSize[p.pointType := p.index + 1];
      } else {
        dbSize := dbSize[p.pointType := size];
      }
      dataPoints := dataPoints + [p];
    }

    /** The points of one range of an index list. */
    method PushRange(t: PointType, start: int, end: int)
      requires Valid()
      modifies this`dbSize, this`dataPoints
      ensures Valid() && dataPoints == old(dataPoints) + PointsAt(t, Run(start, end))
    {
      var i := start;
      ghost var base := dataPoints;
      ghost var pushed: seq<DataPoint> := [];
      while i <= end
        invariant start <= i && (i <= end + 1 || i == start) && Valid()
        invariant pushed == PointsAt(t, Run(start, i - 1))
        invariant dataPoints == base + pushed
      {
        PushPoint(DataPoint(t, i));
        PointsAtNext(t, Run(start, i - 1), i);
        PointsRegroup(base, pushed, [DataPoint(t, i)]);
        pushed := pushed + [DataPoint(t, i)];
        i := i + 1;
      }
      RunEnds(start, i - 1, end);
    }

    /** One point of the "Data" section; false when an index does not fit an int. */
    method ReadSpec(spec: DataSpec) returns (ok: bool)
      requires Valid()
      modifies this`dbSize, this`dataPoints
      ensures Valid() && (ok <==> PointsOf(spec).Some?)
      ensures ok ==> dataPoints == old(dataPoints) + PointsOf(spec).value
    {
      ghost var single := if spec.index.Some? then [DataPoint(spec.pointType, spec.index.value)] else [];
      if spec.index.Some? {
        PushPoint(DataPoint(spec.pointType, spec.index.value));
      }
      assert dataPoints == old(dataPoints) + single;
      if spec.indexList.None? {
        return true;
      }
      ok := PushIndexList(spec.pointType, spec.indexList.value);
      if ok {
        PointsRegroup(old(dataPoints), single, PointsAt(spec.pointType, IndexList(spec.indexList.value).value));
      }
    }

    method PushIndexList(t: PointType, text: string) returns (ok: bool)
      requires Valid()
      modifies this`dbSize, this`dataPoints
      ensures Valid() && (ok <==> IndexList(text).Some?)
      ensures ok ==> dataPoints == old(dataPoints) + PointsAt(t, IndexList(text).value)
    {
      ghost var base := dataPoints;
      var ms := FindMatches(text);
      MatchesAreDigits(text);
      assert ms[..|ms|] == ms && base + [] == base;
      for i := 0 to |ms|
        invariant Valid() && Indices(ms[..i]).Some?
        invariant dataPoints == base + PointsAt(t, Indices(ms[..i]).value)
      {
        ghost var found := Indices(ms[..i]).value;
        var m := ms[i];
        if Value(m.first) > INT_MAX {
          IndicesStop(ms, i);
          return false;
        }
        IndicesStep(ms, i);
        PushRange(t, Value(m.first), EndOf(m));
        PointsAtAppend(t, found, Run(Value(m.first), EndOf(m)));
        PointsRegroup(base, PointsAt(t, found), PointsAt(t, Run(Value(m.first), EndOf(m))));
      }
      return true;
    }

    /** The matches of the expression in a text, from left to right. */
    method FindMatches(s: string) returns (ms: seq<Match>)
      ensures ms == Matches(s)
    {
      ms := [];
      var rest := s;
      var next := NextMatch(rest);
      while next.Some?
        invariant ms + Matches(rest) == Matches(s) && next == NextMatch(rest)
        decreases |rest|
      {
        MatchesRegroup(ms, next.value.0, Matches(next.value.1));
        ms := ms + [next.value.0];
        rest := next.value.1;
        next := NextMatch(rest);
      }
    }

    /** One source of the "Data Sources" section: every mapped point is also a data point. */
    method ReadMapped(source: string, points: seq<Multiplexer.MappedPoint>)
      requires Valid()
      modifies this
      ensures Valid()
      ensures dataPoints == old(dataPoints) + AsPoints(points)
      ensures dataSources == Extended(old(dataSources), source, points)
    {
      assert points[..|points|] == points;
      for i := 0 to |points|
        invariant Valid()
        invariant dataPoints == old(dataPoints) + AsPoints(points[..i])
        invariant dataSources == Extended(old(dataSources), source, points[..i])
      {
        PushPoint(AsPoint(points[i]));
        assert AsPoints(points[..i + 1]) == AsPoints(points[..i]) + [AsPoint(points[i])];
        var known := if source in dataSources then dataSources[source] else [];
        ExtendedNext(old(dataSources), source, points[..i], points[i]);
        assert points[..i + 1] == points[..i] + [points[i]];
        dataSources := dataSources[source := known + [points[i]]];
      }
    }
  }

  /** The map after appending points to the list of one source. */
  function Extended(
    sources: map<string, seq<Multiplexer.MappedPoint>>, source: string, points: seq<Multiplexer.MappedPoint>)
    : map<string, seq<Multiplexer.MappedPoint>>
  {
    if points == [] then sources
    else sources[source := (if source in sources then sources[source] else []) + points]
  }

  lemma ExtendedNext(
    sources: map<string, seq<Multiplexer.MappedPoint>>, source: string,
    points: seq<Multiplexer.MappedPoint>, p: Multiplexer.MappedPoint)
    ensures var m := Extended(sources, source, points);
      Extended(sources, source, points + [p]) == m[source := (if source in m then m[source] else []) + [p]]
  {
    var known := if source in sources then sources[source] else [];
    assert known + (points + [p]) == known + points + [p];
    if points == [] {
      assert points + [p] == [p];
    }
  }

  lemma PointsRegroup(a: seq<DataPoint>, b: seq<DataPoint>, c: seq<DataPoint>)
    ensures a + b + c == a + (b + c)
  {
  }

  lemma MatchesRegroup(a: seq<Match>, m: Match, b: seq<Match>)
    ensures a + [m] + b == a + ([m] + b)
  {
  }

  lemma IndicesNext(ms: seq<Match>, m: Match)
    requires forall k :: k in ms + [m] ==> AllDigits(k.first) && AllDigits(k.second)
    requires forall k :: k in ms ==> AllDigits(k.first) && AllDigits(k.second)
    ensures Indices(ms + [m]) ==
      if Indices(ms).None? || Value(m.first) > INT_MAX then None
      else Some(Indices(ms).value + Run(Value(m.first), EndOf(m)))
  {
    assert (ms + [m])[..|ms|] == ms;
  }

  /** One match further... */
  lemma IndicesStep(ms: seq<Match>, i: nat)
    requires forall m :: m in ms ==> AllDigits(m.first) && AllDigits(m.second)
    requires i < |ms| && Indices(ms[..i]).Some? && Value(ms[i].first) <= INT_MAX
    ensures Indices(ms[..i + 1]) == Some(Indices(ms[..i]).value + Run(Value(ms[i].first), EndOf(ms[i])))
  {
    assert ms[..i + 1] == ms[..i] + [ms[i]];
    IndicesNext(ms[..i], ms[i]);
  }

  /** ... or the end of everything. */
  lemma {:induction false} IndicesStop(ms: seq<Match>, i: nat)
    requires forall m :: m in ms ==> AllDigits(m.first) && AllDigits(m.second)
    requires i < |ms| && Value(ms[i].first) > INT_MAX
    ensures Indices(ms).None?
  {
    if i < |ms| - 1 {
      IndicesStop(ms[..|ms| - 1], i);
    }
  }

  lemma PointsAtNext(t: PointType, indices: seq<int>, i: int)
    ensures PointsAt(t, indices + [i]) == PointsAt(t, indices) + [DataPoint(t, i)]
  {
    assert (indices + [i])[..|indices|] == indices;
  }

  lemma {:induction false} PointsAtAppend(t: PointType, a: seq<int>, b: seq<int>)
    ensures PointsAt(t, a + b) == PointsAt(t, a) + PointsAt(t, b)
  {
    if b == [] {
      assert a + b == a;
    } else {
      assert (a + b)[..|a + b| - 1] == a + b[..|b| - 1];
      PointsAtAppend(t, a, b[..|b| - 1]);
    }
  }

  lemma RunEnds(start: int, i: int, end: int)
    requires i == end || (end < start && i == start - 1)
    ensures Run(start, i) == Run(start, end)
  {
  }

  // ---------------------------------------------------------------------------
  // Accepted indices
  // ---------------------------------------------------------------------------

  /** The types for which the database is configured. */
  predicate Configured(t: PointType) {
    t == AnalogInput || t == BinaryInput || t == DoubleBinaryInput || t == Counter || t == FrozenCounter
  }

  function IndexMap(points: seq<DataPoint>): map<PointType, set<int>> {
    if points == [] then map[]
    else
      var m, p := IndexMap(points[..|points| - 1]), points[|points| - 1];
      if Configured(p.pointType)
      then m[p.pointType := (if p.pointType in m then m[p.pointType] else {}) + {p.index}]
      else m
  }

  method ConfigureDatabase(points: seq<DataPoint>) returns (dpTypeIndexMap: map<PointType, set<int>>)
    ensures dpTypeIndexMap == IndexMap(points)
  {
    dpTypeIndexMap := map[];
    for i := 0 to |points|
      invariant dpTypeIndexMap == IndexMap(points[..i])
    {
      assert points[..i + 1][..i] == points[..i];
      var p := points[i];
      if Configured(p.pointType) {
        var known := if p.pointType in dpTypeIndexMap then dpTypeIndexMap[p.pointType] else {};
        dpTypeIndexMap := dpTypeIndexMap[p.pointType := known + {p.index}];
      }
    }
    assert points[..|points|] == points;
  }

  /** The map holds exactly the configured points. */
  lemma {:induction false} IndexMapExactly(points: seq<DataPoint>, t: PointType, i: int)
    ensures t in IndexMap(points) && i in IndexMap(points)[t]
       <==> t in {AnalogInput, BinaryInput, DoubleBinaryInput, Counter, FrozenCounter} && DataPoint(t, i) in points
  {
    if points != [] {
      var front, last := points[..|points| - 1], points[|points| - 1];
      assert points == front + [last];
      IndexMapExactly(front, t, i);
    }
  }

  /** Every accepted index is inside the database. */
  lemma AcceptedIndexFits(points: seq<DataPoint>, t: PointType, i: int)
    requires t in IndexMap(points) && i in IndexMap(points)[t]
    ensures i < DbSize(points, t)
  {
    IndexMapExactly(points, t, i);
    DbSizeIsLeast(points, t);
  }

  // ---------------------------------------------------------------------------
  // Element by element
  // ---------------------------------------------------------------------------

  lemma {:induction false} RunElements(from: int, to: int)
    ensures |Run(from, to)| == (if from <= to then to - from + 1 else 0)
    ensures forall k :: 0 <= k < |Run(from, to)| ==> Run(from, to)[k] == from + k
    decreases if from <= to then to - from + 1 else 0
  {
    if from <= to {
      RunElements(from, to - 1);
    }
  }

  /** The indices that a point of the "Data" section gives: its index, then those of its list. */
  function SpecIndices(index: Option<int>, list: seq<int>): seq<int> {
    match index
    case None => list
    case Some(i) => [i] + list
  }

  lemma {:induction false} PointsAtElements(t: PointType, indices: seq<int>)
    ensures |PointsAt(t, indices)| == |indices|
    ensures forall k :: 0 <= k < |indices| ==> PointsAt(t, indices)[k] == DataPoint(t, indices[k])
  {
    if indices != [] {
      PointsAtElements(t, indices[..|indices| - 1]);
    }
  }

  /** The points recorded are of the type of the point, one for each index, in order. */
  lemma PointsOfElements(spec: DataSpec, list: seq<int>)
    requires if spec.indexList.Some? then IndexList(spec.indexList.value) == Some(list) else list == []
    ensures PointsOf(spec).Some?
    ensures
      var points, indices := PointsOf(spec).value, SpecIndices(spec.index, list);
      && |points| == |indices|
      && forall k :: 0 <= k < |indices| ==> points[k].pointType == spec.pointType && points[k].index == indices[k]
  {
    PointsAtElements(spec.pointType, list);
  }

  lemma {:induction false} HyphensBefore(h: string, b: string)
    requires (forall c :: c in h ==> c == '-') && AllDigits(b)
    ensures Hyphens(h + b) == |h| && (h + b)[|h|..] == b
  {
    if h != "" {
      assert h[0] in h && (h + b)[1..] == h[1..] + b;
      assert h == [h[0]] + h[1..] && forall c :: c in h[1..] ==> c in h;
      HyphensBefore(h[1..], b);
      assert (h + b)[|h|..] == (h[1..] + b)[|h| - 1..];
    } else {
      assert h + b == b;
      assert b != "" ==> IsDigit(b[0]);
    }
  }

  /** One range, however many hyphens it has and whether or not its numbers fit an int: without an end, or
      with one that does not fit, it is its start alone; with a start that does not fit, nothing is read. */
  lemma OneRange(a: string, h: string, b: string)
    requires AllDigits(a) && a != "" && AllDigits(b)
    requires h != "" && forall c :: c in h ==> c == '-'
    ensures IndexList(a + (h + b)) ==
      if Value(a) > 2147483647 then None
      else if b == "" || Value(b) > 2147483647 then Some([Value(a)])
      else Some(Run(Value(a), Value(b)))
  {
    var text, m := a + (h + b), Match(a, b);
    FirstOfRange(a, h, b);
    assert Matches(text) == [m] by {
      MatchesHead("", text, m, "");
      assert "" + text == text && Matches("") == [];
    }
    OneMatch(m);
  }

  lemma OneMatch(m: Match)
    requires AllDigits(m.first) && AllDigits(m.second)
    ensures Indices([m]) ==
      if Value(m.first) > 2147483647 then None
      else if m.second == "" || Value(m.second) > 2147483647 then Some([Value(m.first)])
      else Some(Run(Value(m.first), Value(m.second)))
  {
    IndicesNext([], m);
    assert [] + [m] == [m] && Indices([]) == Some([]);
    assert Run(Value(m.first), Value(m.first)) == [Value(m.first)];
    assert [] + Run(Value(m.first), EndOf(m)) == Run(Value(m.first), EndOf(m));
  }

  lemma FirstOfRange(a: string, h: string, b: string)
    requires AllDigits(a) && a != "" && AllDigits(b)
    requires h != "" && forall c :: c in h ==> c == '-'
    ensures BeginsWith(a + (h + b), Match(a, b), "")
  {
    var text := a + (h + b);
    assert h[0] in h && (h + b)[0] == h[0];
    LeadingOf(a, h + b);
    assert text[|a|..] == h + b && text[0] == a[0];
    HyphensBefore(h, b);
    LeadingOf(b, "");
    assert b + "" == b && b[|b|..] == "";
  }

  /** A text without digits gives no index. */
  lemma NoRange(text: string)
    requires forall c :: c in text ==> !IsDigit(c)
    ensures IndexList(text) == Some([])
  {
    NothingToSkipTo(text);
    assert NextMatch(text) == None;
  }

  lemma {:induction false} NothingToSkipTo(text: string)
    requires forall c :: c in text ==> !IsDigit(c)
    ensures SkipToDigit(text) == |text|
  {
    if text != "" {
      assert text[0] in text;
      NothingToSkipTo(text[1..]);
    }
  }

  /** The lists of mapped points after one source has been read. */
  lemma ExtendedExactly(
    sources: map<string, seq<Multiplexer.MappedPoint>>, source: string, points: seq<Multiplexer.MappedPoint>)
    ensures var m := Extended(sources, source, points);
      && (forall name :: name in m <==> name in sources || (name == source && points != []))
      && (forall name :: name in sources && name != source ==> m[name] == sources[name])
      && (source in m ==> m[source] == (if source in sources then sources[source] else []) + points)
  {
  }
}
