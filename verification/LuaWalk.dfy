/**
 How an outstation picks the new values out of the Lua table `data` (`LuaInvokeScript` in
 dnp3generator/OutStation.cpp): a walk on the Lua stack, with the stack discipline of section 4.8 of the
 Lua 5.2 Reference Manual. Every access of the walk, reads included, carries the bottom of the frame, so
 that verifying the walk shows that it never reaches below it.
 */
module LuaWalk {
  import opened Wrappers
  import opened PointTypes
  import opened DatabaseSizing

  /** Lua values. `numeral` is what the number reader of Lua makes of a text, if anything. */
  datatype Value =
    | Nil
    | Boolean(b: bool)
    | Number(n: int)
    | Text(text: string, numeral: Option<int>)
    | Table(entries: seq<Entry>)

  /** The entries of a table, in the order in which `lua_next` goes through them. */
  datatype Entry = Entry(key: Value, value: Value)

  /** Keys are not nil and occur once. */
  predicate IsTable(entries: seq<Entry>) {
    && (forall i :: 0 <= i < |entries| ==> entries[i].key != Nil)
    && (forall i, j :: 0 <= i < j < |entries| ==> entries[i].key != entries[j].key)
  }

  function ToInteger(v: Value): int {
    match v
    case Number(n) => n
    case Text(_, numeral) => numeral.GetOr(0)
    case _ => 0
  }

  /** `t[name]`: the value under a text key, or nil. */
  function Field(entries: seq<Entry>, name: string): Value {
    if entries == [] then Nil
    else if entries[0].key.Text? && entries[0].key.text == name then entries[0].value
    else Field(entries[1..], name)
  }

  function Position(entries: seq<Entry>, key: Value): (i: nat)
    ensures i <= |entries|
    ensures i < |entries| ==> entries[i].key == key
    ensures forall j :: 0 <= j < i ==> entries[j].key != key
  {
    if entries == [] || entries[0].key == key then 0 else 1 + Position(entries[1..], key)
  }

  // ---------------------------------------------------------------------------
  // The stack
  // ---------------------------------------------------------------------------

  class LuaState {
    var stack: seq<Value>

    /** The value at a negative index. */
    function At(offset: int, ghost frame: nat): Value
      requires frame <= |stack| + offset < |stack|
      reads this
    {
      stack[|stack| + offset]
    }

    method Push(v: Value)
      modifies this
      ensures stack == old(stack) + [v]
    {
      stack := stack + [v];
    }

    method Pop(n: nat, ghost frame: nat)
      requires frame + n <= |stack|
      modifies this
      ensures stack == old(stack)[..|old(stack)| - n]
    {
      stack := stack[..|stack| - n];
    }

    /** `lua_pop(L, lua_gettop(L))`: take everything, wherever the frame begins. */
    method Clear()
      modifies this
      ensures stack == []
    {
      stack := [];
    }

    /** `lua_gettable(L, -2)`: replace the key on top by the entry of the table below it. */
    method GetField(ghost frame: nat)
      requires frame + 2 <= |stack| && At(-2, frame).Table? && At(-1, frame).Text?
      modifies this
      ensures stack == old(stack)[..|old(stack)| - 1] + [Field(old(At(-2, frame)).entries, old(At(-1, frame)).text)]
    {
      var value := Field(At(-2, frame).entries, At(-1, frame).text);
      stack := stack[..|stack| - 1] + [value];
    }

    /** `lua_next(L, -2)`: replace the key on top by the next key and its value, or just remove it after
        the last one; nil stands before the first. */
    method Next(ghost frame: nat) returns (more: bool)
      requires frame + 2 <= |stack| && At(-2, frame).Table?
      requires At(-1, frame) == Nil || Position(At(-2, frame).entries, At(-1, frame)) < |At(-2, frame).entries|
      modifies this
      ensures
        var entries, key, below := old(At(-2, frame)).entries, old(At(-1, frame)), old(stack)[..|old(stack)| - 1];
        var i := if key == Nil then 0 else Position(entries, key) + 1;
        && (more <==> i < |entries|)
        && stack == if i < |entries| then below + [entries[i].key, entries[i].value] else below
    {
      var entries, key, below := At(-2, frame).entries, At(-1, frame), stack[..|stack| - 1];
      var i := if key == Nil then 0 else Position(entries, key) + 1;
      more := i < |entries|;
      stack := if i < |entries| then below + [entries[i].key, entries[i].value] else below;
    }
  }

  // ---------------------------------------------------------------------------
  // What should be picked out
  // ---------------------------------------------------------------------------

  /** A new value for one point. */
  datatype Update = Update(kind: PointType, index: int, value: int)

  /** Binary values are truth values. */
  function Reading(kind: PointType, v: Value): int {
    if kind == BinaryInput then (if ToInteger(v) != 0 then 1 else 0) else ToInteger(v)
  }

  predicate Wanted(indexMap: map<PointType, set<int>>, kind: PointType, e: Entry) {
    kind in indexMap && ToInteger(e.key) - 1 in indexMap[kind]
  }

  function UpdateOf(kind: PointType, e: Entry): Update {
    Update(kind, ToInteger(e.key) - 1, Reading(kind, e.value))
  }

  /** The entries of one subtable whose key, counted from 1, is an accepted index. */
  function Selected(indexMap: map<PointType, set<int>>, kind: PointType, entries: seq<Entry>): seq<Update> {
    if entries == [] then []
    else
      Selected(indexMap, kind, entries[..|entries| - 1])
      + (if Wanted(indexMap, kind, entries[|entries| - 1]) then [UpdateOf(kind, entries[|entries| - 1])] else [])
  }

  function SelectedFrom(indexMap: map<PointType, set<int>>, kind: PointType, v: Value): seq<Update> {
    if v.Table? then Selected(indexMap, kind, v.entries) else []
  }

  /** All of `data`: analog inputs, then counters, then binary inputs. */
  function Picked(indexMap: map<PointType, set<int>>, data: seq<Entry>): seq<Update> {
    SelectedFrom(indexMap, AnalogInput, Field(data, "Analog Input"))
    + SelectedFrom(indexMap, Counter, Field(data, "Counter"))
    + SelectedFrom(indexMap, BinaryInput, Field(data, "Binary Input"))
  }

  /** The tables that the walk goes through are tables. */
  predicate ScriptData(data: Value) {
    && data.Table? && IsTable(data.entries)
    && forall i :: 0 <= i < |data.entries| && data.entries[i].value.Table? ==> IsTable(data.entries[i].value.entries)
  }

  lemma {:induction false} FieldIsEntry(entries: seq<Entry>, name: string)
    ensures Field(entries, name) == Nil || exists i :: 0 <= i < |entries| && entries[i].value == Field(entries, name)
  {
    if entries != [] && !(entries[0].key.Text? && entries[0].key.text == name) {
      FieldIsEntry(entries[1..], name);
      if i :| 0 <= i < |entries[1..]| && entries[1..][i].value == Field(entries[1..], name) {
        assert entries[i + 1].value == Field(entries, name);
      }
    }
  }

  lemma PositionOfKey(entries: seq<Entry>, i: nat)
    requires IsTable(entries) && i < |entries|
    ensures Position(entries, entries[i].key) == i
  {
  }

  // ---------------------------------------------------------------------------
  // The walk
  // ---------------------------------------------------------------------------

  class OutStation {
    const dpTypeIndexMap: map<PointType, set<int>>
    const lua: LuaState

    constructor (indexMap: map<PointType, set<int>>, lua: LuaState)
      ensures dpTypeIndexMap == indexMap && this.lua == lua
    {
      dpTypeIndexMap, this.lua := indexMap, lua;
    }

    /** `lua_next` after `i` entries have been seen. */
    method NextEntry(ghost base: seq<Value>, ghost entries: seq<Entry>, ghost i: nat, ghost frame: nat)
      returns (more: bool)
      requires frame + 1 <= |base| && base[|base| - 1] == Table(entries) && IsTable(entries) && i <= |entries|
      requires lua.stack == base + [if i == 0 then Nil else entries[i - 1].key]
      modifies lua
      ensures more <==> i < |entries|
      ensures lua.stack == if i < |entries| then base + [entries[i].key, entries[i].value] else base
    {
      if i > 0 {
        PositionOfKey(entries, i - 1);
      }
      more := lua.Next(frame);
    }

    /** Go through the entries of the table on top of the stack and leave the stack as it was. */
    method WalkTable(kind: PointType, ghost entries: seq<Entry>, ghost frame: nat) returns (updates: seq<Update>)
      requires frame + 1 <= |lua.stack| && lua.At(-1, frame) == Table(entries) && IsTable(entries)
      modifies lua
      ensures lua.stack == old(lua.stack)
      ensures updates == Selected(dpTypeIndexMap, kind, entries)
    {
      ghost var base := lua.stack;
      ghost var seen: nat := 0;
      updates := [];
      lua.Push(Nil);
      var more := NextEntry(base, entries, seen, frame);
      while more
        invariant seen <= |entries| && more == (seen < |entries|)
        invariant lua.stack == if more then base + [entries[seen].key, entries[seen].value] else base
        invariant updates == Selected(dpTypeIndexMap, kind, entries[..seen])
        decreases |entries| - seen
      {
        if kind !in dpTypeIndexMap {
          lua.Pop(2, frame);
          NothingSelected(dpTypeIndexMap, kind, entries);
          NothingSelected(dpTypeIndexMap, kind, entries[..seen]);
          return;
        }
        updates := TakeEntry(kind, updates, base, entries[seen], frame);
        SelectedNext(dpTypeIndexMap, kind, entries, seen);
        seen := seen + 1;
        more := NextEntry(base, entries, seen, frame);
      }
      assert entries[..seen] == entries;
    }

    /** One entry: an update if its index is accepted; the key stays for `lua_next`. */
    method TakeEntry(kind: PointType, updates: seq<Update>, ghost base: seq<Value>, ghost e: Entry, ghost frame: nat)
      returns (updates': seq<Update>)
      requires kind in dpTypeIndexMap && frame <= |base| && lua.stack == base + [e.key, e.value]
      modifies lua
      ensures lua.stack == base + [e.key]
      ensures updates' == updates + (if Wanted(dpTypeIndexMap, kind, e) then [UpdateOf(kind, e)] else [])
    {
      var index := ToInteger(lua.At(-2, frame)) - 1;
      var value := Reading(kind, lua.At(-1, frame));
      updates' := updates;
      if index !in dpTypeIndexMap[kind] {
        lua.Pop(1, frame);
        return;
      }
      updates' := updates' + [Update(kind, index, value)];
      lua.Pop(1, frame);
    }

    /** One subtable: fetch it and go through its entries. On return it is on top of the stack. */
    method CollectUpdates(kind: PointType, name: string, data: Value, ghost frame: nat) returns (updates: seq<Update>)
      requires ScriptData(data) && frame + 1 <= |lua.stack| && lua.At(-1, frame) == data
      modifies lua
      ensures lua.stack == old(lua.stack) + [Field(data.entries, name)]
      ensures updates == SelectedFrom(dpTypeIndexMap, kind, Field(data.entries, name))
    {
      ghost var base := lua.stack;
      ghost var sub := Field(data.entries, name);
      updates := [];
      lua.Push(Text(name, None));
      lua.GetField(frame);
      FieldIsEntry(data.entries, name);
      assert lua.stack == base + [sub];
      if lua.At(-1, frame).Table? {
        updates := WalkTable(kind, sub.entries, frame);
      }
    }

    /** The same, with the subtable removed again. */
    method CollectAndDrop(kind: PointType, name: string, data: Value, ghost frame: nat) returns (updates: seq<Update>)
      requires ScriptData(data) && frame + 1 <= |lua.stack| && lua.At(-1, frame) == data
      modifies lua
      ensures lua.stack == old(lua.stack)
      ensures updates == SelectedFrom(dpTypeIndexMap, kind, Field(data.entries, name))
    {
      ghost var base := lua.stack;
      updates := CollectUpdates(kind, name, data, frame);
      lua.Pop(1, frame);
      assert lua.stack == base;
    }

    /** The walk through `data`, from the two values that the script has left to the third subtable.
        `None` is the early exit. Nothing below the frame is looked at or changed. */
    method PickUpdates(result: Value, data: Value, ghost frame: nat) returns (picked: Option<seq<Update>>)
      requires ScriptData(data) && frame == |lua.stack|
      modifies lua
      ensures old(lua.stack) <= lua.stack
      ensures picked == if data.entries == [] then None else Some(Picked(dpTypeIndexMap, data.entries))
    {
      lua.Push(result);
      lua.Push(data);
      ghost var base := lua.stack;
      lua.Push(Nil);
      var some := lua.Next(frame);
      if !some {
        return None;
      }
      lua.Pop(2, frame);
      assert lua.stack == base;
      var analogs := CollectAndDrop(AnalogInput, "Analog Input", data, frame);
      var counters := CollectAndDrop(Counter, "Counter", data, frame);
      var binaries := CollectUpdates(BinaryInput, "Binary Input", data, frame);
      return Some(analogs + counters + binaries);
    }

    /** The whole of `LuaInvokeScript`, the script having returned `result` and left the table `data`.
        `None` is the early return without an update. The last pop takes the whole stack. On the empty
        stack that the program counts on this is its own frame; what a failed script may have left there
        goes too. */
    method LuaInvokeScript(result: Value, data: Value) returns (applied: Option<seq<Update>>)
      requires ScriptData(data)
      modifies lua
      ensures lua.stack == []
      ensures applied == if data.entries == [] then None else Some(Picked(dpTypeIndexMap, data.entries))
    {
      ghost var frame := |lua.stack|;
      applied := PickUpdates(result, data, frame);
      lua.Clear();
    }
  }

  lemma SelectedNext(indexMap: map<PointType, set<int>>, kind: PointType, entries: seq<Entry>, i: nat)
    requires i < |entries|
    ensures Selected(indexMap, kind, entries[..i + 1]) ==
      Selected(indexMap, kind, entries[..i])
      + (if Wanted(indexMap, kind, entries[i]) then [UpdateOf(kind, entries[i])] else [])
  {
    assert entries[..i + 1][..i] == entries[..i];
  }

  lemma {:induction false} NothingSelected(indexMap: map<PointType, set<int>>, kind: PointType, entries: seq<Entry>)
    requires kind !in indexMap
    ensures Selected(indexMap, kind, entries) == []
  {
    if entries != [] {
      NothingSelected(indexMap, kind, entries[..|entries| - 1]);
    }
  }

  // ---------------------------------------------------------------------------
  // What the selection is
  // ---------------------------------------------------------------------------

  /** An update is made exactly for the wanted entries. */
  lemma {:induction false} SelectedExactly(
    indexMap: map<PointType, set<int>>, kind: PointType, entries: seq<Entry>, u: Update)
    ensures u in Selected(indexMap, kind, entries)
       <==> exists e :: e in entries && Wanted(indexMap, kind, e) && u == UpdateOf(kind, e)
  {
    if entries != [] {
      var front, last := entries[..|entries| - 1], entries[|entries| - 1];
      assert entries == front + [last];
      SelectedExactly(indexMap, kind, front, u);
      assert last in entries;
    }
  }

  /** Every update of an outstation whose index map was built from its data points is inside the
      database that was sized from the same points. */
  lemma UpdatesFitDatabase(points: seq<DataPoint>, data: Value, u: Update)
    requires ScriptData(data) && u in Picked(IndexMap(points), data.entries)
    ensures u.kind in {AnalogInput, Counter, BinaryInput}
    ensures DataPoint(u.kind, u.index) in points && u.index < DbSize(points, u.kind)
  {
    var m := IndexMap(points);
    var (kind, name) :=
      if u in SelectedFrom(m, AnalogInput, Field(data.entries, "Analog Input")) then (AnalogInput, "Analog Input")
      else if u in SelectedFrom(m, Counter, Field(data.entries, "Counter")) then (Counter, "Counter")
      else (BinaryInput, "Binary Input");
    SelectedExactly(m, kind, Field(data.entries, name).entries, u);
    IndexMapExactly(points, kind, u.index);
    AcceptedIndexFits(points, kind, u.index);
  }

  // ---------------------------------------------------------------------------
  // By name
  // ---------------------------------------------------------------------------

  /** The number that Lua reads in a value: of a number or a numeral itself, of anything else 0. */
  ghost predicate Reads(v: Value, n: int) {
    || v == Number(n)
    || (v.Text? && v.numeral == Some(n))
    || (n == 0 && !v.Number? && (v.Text? ==> v.numeral == None))
  }

  /** The update that an entry makes: for the index one below its key, with its value, which for a binary
      input is whether it is not 0. */
  ghost predicate Makes(kind: PointType, e: Entry, u: Update) {
    && u.kind == kind
    && Reads(e.key, u.index + 1)
    && if kind == BinaryInput
       then (u.value == 0 && Reads(e.value, 0)) || (u.value == 1 && exists n :: n != 0 && Reads(e.value, n))
       else Reads(e.value, u.value)
  }

  /** The key of the entry, counted from 1, is an accepted index. */
  ghost predicate AcceptsKey(indexMap: map<PointType, set<int>>, kind: PointType, e: Entry) {
    kind in indexMap && exists i :: i in indexMap[kind] && Reads(e.key, i + 1)
  }

  /** The updates are those of the accepted entries, one each, in table order: the k-th is that of the
      entry at `places[k]`. */
  ghost predicate TakenFrom(
    indexMap: map<PointType, set<int>>, kind: PointType, entries: seq<Entry>, updates: seq<Update>, places: seq<nat>)
  {
    && |places| == |updates|
    && (forall j, k :: 0 <= j < k < |places| ==> places[j] < places[k])
    && (forall k :: 0 <= k < |places| ==> places[k] < |entries| && Makes(kind, entries[places[k]], updates[k]))
    && (forall i: nat :: i in places <==> i < |entries| && AcceptsKey(indexMap, kind, entries[i]))
  }

  ghost predicate IsSelection(
    indexMap: map<PointType, set<int>>, kind: PointType, entries: seq<Entry>, updates: seq<Update>)
  {
    exists places :: TakenFrom(indexMap, kind, entries, updates, places)
  }

  lemma ReadsOne(v: Value, n: int)
    ensures Reads(v, n) <==> n == ToInteger(v)
  {
  }

  lemma MadeByEntry(indexMap: map<PointType, set<int>>, kind: PointType, e: Entry)
    ensures Makes(kind, e, UpdateOf(kind, e))
    ensures AcceptsKey(indexMap, kind, e) <==> Wanted(indexMap, kind, e)
  {
    ReadsOne(e.value, ToInteger(e.value));
    ReadsOne(e.key, ToInteger(e.key));
    if kind in indexMap {
      forall i | i in indexMap[kind] ensures Reads(e.key, i + 1) <==> i + 1 == ToInteger(e.key) {
        ReadsOne(e.key, i + 1);
      }
    }
    if Wanted(indexMap, kind, e) {
      assert Reads(e.key, ToInteger(e.key) - 1 + 1);
    }
  }

  lemma TakenOneMore(
    indexMap: map<PointType, set<int>>, kind: PointType, entries: seq<Entry>,
    updates: seq<Update>, places: seq<nat>, u: Update)
    requires entries != [] && TakenFrom(indexMap, kind, entries[..|entries| - 1], updates, places)
    requires AcceptsKey(indexMap, kind, entries[|entries| - 1]) && Makes(kind, entries[|entries| - 1], u)
    ensures TakenFrom(indexMap, kind, entries, updates + [u], places + [|entries| - 1])
  {
    var n: nat := |entries| - 1;
    var front, places' := entries[..n], places + [n];
    forall k | 0 <= k < |places'| ensures places'[k] <= n && Makes(kind, entries[places'[k]], (updates + [u])[k]) {
      if k < |places| {
        assert places[k] in places && front[places[k]] == entries[places[k]];
      }
    }
    forall i: nat ensures i in places' <==> i < |entries| && AcceptsKey(indexMap, kind, entries[i]) {
      if i < n {
        assert front[i] == entries[i];
      }
    }
  }

  lemma TakenNoMore(
    indexMap: map<PointType, set<int>>, kind: PointType, entries: seq<Entry>, updates: seq<Update>, places: seq<nat>)
    requires entries != [] && TakenFrom(indexMap, kind, entries[..|entries| - 1], updates, places)
    requires !AcceptsKey(indexMap, kind, entries[|entries| - 1])
    ensures TakenFrom(indexMap, kind, entries, updates, places)
  {
    var front := entries[..|entries| - 1];
    forall i: nat ensures i in places <==> i < |entries| && AcceptsKey(indexMap, kind, entries[i]) {
      if i < |front| {
        assert front[i] == entries[i];
      }
    }
    forall k | 0 <= k < |places| ensures places[k] < |entries| && Makes(kind, entries[places[k]], updates[k]) {
      assert front[places[k]] == entries[places[k]];
    }
  }

  lemma {:induction false} SelectedPlaces(indexMap: map<PointType, set<int>>, kind: PointType, entries: seq<Entry>)
    returns (places: seq<nat>)
    ensures TakenFrom(indexMap, kind, entries, Selected(indexMap, kind, entries), places)
  {
    if entries == [] {
      places := [];
    } else {
      var n := |entries| - 1;
      var front := SelectedPlaces(indexMap, kind, entries[..n]);
      MadeByEntry(indexMap, kind, entries[n]);
      if Wanted(indexMap, kind, entries[n]) {
        places := front + [n];
        TakenOneMore(
          indexMap, kind, entries, Selected(indexMap, kind, entries[..n]), front, UpdateOf(kind, entries[n]));
      } else {
        places := front;
        TakenNoMore(indexMap, kind, entries, Selected(indexMap, kind, entries[..n]), front);
      }
    }
  }

  /** The value under a name: that of the first entry with this name, or nil. */
  ghost predicate IsField(entries: seq<Entry>, name: string, v: Value) {
    || (v == Nil && forall i :: 0 <= i < |entries| && entries[i].key.Text? ==> entries[i].key.text != name)
    || exists i :: && 0 <= i < |entries| && entries[i].key.Text? && entries[i].key.text == name && v == entries[i].value
                   && forall j :: 0 <= j < i && entries[j].key.Text? ==> entries[j].key.text != name
  }

  lemma {:induction false} FieldByName(entries: seq<Entry>, name: string)
    ensures IsField(entries, name, Field(entries, name))
  {
    if entries != [] && !(entries[0].key.Text? && entries[0].key.text == name) {
      var rest := entries[1..];
      FieldByName(rest, name);
      if i :| && 0 <= i < |rest| && rest[i].key.Text? && rest[i].key.text == name
              && Field(entries, name) == rest[i].value
              && forall j :: 0 <= j < i && rest[j].key.Text? ==> rest[j].key.text != name {
        assert entries[i + 1] == rest[i];
        forall j | 0 <= j < i + 1 && entries[j].key.Text? ensures entries[j].key.text != name {
          if j > 0 {
            assert rest[j - 1] == entries[j];
          }
        }
      } else {
        forall i | 0 <= i < |entries| && entries[i].key.Text? ensures entries[i].key.text != name {
          if i > 0 {
            assert rest[i - 1] == entries[i];
          }
        }
      }
    }
  }

  /** The updates from the table under a name, none if there is no table. */
  ghost predicate SelectedByName(
    indexMap: map<PointType, set<int>>, kind: PointType, data: seq<Entry>, name: string, updates: seq<Update>)
  {
    exists v :: && IsField(data, name, v)
                && if v.Table? then IsSelection(indexMap, kind, v.entries, updates) else updates == []
  }

  lemma SelectionByName(indexMap: map<PointType, set<int>>, kind: PointType, data: seq<Entry>, name: string)
    ensures SelectedByName(indexMap, kind, data, name, SelectedFrom(indexMap, kind, Field(data, name)))
  {
    FieldByName(data, name);
    var v := Field(data, name);
    if v.Table? {
      var places := SelectedPlaces(indexMap, kind, v.entries);
    }
  }

  /**
   What is applied, by name: the analog inputs from "Analog Input", then the counters from "Counter", then
   the binary inputs from "Binary Input", of each table exactly the accepted entries, in their order.
   */
  lemma AppliedByName(indexMap: map<PointType, set<int>>, data: seq<Entry>)
    returns (analogs: seq<Update>, counters: seq<Update>, binaries: seq<Update>)
    ensures Picked(indexMap, data) == analogs + counters + binaries
    ensures SelectedByName(indexMap, AnalogInput, data, "Analog Input", analogs)
    ensures SelectedByName(indexMap, Counter, data, "Counter", counters)
    ensures SelectedByName(indexMap, BinaryInput, data, "Binary Input", binaries)
  {
    analogs := SelectedFrom(indexMap, AnalogInput, Field(data, "Analog Input"));
    counters := SelectedFrom(indexMap, Counter, Field(data, "Counter"));
    binaries := SelectedFrom(indexMap, BinaryInput, Field(data, "Binary Input"));
    SelectionByName(indexMap, AnalogInput, data, "Analog Input");
    SelectionByName(indexMap, Counter, data, "Counter");
    SelectionByName(indexMap, BinaryInput, data, "Binary Input");
  }
}
