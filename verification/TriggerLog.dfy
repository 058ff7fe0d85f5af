/**
 The log of trigger keys (`ThreadSafeUserInput` in dnp3generator/dnp3app.h) and the stations that follow
 it to rotate through their Lua files (dnp3generator/OutStation.cpp, dnp3generator/Station.cpp).

 Each method of the log holds its lock, so each is one atomic step. A station looks at the count and
 reads the entry in two steps, between which the writer may go on.
 */
module TriggerLog {
  import opened Wrappers
  import opened Division

  // ---------------------------------------------------------------------------
  // The log
  // ---------------------------------------------------------------------------

  datatype Log = Log(count: nat, keys: map<int, string>)

  const EMPTY_LOG := Log(0, map[])

  function Write(l: Log, input: string): Log {
    var keys := if |l.keys| > 10 && l.count + 1 - 10 in l.keys then l.keys - {l.count + 1 - 10} else l.keys;
    Log(l.count + 1, keys[l.count + 1 := input])
  }

  function Lookup(l: Log, k: int): Option<string> {
    if k in l.keys then Some(l.keys[k]) else None
  }

  class ThreadSafeUserInput {
    var currentCount: nat
    var keyPresses: map<int, string>

    function Value(): Log
      reads this
    {
      Log(currentCount, keyPresses)
    }

    constructor ()
      ensures Value() == EMPTY_LOG
    {
      currentCount, keyPresses := 0, map[];
    }

    method ReadCount() returns (count: nat)
      ensures count == Value().count
    {
      count := currentCount;
    }

    /** `None` where the program would build a string from a null pointer. */
    method ReadInputStr(keyCount: int) returns (r: Option<string>)
      ensures r == Lookup(Value(), keyCount)
    {
      if keyCount in keyPresses {
        return Some(keyPresses[keyCount]);
      }
      return None;
    }

    method UnconditionalWriter(input: string)
      modifies this
      ensures Value() == Write(old(Value()), input)
    {
      if |keyPresses| > 10 && currentCount + 1 - 10 in keyPresses {
        keyPresses := keyPresses - {currentCount + 1 - 10};
      }
      currentCount := currentCount + 1;
      keyPresses := keyPresses[currentCount := input];
    }
  }

  /** The log after all the inputs of a history. */
  function Logged(history: seq<string>): (l: Log)
    ensures l.count == |history|
  {
    if history == [] then EMPTY_LOG else Write(Logged(history[..|history| - 1]), history[|history| - 1])
  }

  // ---------------------------------------------------------------------------
  // The window of retained entries
  // ---------------------------------------------------------------------------

  /** Retained are the very first entry and the ten newest. */
  predicate Retained(n: nat, i: int) {
    1 <= i <= n && (i == 1 || n - i <= 9)
  }

  function Window(n: nat): set<int> {
    set i: int | 1 <= i <= n && Retained(n, i)
  }

  function Range(lo: int, hi: int): set<int>
    decreases hi - lo + 1
  {
    if lo > hi then {} else Range(lo, hi - 1) + {hi}
  }

  lemma {:induction false} RangeSize(lo: int, hi: int)
    requires lo <= hi + 1
    ensures forall i :: i in Range(lo, hi) <==> lo <= i <= hi
    ensures |Range(lo, hi)| == hi - lo + 1
    decreases hi - lo + 1
  {
    if lo <= hi {
      RangeSize(lo, hi - 1);
    }
  }

  lemma WindowSize(n: nat)
    ensures |Window(n)| == if n <= 11 then n else 11
  {
    if n <= 10 {
      RangeSize(1, n);
      assert Window(n) == Range(1, n);
    } else {
      RangeSize(n - 9, n);
      assert Window(n) == {1} + Range(n - 9, n);
    }
  }

  /** One more write moves the window on by one. */
  lemma WindowMoves(l: Log, input: string)
    requires l.keys.Keys == Window(l.count)
    ensures Write(l, input).keys.Keys == Window(l.count + 1)
    ensures forall i :: i in Window(l.count + 1) && i != l.count + 1 ==>
      i in l.keys && Write(l, input).keys[i] == l.keys[i]
  {
    var n: int := l.count;
    WindowSize(n);
    assert |l.keys| == |l.keys.Keys|;
    assert n - 9 in l.keys <==> n - 9 in Window(n);
    forall i ensures i in Write(l, input).keys <==> i in Window(n + 1) {
      assert i in l.keys <==> i in Window(n);
    }
  }

  lemma {:induction false} KeysAreWindow(history: seq<string>)
    ensures Logged(history).keys.Keys == Window(|history|)
  {
    if history != [] {
      KeysAreWindow(history[..|history| - 1]);
      WindowMoves(Logged(history[..|history| - 1]), history[|history| - 1]);
    }
  }

  lemma {:induction false} EntryIsInput(history: seq<string>, i: int)
    requires i in Window(|history|)
    ensures i in Logged(history).keys && Logged(history).keys[i] == history[i - 1]
  {
    var front := history[..|history| - 1];
    KeysAreWindow(history);
    KeysAreWindow(front);
    WindowMoves(Logged(front), history[|history| - 1]);
    if i < |history| {
      EntryIsInput(front, i);
    }
  }

  /** After n writes exactly the window is there, each key with the input of its number; the comment in
      the source says 10, the size reaches 11, and the lowest index is never erased. */
  lemma ExactWindow(history: seq<string>)
    ensures Logged(history).keys.Keys == Window(|history|)
    ensures forall i :: i in Window(|history|) ==> Logged(history).keys[i] == history[i - 1]
    ensures |Logged(history).keys| == if |history| <= 11 then |history| else 11
  {
    KeysAreWindow(history);
    WindowSize(|history|);
    assert |Logged(history).keys| == |Logged(history).keys.Keys|;
    forall i | i in Window(|history|) {
      EntryIsInput(history, i);
    }
  }

  /** A lookup succeeds exactly for the first entry and for those at most nine behind the newest. */
  lemma LookupExactly(history: seq<string>, k: int)
    ensures Lookup(Logged(history), k) == if Retained(|history|, k) then Some(history[k - 1]) else None
  {
    KeysAreWindow(history);
    assert k in Window(|history|) <==> Retained(|history|, k);
    if Retained(|history|, k) {
      EntryIsInput(history, k);
    }
  }

  // ---------------------------------------------------------------------------
  // Stations
  // ---------------------------------------------------------------------------

  /** `reading` while the entry under the cursor has been counted but not yet compared; `failed` after
      a lookup that missed. */
  datatype Station = Station(key: string, files: nat, cursor: nat, index: nat, reading: bool, failed: bool)

  function NextFile(s: Station): Station {
    if s.index < s.files - 1 then s.(index := s.index + 1) else s.(index := 0)
  }

  /** `readCount() > localLuaFlag`, and the first half of the loop body. */
  function Check(l: Log, s: Station): Station {
    if s.reading || s.failed || l.count <= s.cursor then s
    else s.(cursor := s.cursor + 1, reading := s.key != "")
  }

  /** The comparison of an entry with the key of the station. */
  function Compare(s: Station, entry: Option<string>): Station {
    match entry
    case None => s.(failed := true)
    case Some(input) => (if input == s.key then NextFile(s) else s).(reading := false)
  }

  /** The second half of the loop body. */
  function Read(l: Log, s: Station): Station {
    if !s.reading || s.failed then s else Compare(s, Lookup(l, s.cursor))
  }

  datatype Action = Input(input: string) | Checks(station: nat) | Reads(station: nat)

  datatype System = System(history: seq<string>, log: Log, stations: seq<Station>)

  function Step(sys: System, a: Action): System {
    match a
    case Input(input) => sys.(history := sys.history + [input], log := Write(sys.log, input))
    case Checks(i) =>
      if i < |sys.stations| then sys.(stations := sys.stations[i := Check(sys.log, sys.stations[i])]) else sys
    case Reads(i) =>
      if i < |sys.stations| then sys.(stations := sys.stations[i := Read(sys.log, sys.stations[i])]) else sys
  }

  predicate FreshStation(s: Station) {
    s.files > 0 && s.cursor == 0 && s.index == 0 && !s.reading && !s.failed
  }

  function Run(stations: seq<Station>, run: seq<Action>): System {
    if run == [] then System([], EMPTY_LOG, stations)
    else Step(Run(stations, run[..|run| - 1]), run[|run| - 1])
  }

  /** A comparison comes in time if its entry is still retained. */
  predicate TimelyStep(sys: System, a: Action) {
    if a.Reads? && a.station < |sys.stations| && sys.stations[a.station].reading && !sys.stations[a.station].failed
    then Retained(|sys.history|, sys.stations[a.station].cursor)
    else true
  }

  predicate Timely(stations: seq<Station>, run: seq<Action>) {
    run == [] || (Timely(stations, run[..|run| - 1]) && TimelyStep(Run(stations, run[..|run| - 1]), run[|run| - 1]))
  }

  /** How often the key occurs. */
  function Occurrences(key: string, history: seq<string>): nat {
    if history == [] then 0
    else Occurrences(key, history[..|history| - 1]) + (if history[|history| - 1] == key then 1 else 0)
  }

  /** The entries that a station has dealt with. */
  function Done(s: Station): nat {
    if s.reading && s.cursor > 0 then s.cursor - 1 else s.cursor
  }

  /** The file index is the number of occurrences of the key so far, modulo the number of files. */
  ghost predicate Tracks(history: seq<string>, s: Station) {
    && s.files > 0
    && s.cursor <= |history|
    && (s.reading ==> s.key != "" && s.cursor > 0)
    && (s.key == "" ==> s.index == 0 && !s.failed)
    && (!s.failed && s.key != "" ==> s.index == Rem(Occurrences(s.key, history[..Done(s)]), s.files))
  }

  lemma CheckTracks(history: seq<string>, s: Station)
    requires Tracks(history, s)
    ensures Tracks(history, Check(Logged(history), s))
  {
  }

  lemma OccurrencesNext(key: string, history: seq<string>, k: nat)
    requires k < |history|
    ensures Occurrences(key, history[..k + 1]) == Occurrences(key, history[..k]) + (if history[k] == key then 1 else 0)
  {
    assert history[..k + 1][..k] == history[..k];
  }

  /** Counting one more occurrence turns to the next file. */
  lemma NextFileCounts(s: Station, count: nat)
    requires s.files > 0 && s.index == Rem(count, s.files)
    ensures NextFile(s).index == Rem(count + 1, s.files)
  {
    Advance(count, 1, s.files);
  }

  lemma CompareTracks(history: seq<string>, s: Station)
    requires Tracks(history, s) && s.reading && !s.failed
    ensures Tracks(history, Compare(s, Some(history[s.cursor - 1])))
    ensures Tracks(history, Compare(s, None))
  {
    OccurrencesNext(s.key, history, s.cursor - 1);
    NextFileCounts(s, Occurrences(s.key, history[..s.cursor - 1]));
  }

  /** A comparison fails exactly when it comes too late, and otherwise counts one more entry. */
  lemma ReadTracks(history: seq<string>, s: Station)
    requires Tracks(history, s)
    ensures Tracks(history, Read(Logged(history), s))
    ensures Read(Logged(history), s).failed <==> s.failed || (s.reading && !Retained(|history|, s.cursor))
  {
    LookupExactly(history, s.cursor);
    if s.reading && !s.failed {
      CompareTracks(history, s);
    }
  }

  /** One round of the cursor loop. */
  lemma RoundTracks(history: seq<string>, s: Station)
    requires Tracks(history, s) && !s.reading && !s.failed && s.key != "" && s.cursor < |history|
    ensures Tracks(history, (if history[s.cursor] == s.key then NextFile(s) else s).(cursor := s.cursor + 1))
  {
    CompareTracks(history, s.(cursor := s.cursor + 1, reading := true));
  }

  lemma SkipTracks(history: seq<string>, s: Station)
    requires Tracks(history, s) && !s.reading && s.key == "" && s.cursor < |history|
    ensures Tracks(history, s.(cursor := s.cursor + 1))
  {
  }

  ghost predicate Follows(sys: System) {
    && sys.log == Logged(sys.history)
    && forall i :: 0 <= i < |sys.stations| ==> Tracks(sys.history, sys.stations[i])
  }

  predicate NobodyFailed(sys: System) {
    forall i :: 0 <= i < |sys.stations| ==> !sys.stations[i].failed
  }

  lemma InputFollows(sys: System, input: string)
    requires Follows(sys)
    ensures Follows(Step(sys, Input(input)))
  {
    var sys' := Step(sys, Input(input));
    assert sys'.history[..|sys.history|] == sys.history;
    forall i | 0 <= i < |sys.stations| ensures Tracks(sys'.history, sys.stations[i]) {
      assert sys'.history[..Done(sys.stations[i])] == sys.history[..Done(sys.stations[i])];
    }
  }

  /** One station moves. */
  lemma StationMoves(sys: System, i: nat, s: Station)
    requires Follows(sys) && i < |sys.stations| && Tracks(sys.history, s)
    ensures var sys' := sys.(stations := sys.stations[i := s]);
      && Follows(sys')
      && ((sys.stations[i].failed ==> s.failed) ==> (NobodyFailed(sys') <==> NobodyFailed(sys) && !s.failed))
  {
    var sys' := sys.(stations := sys.stations[i := s]);
    assert forall j :: 0 <= j < |sys.stations| && j != i ==> sys'.stations[j] == sys.stations[j];
    assert sys'.stations[i] == s;
  }

  lemma StepFollows(sys: System, a: Action)
    requires Follows(sys)
    ensures Follows(Step(sys, a))
    ensures NobodyFailed(Step(sys, a)) <==> NobodyFailed(sys) && TimelyStep(sys, a)
  {
    match a
    case Input(input) => InputFollows(sys, input);
    case Checks(i) =>
      if i < |sys.stations| {
        CheckTracks(sys.history, sys.stations[i]);
        StationMoves(sys, i, Check(sys.log, sys.stations[i]));
      }
    case Reads(i) =>
      if i < |sys.stations| {
        ReadTracks(sys.history, sys.stations[i]);
        StationMoves(sys, i, Read(sys.log, sys.stations[i]));
      }
  }

  lemma {:induction false} RunFollows(stations: seq<Station>, run: seq<Action>)
    requires forall i :: 0 <= i < |stations| ==> FreshStation(stations[i])
    ensures Follows(Run(stations, run))
    ensures NobodyFailed(Run(stations, run)) <==> Timely(stations, run)
  {
    if run != [] {
      RunFollows(stations, run[..|run| - 1]);
      StepFollows(Run(stations, run[..|run| - 1]), run[|run| - 1]);
    } else {
      forall i | 0 <= i < |stations| ensures Tracks([], stations[i]) {
        assert Occurrences(stations[i].key, []) == 0;
      }
    }
  }

  lemma StepKeepsSetup(sys: System, a: Action, i: nat)
    requires i < |sys.stations|
    ensures |Step(sys, a).stations| == |sys.stations|
    ensures Step(sys, a).stations[i].key == sys.stations[i].key
    ensures Step(sys, a).stations[i].files == sys.stations[i].files
  {
  }

  lemma {:induction false} StationKeepsSetup(stations: seq<Station>, run: seq<Action>, i: nat)
    requires i < |stations|
    ensures |Run(stations, run).stations| == |stations|
    ensures Run(stations, run).stations[i].key == stations[i].key
    ensures Run(stations, run).stations[i].files == stations[i].files
  {
    if run != [] {
      StationKeepsSetup(stations, run[..|run| - 1], i);
      StepKeepsSetup(Run(stations, run[..|run| - 1]), run[|run| - 1], i);
    }
  }

  /** Whatever the interleaving: no lookup ever misses if and only if every comparison comes in time. */
  lemma NeverMissesExactly(stations: seq<Station>, run: seq<Action>)
    requires forall i :: 0 <= i < |stations| ==> FreshStation(stations[i])
    ensures NobodyFailed(Run(stations, run)) <==> Timely(stations, run)
  {
    RunFollows(stations, run);
  }

  /** Nothing but the inputs of a history. */
  function Inputs(history: seq<string>): seq<Action> {
    if history == [] then [] else Inputs(history[..|history| - 1]) + [Input(history[|history| - 1])]
  }

  lemma RunNext(stations: seq<Station>, run: seq<Action>, a: Action)
    ensures Run(stations, run + [a]) == Step(Run(stations, run), a)
  {
    assert (run + [a])[..|run|] == run;
  }

  lemma InputStep(history: seq<string>, input: string, stations: seq<Station>)
    ensures Step(System(history, Logged(history), stations), Input(input))
         == System(history + [input], Logged(history + [input]), stations)
  {
    assert (history + [input])[..|history|] == history;
  }

  lemma {:induction false} InputsOnly(stations: seq<Station>, history: seq<string>)
    ensures Run(stations, Inputs(history)) == System(history, Logged(history), stations)
  {
    if history != [] {
      var front, last := history[..|history| - 1], history[|history| - 1];
      InputsOnly(stations, front);
      RunNext(stations, Inputs(front), Input(last));
      InputStep(front, last, stations);
      assert history == front + [last] && Inputs(history) == Inputs(front) + [Input(last)];
    }
  }

  /** A station that comes late: of twelve inputs it still finds the first, and misses the second. */
  lemma LateStationMisses(key: string, files: nat)
    requires key != "" && files > 0
    ensures
      var stations := [Station(key, files, 0, 0, false, false)];
      var run := Inputs(seq(12, _ => key)) + [Checks(0)] + [Reads(0)] + [Checks(0)] + [Reads(0)];
      var sys := Run(stations, run);
      FreshStation(stations[0]) && |sys.stations| == 1 && sys.stations[0].failed && !Timely(stations, run)
  {
    var s := Station(key, files, 0, 0, false, false);
    var history := seq(12, _ => key);
    var r0 := Inputs(history);
    var r1 := r0 + [Checks(0)];
    var r2 := r1 + [Reads(0)];
    var r3 := r2 + [Checks(0)];
    var r4 := r3 + [Reads(0)];
    InputsOnly([s], history);
    RunNext([s], r0, Checks(0));
    RunNext([s], r1, Reads(0));
    RunNext([s], r2, Checks(0));
    RunNext([s], r3, Reads(0));
    LookupExactly(history, 1);
    LookupExactly(history, 2);
    assert Run([s], r2).stations[0].cursor == 1 && !Run([s], r2).stations[0].reading;
    assert Run([s], r3).stations[0].cursor == 2 && Run([s], r3).stations[0].reading;
    assert Run([s], r4).stations[0].failed;
    NeverMissesExactly([s], r4);
  }

  /** The step makes station `i` turn to its next file and load it. */
  predicate SwitchesFile(sys: System, a: Action, i: nat) {
    && a == Reads(i) && i < |sys.stations|
    && sys.stations[i].reading && !sys.stations[i].failed
    && Lookup(sys.log, sys.stations[i].cursor) == Some(sys.stations[i].key)
  }

  /** How often station `i` has done so. */
  function Switches(stations: seq<Station>, run: seq<Action>, i: nat): nat {
    if run == [] then 0
    else
      Switches(stations, run[..|run| - 1], i)
      + (if SwitchesFile(Run(stations, run[..|run| - 1]), run[|run| - 1], i) then 1 else 0)
  }

  /** The occurrences of the key of a station among the entries it has dealt with. */
  function Triggers(s: Station, history: seq<string>): nat
    requires Done(s) <= |history|
  {
    if s.key == "" then 0 else Occurrences(s.key, history[..Done(s)])
  }

  lemma CompareTriggers(history: seq<string>, s: Station)
    requires Tracks(history, s) && s.reading
    ensures var s' := Compare(s, Some(history[s.cursor - 1]));
      && Done(s') <= |history|
      && Triggers(s', history) == Triggers(s, history) + (if history[s.cursor - 1] == s.key then 1 else 0)
  {
    OccurrencesNext(s.key, history, s.cursor - 1);
  }

  /** Only a switch counts an occurrence. */
  lemma StepTriggers(sys: System, a: Action, i: nat)
    requires Follows(sys) && NobodyFailed(sys) && TimelyStep(sys, a) && i < |sys.stations|
    ensures Done(sys.stations[i]) <= |sys.history| && i < |Step(sys, a).stations|
    ensures Done(Step(sys, a).stations[i]) <= |Step(sys, a).history|
    ensures Triggers(Step(sys, a).stations[i], Step(sys, a).history)
         == Triggers(sys.stations[i], sys.history) + (if SwitchesFile(sys, a, i) then 1 else 0)
  {
    var s, sys' := sys.stations[i], Step(sys, a);
    assert Tracks(sys.history, s);
    if a.Input? {
      assert sys'.history[..Done(s)] == sys.history[..Done(s)];
    } else if a == Reads(i) {
      LookupExactly(sys.history, s.cursor);
      if s.reading {
        CompareTriggers(sys.history, s);
      }
    }
  }

  lemma {:induction false} SwitchesCount(stations: seq<Station>, run: seq<Action>, i: nat)
    requires forall j :: 0 <= j < |stations| ==> FreshStation(stations[j])
    requires Timely(stations, run) && i < |stations|
    ensures |Run(stations, run).stations| == |stations|
    ensures
      var s, history := Run(stations, run).stations[i], Run(stations, run).history;
      Done(s) <= |history| && Switches(stations, run, i) == Triggers(s, history)
  {
    if run != [] {
      var before, a := run[..|run| - 1], run[|run| - 1];
      var sys := Run(stations, before);
      SwitchesCount(stations, before, i);
      assert Follows(sys) && NobodyFailed(sys) by {
        RunFollows(stations, before);
      }
      StepTriggers(sys, a, i);
      StepKeepsSetup(sys, a, i);
      assert Run(stations, run) == Step(sys, a);
    } else {
      assert Run(stations, run) == System([], EMPTY_LOG, stations);
      assert Triggers(stations[i], []) == 0;
    }
  }

  /**
   In every run in which all comparisons come in time, every station has switched exactly as often as
   its key occurs among the entries it has dealt with, and its file index is that number modulo the
   number of its files; a station without a key never switches.
   */
  lemma RotationCounts(stations: seq<Station>, run: seq<Action>, i: nat)
    requires forall j :: 0 <= j < |stations| ==> FreshStation(stations[j])
    requires Timely(stations, run) && i < |stations|
    ensures |Run(stations, run).stations| == |stations|
    ensures
      var s, history := Run(stations, run).stations[i], Run(stations, run).history;
      && s.files == stations[i].files > 0 && Done(s) <= |history|
      && s.key == stations[i].key
      && Switches(stations, run, i) == (if s.key == "" then 0 else Occurrences(s.key, history[..Done(s)]))
      && s.index == Switches(stations, run, i) % s.files
  {
    RunFollows(stations, run);
    SwitchesCount(stations, run, i);
    StationKeepsSetup(stations, run, i);
    var s, history := Run(stations, run).stations[i], Run(stations, run).history;
    assert !s.failed && Tracks(history, s);
    IsDivision(Occurrences(s.key, history[..Done(s)]), s.files);
  }

  // ---------------------------------------------------------------------------
  // Catching up
  // ---------------------------------------------------------------------------

  /** Some rounds of the loop of station `i`. */
  function Rounds(i: nat, n: nat): seq<Action> {
    if n == 0 then [] else Rounds(i, n - 1) + [Checks(i)] + [Reads(i)]
  }

  /** One round deals with one entry, if there is one left and its comparison comes in time. */
  lemma RoundAdvances(history: seq<string>, s: Station)
    requires Tracks(history, s) && !s.failed
    ensures var s' := Read(Logged(history), Check(Logged(history), s));
      !s'.failed ==> Done(s') == if Done(s) < |history| then Done(s) + 1 else Done(s)
    ensures Read(Logged(history), Check(Logged(history), s)).failed <==>
      s.key != "" && Done(s) < |history| && !Retained(|history|, Done(s) + 1)
    ensures Check(Logged(history), s).failed == s.failed
  {
    CheckTracks(history, s);
    LookupExactly(history, Check(Logged(history), s).cursor);
  }

  /** A round leaves the history alone. */
  lemma RoundOfRun(stations: seq<Station>, run: seq<Action>, i: nat)
    requires i < |Run(stations, run).stations|
    ensures
      var sys, sys' := Run(stations, run), Run(stations, run + [Checks(i)] + [Reads(i)]);
      && sys'.history == sys.history && |sys'.stations| == |sys.stations|
      && sys'.stations[i] == Read(sys.log, Check(sys.log, sys.stations[i]))
  {
    RunNext(stations, run, Checks(i));
    RunNext(stations, run + [Checks(i)], Reads(i));
  }

  lemma TimelyPrefix(stations: seq<Station>, run: seq<Action>, a: Action)
    ensures Timely(stations, run + [a]) <==> Timely(stations, run) && TimelyStep(Run(stations, run), a)
  {
    assert (run + [a])[..|run|] == run;
  }

  /** The entry that the station deals with in its next round is retained, if there is one. */
  predicate NextRetained(history: seq<string>, s: Station, n: nat) {
    s.key == "" || forall k :: Done(s) < k <= Done(s) + n && k <= |history| ==> Retained(|history|, k)
  }

  /** After `n` rounds a station has dealt with as many entries more, as far as there are any, in time if
      and only if these are retained. */
  predicate AfterRounds(sys: System, sys': System, i: nat, n: nat, timely: bool) {
    && sys'.history == sys.history && |sys'.stations| == |sys.stations| && i < |sys.stations|
    && var s, s' := sys.stations[i], sys'.stations[i];
    && s'.key == s.key && Done(s) <= |sys.history|
    && (timely <==> NextRetained(sys.history, s, n))
    && (timely ==> Done(s') == if Done(s) + n <= |sys.history| then Done(s) + n else |sys.history|)
  }

  lemma OneMoreRound(sys: System, mid: System, sys': System, i: nat, n: nat, timely: bool, timely': bool)
    requires AfterRounds(sys, mid, i, n, timely)
    requires mid.history == sys'.history && |mid.stations| == |sys'.stations|
    requires sys'.stations[i].key == mid.stations[i].key
    requires timely ==> AfterRounds(mid, sys', i, 1, timely')
    ensures AfterRounds(sys, sys', i, n + 1, timely && timely')
  {
    var s, history := sys.stations[i], sys.history;
    if timely && timely' {
      forall k | s.key != "" && Done(s) < k <= Done(s) + n + 1 && k <= |history| ensures Retained(|history|, k) {
        if k > Done(s) + n {
          assert k == Done(mid.stations[i]) + 1;
        }
      }
    }
  }

  lemma RoundInTime(stations: seq<Station>, run: seq<Action>, i: nat)
    requires forall j :: 0 <= j < |stations| ==> FreshStation(stations[j])
    requires Timely(stations, run) && i < |stations|
    ensures
      var run' := run + [Checks(i)] + [Reads(i)];
      AfterRounds(Run(stations, run), Run(stations, run'), i, 1, Timely(stations, run'))
  {
    var sys, run' := Run(stations, run), run + [Checks(i)] + [Reads(i)];
    StationKeepsSetup(stations, run, i);
    StationKeepsSetup(stations, run', i);
    assert Tracks(sys.history, sys.stations[i]) && !sys.stations[i].failed && sys.log == Logged(sys.history) by {
      RunFollows(stations, run);
    }
    RoundOfRun(stations, run, i);
    RoundTimely(stations, run, i);
    RoundIsOne(sys, Run(stations, run'), i, Timely(stations, run'));
  }

  lemma RoundIsOne(sys: System, sys': System, i: nat, timely: bool)
    requires i < |sys.stations| == |sys'.stations| && sys'.history == sys.history
    requires Tracks(sys.history, sys.stations[i]) && !sys.stations[i].failed
    requires sys'.stations[i] == Read(Logged(sys.history), Check(Logged(sys.history), sys.stations[i]))
    requires timely <==> var s := sys.stations[i];
      s.key == "" || Done(s) >= |sys.history| || Retained(|sys.history|, Done(s) + 1)
    ensures AfterRounds(sys, sys', i, 1, timely)
  {
    RoundAdvances(sys.history, sys.stations[i]);
  }

  lemma RoundTimely(stations: seq<Station>, run: seq<Action>, i: nat)
    requires Timely(stations, run) && i < |Run(stations, run).stations|
    requires var sys := Run(stations, run); Tracks(sys.history, sys.stations[i]) && !sys.stations[i].failed
    requires Run(stations, run).log == Logged(Run(stations, run).history)
    ensures
      var history, s := Run(stations, run).history, Run(stations, run).stations[i];
      Timely(stations, run + [Checks(i)] + [Reads(i)]) <==>
        s.key == "" || Done(s) >= |history| || Retained(|history|, Done(s) + 1)
  {
    RunNext(stations, run, Checks(i));
    TimelyPrefix(stations, run, Checks(i));
    TimelyPrefix(stations, run + [Checks(i)], Reads(i));
  }

  lemma RoundAppended(stations: seq<Station>, sys: System, before: seq<Action>, i: nat, n: nat)
    requires forall j :: 0 <= j < |stations| ==> FreshStation(stations[j])
    requires i < |stations| && AfterRounds(sys, Run(stations, before), i, n, Timely(stations, before))
    ensures
      var after := before + [Checks(i)] + [Reads(i)];
      AfterRounds(sys, Run(stations, after), i, n + 1, Timely(stations, after))
  {
    var after := before + [Checks(i)] + [Reads(i)];
    var mid, sys' := Run(stations, before), Run(stations, after);
    RoundOfRun(stations, before, i);
    assert sys'.stations[i].key == mid.stations[i].key by {
      StationKeepsSetup(stations, before, i);
      StationKeepsSetup(stations, after, i);
    }
    TimelyPrefix(stations, before, Checks(i));
    TimelyPrefix(stations, before + [Checks(i)], Reads(i));
    if Timely(stations, before) {
      RoundInTime(stations, before, i);
    }
    OneMoreRound(sys, mid, sys', i, n, Timely(stations, before), Timely(stations, after));
  }

  lemma NoRound(stations: seq<Station>, run: seq<Action>, i: nat)
    requires forall j :: 0 <= j < |stations| ==> FreshStation(stations[j])
    requires Timely(stations, run) && i < |stations|
    ensures AfterRounds(Run(stations, run), Run(stations, run), i, 0, true)
  {
    StationKeepsSetup(stations, run, i);
    RunFollows(stations, run);
    assert Tracks(Run(stations, run).history, Run(stations, run).stations[i]);
  }

  lemma RoundsNext(run: seq<Action>, i: nat, n: nat)
    ensures run + Rounds(i, n + 1) == run + Rounds(i, n) + [Checks(i)] + [Reads(i)]
  {
  }

  lemma {:induction false} RoundsAdvance(stations: seq<Station>, run: seq<Action>, i: nat, n: nat)
    requires forall j :: 0 <= j < |stations| ==> FreshStation(stations[j])
    requires Timely(stations, run) && i < |stations|
    ensures
      var run' := run + Rounds(i, n);
      AfterRounds(Run(stations, run), Run(stations, run'), i, n, Timely(stations, run'))
  {
    if n == 0 {
      NoRound(stations, run, i);
      assert run + Rounds(i, 0) == run;
    } else {
      RoundsAdvance(stations, run, i, n - 1);
      RoundsNext(run, i, n - 1);
      RoundAppended(stations, Run(stations, run), run + Rounds(i, n - 1), i, n - 1);
    }
  }

  /** The entries that a station has not dealt with yet. */
  function Outstanding(sys: System, i: nat): nat
    requires i < |sys.stations|
  {
    if Done(sys.stations[i]) <= |sys.history| then |sys.history| - Done(sys.stations[i]) else 0
  }

  /** The station has dealt with the whole history, and every occurrence of its key has made it switch. */
  ghost predicate CaughtUp(stations: seq<Station>, run: seq<Action>, i: nat, history: seq<string>) {
    var sys := Run(stations, run);
    && i < |sys.stations| && sys.history == history && Done(sys.stations[i]) == |history|
    && Switches(stations, run, i) == if sys.stations[i].key == "" then 0 else Occurrences(sys.stations[i].key, history)
  }

  /**
   From any state of a run, without further inputs, a station catches up: as many rounds as there are
   entries outstanding bring it to the end of the history, in time if and only if these are retained.
   */
  lemma CatchesUp(stations: seq<Station>, run: seq<Action>, i: nat)
    requires forall j :: 0 <= j < |stations| ==> FreshStation(stations[j])
    requires Timely(stations, run) && i < |stations|
    ensures |Run(stations, run).stations| == |stations|
    ensures
      var sys := Run(stations, run);
      var run' := run + Rounds(i, Outstanding(sys, i));
      && (Timely(stations, run') ==> CaughtUp(stations, run', i, sys.history))
      && (Timely(stations, run') <==>
            || sys.stations[i].key == ""
            || forall k :: |sys.history| - Outstanding(sys, i) < k <= |sys.history| ==> Retained(|sys.history|, k))
  {
    StationKeepsSetup(stations, run, i);
    var sys := Run(stations, run);
    var n := Outstanding(sys, i);
    var run' := run + Rounds(i, n);
    RoundsAdvance(stations, run, i, n);
    if Timely(stations, run') {
      SwitchesCount(stations, run', i);
      assert sys.history[..|sys.history|] == sys.history;
    }
  }

  // ---------------------------------------------------------------------------
  // The station object
  // ---------------------------------------------------------------------------

  class LuaStation {
    const luaFiles: nat
    const luaKeySwitch: string
    var localLuaFlag: nat
    var currentLuaFileIndex: nat

    function Value(): Station
      reads this
    {
      Station(luaKeySwitch, luaFiles, localLuaFlag, currentLuaFileIndex, false, false)
    }

    constructor (files: nat, key: string)
      requires files > 0
      ensures Value() == Station(key, files, 0, 0, false, false)
    {
      luaFiles, luaKeySwitch := files, key;
      localLuaFlag, currentLuaFileIndex := 0, 0;
    }

    method GetNextLuaFile()
      requires luaFiles > 0
      modifies this
      ensures Value() == NextFile(old(Value()))
    {
      if currentLuaFileIndex < luaFiles - 1 {
        currentLuaFileIndex := currentLuaFileIndex + 1;
      } else {
        currentLuaFileIndex := 0;
      }
    }

    /** One round of the cursor loop; false when the lookup misses. */
    method FollowNext(input: ThreadSafeUserInput, ghost history: seq<string>) returns (ok: bool)
      requires input.Value() == Logged(history) && Tracks(history, Value()) && localLuaFlag < |history|
      modifies this
      ensures localLuaFlag == old(localLuaFlag) + 1
      ensures var s := Read(Logged(history), Check(Logged(history), old(Value())));
        (ok <==> !s.failed) && (ok ==> Value() == s)
      ensures ok ==> Tracks(history, Value())
      ensures !ok ==> luaKeySwitch != "" && !Retained(|history|, localLuaFlag)
    {
      ghost var s := Value();
      localLuaFlag := localLuaFlag + 1;
      if luaKeySwitch == "" {
        SkipTracks(history, s);
        return true;
      }
      RoundTracks(history, s);
      LookupExactly(history, localLuaFlag);
      var entry := input.ReadInputStr(localLuaFlag);
      if entry.None? {
        return false;
      }
      if entry.value == luaKeySwitch {
        GetNextLuaFile();
      }
      return true;
    }

    /** The cursor loop, when no input arrives meanwhile; false when a lookup misses. */
    method FollowTriggers(input: ThreadSafeUserInput, ghost history: seq<string>) returns (ok: bool)
      requires input.Value() == Logged(history) && Tracks(history, Value())
      modifies this
      ensures ok ==> localLuaFlag == |history| && Tracks(history, Value())
      ensures luaKeySwitch == "" ==> ok
      ensures !ok ==> exists k :: old(localLuaFlag) < k <= |history| && !Retained(|history|, k)
    {
      var count := input.ReadCount();
      while count > localLuaFlag
        invariant count == |history| && input.Value() == Logged(history)
        invariant old(localLuaFlag) <= localLuaFlag && Tracks(history, Value())
        decreases count - localLuaFlag
      {
        var hit := FollowNext(input, history);
        if !hit {
          return false;
        }
        count := input.ReadCount();
      }
      return true;
    }
  }
}
