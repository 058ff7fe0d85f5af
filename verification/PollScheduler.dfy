/**
 The polling loop of a Modbus master (modbusgenerator/master_station.py): a dictionary of countdowns,
 slept down by its minimum in every round. Time is the sum of the sleeps; the polls themselves take
 none.
 */
module PollScheduler {
  import opened Wrappers
  import opened Division
  import opened ModbusServer

  type Frequencies = map<string, int>

  predicate Positive(f: Frequencies) {
    forall k :: k in f ==> f[k] > 0
  }

  datatype Wake = Wake(time: int, due: set<string>)

  /** The countdowns at the head of the loop, the seconds slept and the wake-ups so far. */
  datatype State = State(time: int, sleep: map<string, int>, trace: seq<Wake>)

  ghost predicate IsLeast(m: map<string, int>, v: int) {
    (exists k :: k in m && m[k] == v) && forall k :: k in m ==> v <= m[k]
  }

  lemma {:induction false} LeastExists(m: map<string, int>)
    requires m != map[]
    ensures exists v :: IsLeast(m, v)
    decreases |m|
  {
    var k :| k in m;
    var rest := m - {k};
    assert rest.Keys == m.Keys - {k};
    assert |m.Keys - {k}| < |m.Keys|;
    assert forall j :: j in m ==> j == k || j in rest;
    if rest == map[] {
      assert IsLeast(m, m[k]);
    } else {
      LeastExists(rest);
      var least :| IsLeast(rest, least);
      var j :| j in rest && rest[j] == least;
      assert j in m && m[j] == least;
      assert IsLeast(m, if m[k] <= least then m[k] else least);
    }
  }

  ghost function Least(m: map<string, int>): (v: int)
    requires m != map[]
    ensures IsLeast(m, v)
  {
    LeastExists(m);
    var v :| IsLeast(m, v);
    v
  }

  lemma LeastIsUnique(m: map<string, int>, v: int)
    requires m != map[] && IsLeast(m, v)
    ensures v == Least(m)
  {
  }

  /** A countdown after the nap; one that has run out starts again. */
  function Next(f: Frequencies, sleep: map<string, int>, k: string, nap: int): int
    requires k in sleep && k in f
  {
    if sleep[k] - nap > 0 then sleep[k] - nap else f[k]
  }

  ghost function Round(f: Frequencies, s: State): State
    requires s.sleep.Keys == f.Keys
  {
    if s.sleep == map[] then s.(time := s.time + 1)
    else
      var nap := Least(s.sleep);
      State(s.time + nap,
            map k | k in s.sleep :: Next(f, s.sleep, k, nap),
            s.trace + [Wake(s.time + nap, set k | k in s.sleep && s.sleep[k] == nap)])
  }

  ghost function Rounds(f: Frequencies, n: nat): (s: State)
    ensures s.sleep.Keys == f.Keys
  {
    if n == 0 then State(0, f, []) else Round(f, Rounds(f, n - 1))
  }

  // ---------------------------------------------------------------------------
  // The loop itself
  // ---------------------------------------------------------------------------

  datatype Request = Request(unit: int, kind: DataType, start: nat, count: nat)

  function TypeNamed(name: string): Option<DataType> {
    if name == "Coils" then Some(Coils)
    else if name == "Discretes Input" then Some(DiscretesInput)
    else if name == "Holding Registers" then Some(HoldingRegisters)
    else if name == "Input Registers" then Some(InputRegisters)
    else None
  }

  /** One read per unit and known type name; other names are only logged. */
  ghost predicate Wanted(r: Request, info: map<int, nat>, due: set<string>) {
    r.unit in info && r.start == 0 && r.count == info[r.unit] && exists k :: k in due && TypeNamed(k) == Some(r.kind)
  }

  /** By name: coils are read when "Coils" is due and only then, and so on; no other name causes a read. */
  ghost predicate WantedByName(r: Request, info: map<int, nat>, due: set<string>) {
    && r.unit in info && r.start == 0 && r.count == info[r.unit]
    && match r.kind
       case Coils => "Coils" in due
       case DiscretesInput => "Discretes Input" in due
       case HoldingRegisters => "Holding Registers" in due
       case InputRegisters => "Input Registers" in due
  }

  lemma RequestsByName(r: Request, info: map<int, nat>, due: set<string>)
    ensures Wanted(r, info, due) <==> WantedByName(r, info, due)
  {
    assert TypeNamed("Coils") == Some(Coils) && TypeNamed("Discretes Input") == Some(DiscretesInput);
    assert TypeNamed("Holding Registers") == Some(HoldingRegisters);
    assert TypeNamed("Input Registers") == Some(InputRegisters);
  }

  ghost predicate Distinct(requests: seq<Request>) {
    forall i, j :: 0 <= i < j < |requests| ==> requests[i] != requests[j]
  }

  /** Every type has one name. */
  lemma OneName(fn: string, kind: DataType, names: set<string>)
    requires TypeNamed(fn) == Some(kind) && fn !in names
    ensures forall k :: k in names ==> TypeNamed(k) != Some(kind)
  {
  }

  class MasterStation {
    const pollDict: Frequencies
    const info: map<int, nat>
    var sleepDict: map<string, int>
    ghost var state: State

    ghost predicate Valid()
      reads this
    {
      state.sleep == sleepDict && sleepDict.Keys == pollDict.Keys
    }

    constructor (pollDict: Frequencies, info: map<int, nat>)
      ensures Valid() && this.pollDict == pollDict && this.info == info
      ensures state == Rounds(pollDict, 0)
    {
      this.pollDict, this.info := pollDict, info;
      sleepDict := pollDict;
      state := State(0, pollDict, []);
    }

    /** One round of `run`: sleep, poll what is due, and update the countdowns key by key. */
    method RunRound() returns (requests: seq<Request>)
      requires Valid()
      modifies this
      ensures Valid() && state == Round(pollDict, old(state))
      ensures sleepDict == map[] ==> requests == []
      ensures Distinct(requests)
      ensures sleepDict != map[] ==> forall r :: r in requests <==> Wanted(r, info, state.trace[|state.trace| - 1].due)
    {
      var before := sleepDict;
      if before == map[] {
        state := Round(pollDict, state);
        return [];
      }
      var nap := MinValue(before);
      LeastIsUnique(before, nap);
      var due := set k | k in before && before[k] == nap;
      requests := PollOutstations(due);
      var rest := before.Keys;
      while rest != {}
        invariant rest <= before.Keys && sleepDict.Keys == before.Keys
        invariant state == old(state)
        invariant forall k :: k in before ==>
          sleepDict[k] == if k in rest then before[k] else Next(pollDict, before, k, nap)
      {
        var k :| k in rest;
        sleepDict := sleepDict[k := Next(pollDict, sleepDict, k, nap)];
        rest := rest - {k};
      }
      state := Round(pollDict, state);
    }

    method MinValue(m: map<string, int>) returns (v: int)
      requires m != map[]
      ensures IsLeast(m, v)
    {
      var first :| first in m;
      v := m[first];
      var rest := m.Keys;
      while rest != {}
        invariant rest <= m.Keys
        invariant exists k :: k in m && m[k] == v
        invariant forall k :: k in m && k !in rest ==> v <= m[k]
      {
        var k :| k in rest;
        if m[k] < v {
          v := m[k];
        }
        rest := rest - {k};
      }
    }

    /** `poll_outstations`: for every unit, for every due type, one read. */
    method PollOutstations(due: set<string>) returns (requests: seq<Request>)
      ensures forall r :: r in requests <==> Wanted(r, info, due)
      ensures forall r :: r in requests <==> WantedByName(r, info, due)
      ensures Distinct(requests)
    {
      requests := [];
      var units := info.Keys;
      while units != {}
        invariant units <= info.Keys && Distinct(requests)
        invariant forall r :: r in requests <==> r.unit !in units && Wanted(r, info, due)
      {
        var unit := AnyOf(units);
        var kinds := due;
        while kinds != {}
          invariant kinds <= due && Distinct(requests)
          invariant forall r :: r in requests <==>
            || (r.unit !in units && Wanted(r, info, due))
            || (r.unit == unit && Wanted(r, info, due - kinds))
        {
          var fn :| fn in kinds;
          if TypeNamed(fn).Some? {
            OneName(fn, TypeNamed(fn).value, due - kinds);
            requests := requests + [Request(unit, TypeNamed(fn).value, 0, info[unit])];
          }
          kinds := kinds - {fn};
        }
        assert due - kinds == due;
        units := units - {unit};
      }
      forall r ensures Wanted(r, info, due) <==> WantedByName(r, info, due) {
        RequestsByName(r, info, due);
      }
    }
  }

  // ---------------------------------------------------------------------------
  // Closed form
  // ---------------------------------------------------------------------------

  /** At every loop head each countdown is what is left of its period. */
  ghost predicate OnSchedule(f: Frequencies, s: State)
    requires Positive(f)
  {
    s.sleep.Keys == f.Keys && s.time >= 0 && forall k :: k in f ==> s.sleep[k] == f[k] - Rem(s.time, f[k])
  }

  ghost function DueAt(f: Frequencies, t: nat): set<string>
    requires Positive(f)
  {
    set k | k in f && Rem(t, f[k]) == 0
  }

  lemma CountdownOnSchedule(f: Frequencies, s: State, nap: int, k: string)
    requires Positive(f) && OnSchedule(f, s) && k in f
    requires 0 < nap <= s.sleep[k]
    ensures Next(f, s.sleep, k, nap) == f[k] - Rem(s.time + nap, f[k])
    ensures s.sleep[k] == nap <==> Rem(s.time + nap, f[k]) == 0
  {
    Advance(s.time, nap, f[k]);
  }

  lemma NapIsPositive(f: Frequencies, s: State)
    requires Positive(f) && f != map[] && OnSchedule(f, s)
    ensures s.sleep != map[] && Least(s.sleep) > 0
    ensures exists k :: k in f && s.sleep[k] == Least(s.sleep)
    ensures forall k :: k in f ==> Least(s.sleep) <= s.sleep[k]
  {
    var k :| k in f;
    assert k in s.sleep;
    var first :| first in s.sleep && s.sleep[first] == Least(s.sleep);
    assert first in f;
  }

  /** Before the nap is over nothing is due. */
  lemma QuietNap(f: Frequencies, s: State, t: nat)
    requires Positive(f) && f != map[] && OnSchedule(f, s)
    requires s.time < t < s.time + Least(s.sleep)
    ensures DueAt(f, t) == {}
  {
    NapIsPositive(f, s);
    forall k | k in f ensures Rem(t, f[k]) != 0 {
      Advance(s.time, t - s.time, f[k]);
    }
  }

  /** A round from one loop head to the next. */
  lemma RoundOnSchedule(f: Frequencies, s: State)
    requires Positive(f) && f != map[] && OnSchedule(f, s)
    ensures OnSchedule(f, Round(f, s))
    ensures s.sleep != map[] && Round(f, s).time == s.time + Least(s.sleep) > s.time
    ensures Round(f, s).trace == s.trace + [Wake(Round(f, s).time, DueAt(f, Round(f, s).time))]
    ensures DueAt(f, Round(f, s).time) != {}
  {
    NapIsPositive(f, s);
    var nap := Least(s.sleep);
    forall k | k in f {
      CountdownOnSchedule(f, s, nap, k);
    }
    assert (set k | k in s.sleep && s.sleep[k] == nap) == DueAt(f, s.time + nap);
    var first :| first in f && s.sleep[first] == nap;
    assert first in DueAt(f, s.time + nap);
  }

  lemma {:induction false} AlwaysOnSchedule(f: Frequencies, n: nat)
    requires Positive(f)
    ensures OnSchedule(f, Rounds(f, n))
  {
    if n > 0 {
      AlwaysOnSchedule(f, n - 1);
      if f != map[] {
        RoundOnSchedule(f, Rounds(f, n - 1));
      }
    }
  }

  /** Time moves on in every round if and only if all frequencies are positive; nothing in the program
      checks that they are. A round with a negative sleep raises, see below. */
  lemma TimeAdvancesExactly(f: Frequencies)
    ensures (forall n: nat :: Rounds(f, n).time < Rounds(f, n + 1).time) <==> Positive(f)
  {
    if Positive(f) {
      forall n: nat ensures Rounds(f, n).time < Rounds(f, n + 1).time {
        AlwaysOnSchedule(f, n);
        if f != map[] {
          RoundOnSchedule(f, Rounds(f, n));
        }
      }
    } else {
      var k :| k in f && f[k] <= 0;
      assert Rounds(f, 1).time == Least(f) <= 0;
      assert !(Rounds(f, 0).time < Rounds(f, 0 + 1).time);
    }
  }

  /** The sleep of a round would raise. */
  ghost predicate SleepRaises(s: State) {
    s.sleep != map[] && Least(s.sleep) < 0
  }

  lemma {:induction false} CountdownsStayPossible(f: Frequencies, n: nat)
    requires forall k :: k in f ==> f[k] >= 0
    ensures forall k :: k in Rounds(f, n).sleep ==> Rounds(f, n).sleep[k] >= 0
  {
    if n > 0 {
      CountdownsStayPossible(f, n - 1);
    }
  }

  /** No sleep raises if and only if no frequency is negative; otherwise the very first one does, and the
      rounds after it are none of the program. */
  lemma SleepNeverRaisesExactly(f: Frequencies)
    ensures (forall n: nat :: !SleepRaises(Rounds(f, n))) <==> forall k :: k in f ==> f[k] >= 0
    ensures (exists n: nat :: SleepRaises(Rounds(f, n))) ==> SleepRaises(Rounds(f, 0))
  {
    if forall k :: k in f ==> f[k] >= 0 {
      forall n: nat ensures !SleepRaises(Rounds(f, n)) {
        CountdownsStayPossible(f, n);
      }
    } else {
      var k :| k in f && f[k] < 0;
      var n: nat := 0;
      assert Rounds(f, n).sleep == f && Least(f) <= f[k];
      assert SleepRaises(Rounds(f, n));
    }
  }

  // ---------------------------------------------------------------------------
  // The naive ticker
  // ---------------------------------------------------------------------------

  /** What a loop that wakes every second and polls what is due would have done, empty ticks removed. */
  ghost function Ticks(f: Frequencies, t: nat): seq<Wake>
    requires Positive(f)
  {
    if t == 0 then []
    else Ticks(f, t - 1) + (if DueAt(f, t) == {} then [] else [Wake(t, DueAt(f, t))])
  }

  lemma {:induction false} QuietTicks(f: Frequencies, t: nat, t': nat)
    requires Positive(f) && t <= t'
    requires forall u: nat :: t < u <= t' ==> DueAt(f, u) == {}
    ensures Ticks(f, t') == Ticks(f, t)
  {
    if t < t' {
      QuietTicks(f, t, t' - 1);
    }
  }

  /** One round of the loop does what the ticker does in the same time. */
  lemma RoundRefinesTicks(f: Frequencies, s: State)
    requires Positive(f) && OnSchedule(f, s) && s.trace == Ticks(f, s.time)
    ensures Round(f, s).time >= 0 && Round(f, s).trace == Ticks(f, Round(f, s).time)
  {
    if f == map[] {
      assert s.sleep == map[] && DueAt(f, s.time + 1) == {};
    } else {
      RoundOnSchedule(f, s);
      forall t: nat | s.time < t < s.time + Least(s.sleep) {
        QuietNap(f, s, t);
      }
      QuietTicks(f, s.time, s.time + Least(s.sleep) - 1);
    }
  }

  /** The sleeping loop wakes at the same times and polls the same types as the ticker. */
  lemma {:induction false} RefinesTicker(f: Frequencies, n: nat)
    requires Positive(f)
    ensures Rounds(f, n).time >= 0
    ensures Rounds(f, n).trace == Ticks(f, Rounds(f, n).time)
  {
    if n > 0 {
      RefinesTicker(f, n - 1);
      AlwaysOnSchedule(f, n - 1);
      RoundRefinesTicks(f, Rounds(f, n - 1));
    }
  }

  ghost function TimesPolled(k: string, trace: seq<Wake>): nat {
    if trace == [] then 0
    else TimesPolled(k, trace[..|trace| - 1]) + (if k in trace[|trace| - 1].due then 1 else 0)
  }

  lemma {:induction false} TickerCounts(f: Frequencies, t: nat, k: string)
    requires Positive(f) && k in f
    ensures TimesPolled(k, Ticks(f, t)) == Quot(t, f[k])
  {
    if t > 0 {
      TickerCounts(f, t - 1, k);
      Advance(t - 1, 1, f[k]);
      assert k in DueAt(f, t) <==> Rem(t, f[k]) == 0;
      if DueAt(f, t) != {} {
        var all := Ticks(f, t);
        assert all[..|all| - 1] == Ticks(f, t - 1);
        assert all[|all| - 1].due == DueAt(f, t);
      } else {
        assert Ticks(f, t) == Ticks(f, t - 1);
      }
    }
  }

  /** The closed form: countdowns, poll counts and poll times as functions of the time alone. */
  lemma ClosedForm(f: Frequencies, n: nat, k: string)
    requires Positive(f) && k in f
    ensures var s := Rounds(f, n);
      && s.sleep[k] == f[k] - s.time % f[k]
      && TimesPolled(k, s.trace) == s.time / f[k]
  {
    AlwaysOnSchedule(f, n);
    RefinesTicker(f, n);
    var t := Rounds(f, n).time;
    TickerCounts(f, t, k);
    IsDivision(t, f[k]);
    assert f[k] > 0;
  }

  /** A type is polled at exactly the multiples of its frequency. */
  lemma {:induction false} PolledAtMultiples(f: Frequencies, n: nat, i: nat)
    requires Positive(f) && i < |Rounds(f, n).trace|
    ensures n > 0
    ensures var wake := Rounds(f, n).trace[i];
      && 0 < wake.time && wake.due != {}
      && forall k :: k in wake.due <==> k in f && wake.time % f[k] == 0
  {
    var s := Rounds(f, n - 1);
    if i < |s.trace| {
      PolledAtMultiples(f, n - 1, i);
    } else {
      AlwaysOnSchedule(f, n - 1);
      RoundOnSchedule(f, s);
      forall k | k in f {
        IsDivision(Round(f, s).time, f[k]);
      }
    }
  }

  // ---------------------------------------------------------------------------
  // Every due moment is a loop head
  // ---------------------------------------------------------------------------

  lemma {:induction false} TimeCoversRounds(f: Frequencies, n: nat)
    requires Positive(f)
    ensures Rounds(f, n).time >= n
  {
    if n > 0 {
      TimeCoversRounds(f, n - 1);
      TimeAdvancesExactly(f);
      assert Rounds(f, n - 1).time < Rounds(f, n - 1 + 1).time;
    }
  }

  lemma RoundWakes(f: Frequencies, n: nat)
    requires f != map[]
    ensures Rounds(f, n + 1).trace != []
    ensures var trace := Rounds(f, n + 1).trace;
      trace[..|trace| - 1] == Rounds(f, n).trace && trace[|trace| - 1].time == Rounds(f, n + 1).time
  {
    var k :| k in f;
    assert k in Rounds(f, n).sleep;
  }

  /** One wake-up in every round, at its end. */
  ghost function HeadTimes(f: Frequencies, n: nat): seq<int> {
    if n == 0 then [] else HeadTimes(f, n - 1) + [Rounds(f, n).time]
  }

  lemma {:induction false} HeadTime(f: Frequencies, n: nat, i: nat)
    requires i < n
    ensures |HeadTimes(f, n)| == n && HeadTimes(f, n)[i] == Rounds(f, i + 1).time
  {
    if n > 1 {
      HeadTime(f, n - 1, if i < n - 1 then i else 0);
    }
  }

  lemma {:induction false} WakesAreHeads(f: Frequencies, n: nat)
    requires f != map[]
    ensures |HeadTimes(f, n)| == |Rounds(f, n).trace|
    ensures forall i :: 0 <= i < |Rounds(f, n).trace| ==> HeadTimes(f, n)[i] == Rounds(f, n).trace[i].time
  {
    if n > 0 {
      WakesAreHeads(f, n - 1);
      RoundWakes(f, n - 1);
      var trace := Rounds(f, n).trace;
      assert trace == trace[..|trace| - 1] + [trace[|trace| - 1]];
      TimesAppend(HeadTimes(f, n - 1), Rounds(f, n - 1).trace, trace[|trace| - 1]);
    }
  }

  lemma TimesAppend(times: seq<int>, trace: seq<Wake>, wake: Wake)
    requires |times| == |trace| && forall i :: 0 <= i < |trace| ==> times[i] == trace[i].time
    ensures forall i :: 0 <= i < |trace + [wake]| ==> (times + [wake.time])[i] == (trace + [wake])[i].time
  {
  }

  lemma {:induction false} DueMomentTicks(f: Frequencies, end: nat, t: nat) returns (i: nat)
    requires Positive(f) && DueAt(f, t) != {} && 0 < t <= end
    ensures i < |Ticks(f, end)| && Ticks(f, end)[i].time == t
  {
    if t == end {
      i := |Ticks(f, end)| - 1;
    } else {
      i := DueMomentTicks(f, end - 1, t);
    }
  }

  /** A due moment is not slept through. */
  lemma DueMomentIsHead(f: Frequencies, t: nat) returns (n: nat)
    requires Positive(f) && f != map[] && DueAt(f, t) != {} && t > 0
    ensures Rounds(f, n).time == t
  {
    TimeCoversRounds(f, t);
    RefinesTicker(f, t);
    var i := DueMomentTicks(f, Rounds(f, t).time, t);
    WakesAreHeads(f, t);
    HeadTime(f, t, 0);
    HeadTime(f, t, i);
    n := i + 1;
  }

  /** At every common multiple of the frequencies, in particular at their least one, the loop is at its
      head and the dictionary has its initial contents again. */
  lemma ReturnsToStart(f: Frequencies, t: nat)
    requires Positive(f) && f != map[] && t > 0
    requires forall k :: k in f ==> t % f[k] == 0
    ensures exists n: nat :: Rounds(f, n).time == t && Rounds(f, n).sleep == f
  {
    var k :| k in f;
    forall j | j in f {
      IsDivision(t, f[j]);
    }
    assert k in DueAt(f, t);
    var n := DueMomentIsHead(f, t);
    BackAtStart(f, n);
  }

  /** Without polls the loop just sleeps, a second at a time. */
  lemma {:induction false} NothingToPoll(n: nat)
    ensures Rounds(map[], n) == State(n, map[], [])
  {
    if n > 0 {
      NothingToPoll(n - 1);
    }
  }

  lemma BackAtStart(f: Frequencies, n: nat)
    requires Positive(f) && Rounds(f, n).time >= 0
    requires forall k :: k in f ==> Rem(Rounds(f, n).time, f[k]) == 0
    ensures Rounds(f, n).sleep == f
  {
    AlwaysOnSchedule(f, n);
  }
}
