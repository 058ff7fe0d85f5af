/**
 What the built masters and servers are, said from the configuration file: every field of a master, which
 generated address it takes, every field of a server, and exactly when the program refuses a file.
 */
module FromConfiguration {
  import opened Wrappers
  import opened Topology
  import opened Answerable
  import opened AddressSupply
  import AddressChains

  // ---------------------------------------------------------------------------
  // Masters
  // ---------------------------------------------------------------------------

  /** Some poll names the type. */
  predicate Polled(polls: seq<Poll>, k: string) {
    exists q :: 0 <= q < |polls| && polls[q].dataType == k
  }

  /** This poll is the last that names its type. */
  predicate LastNamed(polls: seq<Poll>, q: nat) {
    q < |polls| && forall r :: q < r < |polls| ==> polls[r].dataType != polls[q].dataType
  }

  lemma {:induction false} PollTableKeys(polls: seq<Poll>, k: string)
    ensures k in PollTable(polls) <==> Polled(polls, k)
  {
    if polls != [] {
      var n := |polls| - 1;
      var front := polls[..n];
      PollTableKeys(front, k);
      if q :| 0 <= q < |front| && front[q].dataType == k {
        assert polls[q].dataType == k;
      }
      if q :| 0 <= q < n && polls[q].dataType == k {
        assert front[q].dataType == k;
      }
    }
  }

  lemma {:induction false} PollTableValue(polls: seq<Poll>, q: nat)
    requires LastNamed(polls, q)
    ensures polls[q].dataType in PollTable(polls) && PollTable(polls)[polls[q].dataType] == polls[q].frequency
  {
    var n := |polls| - 1;
    if q < n {
      assert polls[n].dataType != polls[q].dataType;
      assert LastNamed(polls[..n], q);
      PollTableValue(polls[..n], q);
    }
  }

  /** The dictionary has a key for each type named, with the frequency given last. */
  ghost predicate IsPollTable(table: map<string, int>, polls: seq<Poll>) {
    && (forall k :: k in table <==> Polled(polls, k))
    && (forall q: nat :: LastNamed(polls, q) ==>
          polls[q].dataType in table && table[polls[q].dataType] == polls[q].frequency)
  }

  lemma PollTableExactly(polls: seq<Poll>)
    ensures IsPollTable(PollTable(polls), polls)
  {
    forall k ensures k in PollTable(polls) <==> Polled(polls, k) {
      PollTableKeys(polls, k);
    }
    forall q: nat | LastNamed(polls, q)
      ensures polls[q].dataType in PollTable(polls) && PollTable(polls)[polls[q].dataType] == polls[q].frequency
    {
      PollTableValue(polls, q);
    }
  }

  /** The places of the masters that are built. */
  function BuiltPlaces(c: Config, ms: seq<MasterSpec>): (places: seq<nat>)
    ensures forall j :: 0 <= j < |places| ==> places[j] < |ms|
  {
    if ms == [] then []
    else
      var n := |ms| - 1;
      BuiltPlaces(c, ms[..n]) + (if ms[n].name.Some? && Need(c, ms[..n]) < |c.addresses| then [n] else [])
  }

  lemma {:induction false} BuiltPlacesExactly(c: Config, ms: seq<MasterSpec>)
    ensures forall i, j :: 0 <= i < j < |BuiltPlaces(c, ms)| ==> BuiltPlaces(c, ms)[i] < BuiltPlaces(c, ms)[j]
    ensures forall i: nat :: i in BuiltPlaces(c, ms) <==>
      i < |ms| && ms[i].name.Some? && Need(c, ms[..i]) < |c.addresses|
  {
    if ms != [] {
      var n := |ms| - 1;
      BuiltPlacesExactly(c, ms[..n]);
      assert forall i :: 0 <= i < n ==> ms[..n][i] == ms[i] && ms[..n][..i] == ms[..i];
    }
  }

  /** The master is what place `i` of the list says. */
  ghost predicate IsMasterOf(c: Config, ms: seq<MasterSpec>, i: nat, m: Master) {
    && i < |ms|
    && var spec := ms[i];
    && spec.name == Some(m.name)
    && m.outstations == spec.outstations
    && m.ip == (match spec.ip
                case Some(ip) => ip
                case None => if Need(c, ms[..i]) < |c.addresses| then c.addresses[Need(c, ms[..i])] else "")
    && (m.simulate <==> spec.simulate != Some(false))
    && IsPollTable(m.polls, spec.polls)
    && (forall n :: n in spec.outstations && n in c.outstations && c.outstations[n].ip.Some? ==>
          m.outstationAddr == c.outstations[n].ip.value)
    && (NeedsAddress(c, ms[..i], spec) && Need(c, ms[..i]) + 1 < |c.addresses| ==>
          m.outstationAddr == c.addresses[Need(c, ms[..i]) + 1])
  }

  lemma IsMasterOfLonger(c: Config, ms: seq<MasterSpec>, i: nat, m: Master)
    requires ms != [] && IsMasterOf(c, ms[..|ms| - 1], i, m)
    ensures IsMasterOf(c, ms, i, m)
  {
    assert ms[..|ms| - 1][..i] == ms[..i];
  }

  /** The fields of the master that one round appends. */
  lemma AppendedMaster(c: Config, p: Progress, m: MasterSpec)
    requires m.name.Some? && p.taken < |c.addresses| && AddMaster(c, p, m).Some?
    ensures Defined(c, m.outstations) && ChooseAddress(c, p, p.taken + 1, m.outstations).Some?
    ensures
      var masters := AddMaster(c, p, m).value.masters;
      && |masters| == |p.masters| + 1 && masters[..|p.masters|] == p.masters
      && var built := masters[|p.masters|];
      && built.name == m.name.value && built.outstations == m.outstations
      && built.ip == m.ip.GetOr(c.addresses[p.taken]) && built.simulate == m.simulate.GetOr(true)
      && built.polls == PollTable(m.polls)
      && built.outstationAddr == ChooseAddress(c, p, p.taken + 1, m.outstations).value.0
  {
  }

  lemma NewAddress(c: Config, p: Progress, names: seq<Name>, taken: nat)
    requires Defined(c, names) && !SomeAddressGiven(c, names) && ChooseAddress(c, p, taken, names).Some?
    requires forall n :: n in names ==> n !in p.connected
    ensures taken < |c.addresses| && ChooseAddress(c, p, taken, names).value.0 == c.addresses[taken]
  {
    assert Inherited(p, names) == {};
  }

  lemma AppendedIsMasterOf(c: Config, ms: seq<MasterSpec>, p: Progress)
    requires ms != [] && Steady(c, p)
    requires var front, m := ms[..|ms| - 1], ms[|ms| - 1];
      && p.taken == Need(c, front) && p.connected == Mentioned(front)
      && m.name.Some? && p.taken < |c.addresses| && AddMaster(c, p, m).Some?
    ensures
      var masters := AddMaster(c, p, ms[|ms| - 1]).value.masters;
      && |masters| == |p.masters| + 1 && masters[..|p.masters|] == p.masters
      && IsMasterOf(c, ms, |ms| - 1, masters[|p.masters|])
  {
    var front, m := ms[..|ms| - 1], ms[|ms| - 1];
    AppendedMaster(c, p, m);
    PollTableExactly(m.polls);
    forall n | n in m.outstations && c.outstations[n].ip.Some?
      ensures AddMaster(c, p, m).value.masters[|p.masters|].outstationAddr == c.outstations[n].ip.value
    {
      ChoiceRespects(c, p, p.taken + 1, m.outstations, n);
    }
    if NeedsAddress(c, front, m) {
      NewAddress(c, p, m.outstations, p.taken + 1);
    }
  }

  /** The masters of the pass, one for each place. */
  ghost predicate FromPlaces(c: Config, ms: seq<MasterSpec>, masters: seq<Master>) {
    && |masters| == |BuiltPlaces(c, ms)|
    && forall j :: 0 <= j < |masters| ==> IsMasterOf(c, ms, BuiltPlaces(c, ms)[j], masters[j])
  }

  lemma FromPlacesStep(c: Config, ms: seq<MasterSpec>, p: Progress)
    requires ms != [] && Steady(c, p) && Supplied(c, ms[..|ms| - 1], p)
    requires FromPlaces(c, ms[..|ms| - 1], p.masters) && AddMaster(c, p, ms[|ms| - 1]).Some?
    ensures FromPlaces(c, ms, AddMaster(c, p, ms[|ms| - 1]).value.masters)
  {
    var front, m := ms[..|ms| - 1], ms[|ms| - 1];
    forall j | 0 <= j < |p.masters| ensures IsMasterOf(c, ms, BuiltPlaces(c, front)[j], p.masters[j]) {
      IsMasterOfLonger(c, ms, BuiltPlaces(c, front)[j], p.masters[j]);
    }
    if m.name.Some? && p.taken < |c.addresses| {
      AppendedIsMasterOf(c, ms, p);
    } else {
      assert AddMaster(c, p, m).value == p;
    }
  }

  lemma {:induction false} PassFromPlaces(c: Config, ms: seq<MasterSpec>)
    requires AddMasters(c, ms).Some?
    ensures FromPlaces(c, ms, AddMasters(c, ms).value.masters)
  {
    if ms != [] {
      PassFromPlaces(c, ms[..|ms| - 1]);
      SuppliedPass(c, ms[..|ms| - 1]);
      AddMastersSteady(c, ms[..|ms| - 1]);
      FromPlacesStep(c, ms, AddMasters(c, ms[..|ms| - 1]).value);
    }
  }

  /** Of every configuration that is built: the masters are those of the listed places, in order, and each
      is in every field what its place says. */
  lemma MastersFromConfiguration(c: Config, o: Outcome)
    requires IsOutcome(c, o) && o.Built?
    ensures FromPlaces(c, c.masters, o.masters)
  {
    PassFromPlaces(c, c.masters);
  }

  // ---------------------------------------------------------------------------
  // Servers
  // ---------------------------------------------------------------------------

  /** The unit id in the file, by default 0. */
  predicate HasUnit(spec: OutstationSpec, u: int) {
    spec.unitId == Some(u) || (spec.unitId == None && u == 0)
  }

  /** The data count in the file, by default 10. */
  predicate HasCount(spec: OutstationSpec, n: nat) {
    spec.dataCount == Some(n) || (spec.dataCount == None && n == 10)
  }

  /** The port of a lone outstation, by default 502. */
  predicate IsPortOf(spec: OutstationSpec, port: int) {
    port == match spec.port case None => 502 case Some(p) => if p == 0 then 502 else p
  }

  /** The units of a server: one for each name, with its data count. */
  ghost predicate HasUnitsOf(c: Config, s: Server) {
    && (forall n :: n in s.unitIds <==> n in s.names)
    && (forall n :: n in s.names ==>
          && n in c.outstations && n in s.unitIds
          && HasUnit(c.outstations[n], s.unitIds[n]) && s.unitIds[n] <= 247
          && s.unitIds[n] in s.datastore && HasCount(c.outstations[n], s.datastore[s.unitIds[n]]))
    && (forall u :: u in s.datastore ==> exists n :: n in s.unitIds && s.unitIds[n] == u)
    && (forall m, n :: m in s.unitIds && n in s.unitIds && m != n ==> s.unitIds[m] != s.unitIds[n])
  }

  /** Every field of a server, from the file. */
  ghost predicate IsServerOf(c: Config, s: Server) {
    && s.names != [] && HasUnitsOf(c, s)
    && (forall n :: n in s.names ==> n in c.outstations && (s.simulate <==> c.outstations[n].simulate != Some(false)))
    && (forall m, n :: m in s.names && n in s.names ==> c.outstations[m].port == c.outstations[n].port)
    && (|s.names| > 1 ==> s.port == 502)
    && (|s.names| == 1 ==> IsPortOf(c.outstations[s.names[0]], s.port))
    && (c.virtualInterface || exists n :: n in s.names && c.outstations[n].ip.Some?)
  }

  lemma UnitsFromConfiguration(c: Config, a: Address, names: seq<Name>)
    requires Defined(c, names) && names != [] && GroupAccepted(c, names)
    ensures HasUnitsOf(c, ServerOf(c, a, names))
  {
    var s := ServerOf(c, a, names);
    forall n | n in names
      ensures s.unitIds[n] in s.datastore && HasCount(c.outstations[n], s.datastore[s.unitIds[n]])
    {
      DatastoreCounts(c, names, n);
    }
    forall u | u in s.datastore ensures exists n :: n in s.unitIds && s.unitIds[n] == u {
      DatastoreKeys(c, names, u);
      var n :| n in names && c.outstations[n].Unit() == u;
      assert n in s.unitIds;
    }
  }

  lemma FieldsFromConfiguration(c: Config, a: Address, names: seq<Name>)
    requires Defined(c, names) && names != [] && GroupAccepted(c, names)
    ensures IsServerOf(c, ServerOf(c, a, names))
  {
    assert HasUnitsOf(c, ServerOf(c, a, names)) by {
      UnitsFromConfiguration(c, a, names);
    }
    assert names[0] in names;
  }

  /** What a master knows about the units it polls and the port it dials. */
  ghost predicate KnowsUnits(c: Config, names: seq<Name>, info: map<int, nat>, port: int) {
    && Defined(c, names)
    && (forall n, u :: n in names && HasUnit(c.outstations[n], u) ==> u in info && HasCount(c.outstations[n], info[u]))
    && (forall u :: u in info ==> exists n :: n in names && HasUnit(c.outstations[n], u))
    && (if |names| == 1 then IsPortOf(c.outstations[names[0]], port) else port == 502)
  }

  lemma DatastoreKnowsUnits(c: Config, names: seq<Name>)
    requires Defined(c, names)
    requires forall m, n :: m in names && n in names && m != n ==> c.outstations[m].Unit() != c.outstations[n].Unit()
    ensures KnowsUnits(c, names, Datastore(c, names), PortOf(c, names))
  {
    var info := Datastore(c, names);
    forall n, u | n in names && HasUnit(c.outstations[n], u) ensures u in info && HasCount(c.outstations[n], info[u]) {
      DatastoreCounts(c, names, n);
    }
    forall u | u in info ensures exists n :: n in names && HasUnit(c.outstations[n], u) {
      DatastoreKeys(c, names, u);
      var n :| n in names && c.outstations[n].Unit() == u;
      assert HasUnit(c.outstations[n], u);
    }
  }

  /** The outstations of a master have different units, as they are together on one server. */
  lemma UnitsDiffer(c: Config, o: Outcome, m: Master, x: Name, y: Name)
    requires IsOutcome(c, o) && o.Built? && m in o.masters && x in m.outstations && y in m.outstations && x != y
    ensures x in c.outstations && y in c.outstations && c.outstations[x].Unit() != c.outstations[y].Unit()
  {
    var s := MasterMeetsServer(c, o, m, x);
  }

  lemma MasterKnowsUnits(c: Config, o: Outcome, m: Master)
    requires IsOutcome(c, o) && o.Built? && m in o.masters
    ensures KnowsUnits(c, m.outstations, m.info, m.port)
  {
    assert MasterFits(c, AddMasters(c, c.masters).value, m) by {
      AddMastersSteady(c, c.masters);
    }
    forall x, y | x in m.outstations && y in m.outstations && x != y
      ensures c.outstations[x].Unit() != c.outstations[y].Unit()
    {
      UnitsDiffer(c, o, m, x, y);
    }
    DatastoreKnowsUnits(c, m.outstations);
  }

  /** Of every configuration that is built: each server is in every field what the file says. */
  lemma ServersFromConfiguration(c: Config, o: Outcome, s: Server)
    requires IsOutcome(c, o) && o.Built? && s in o.servers
    ensures IsServerOf(c, s)
  {
    assert ServerFits(c, AddMasters(c, c.masters).value, s);
    FieldsFromConfiguration(c, s.ip, s.names);
  }

  // ---------------------------------------------------------------------------
  // Refusals
  // ---------------------------------------------------------------------------

  /** Two members have one unit id, or a unit id is too large. */
  ghost predicate UnitsRefused(c: Config, members: set<Name>)
    requires members <= c.outstations.Keys
  {
    || (exists m, n, u :: && m in members && n in members && m != n
                          && HasUnit(c.outstations[m], u) && HasUnit(c.outstations[n], u))
    || (exists n, u :: n in members && HasUnit(c.outstations[n], u) && u > 247)
  }

  /** Two members have different ports, or one is simulated and one is not. */
  ghost predicate PortsRefused(c: Config, members: set<Name>)
    requires members <= c.outstations.Keys
  {
    || (exists m, n :: m in members && n in members && c.outstations[m].port != c.outstations[n].port)
    || (exists m, n :: && m in members && n in members
                       && c.outstations[m].simulate == Some(false) && c.outstations[n].simulate != Some(false))
  }

  /** Why a group of outstations at one address is refused. */
  ghost predicate GroupRefused(c: Config, members: set<Name>)
    requires members <= c.outstations.Keys
  {
    || PortsRefused(c, members) || UnitsRefused(c, members)
    || (!c.virtualInterface && forall n :: n in members ==> c.outstations[n].ip == None)
  }

  lemma UnitsRefusedExactly(c: Config, names: seq<Name>, members: set<Name>)
    requires Defined(c, names) && (forall n :: n in names <==> n in members) && members <= c.outstations.Keys
    ensures ValidUnits(c, names) <==> !UnitsRefused(c, members)
  {
    forall n, u | n in members ensures HasUnit(c.outstations[n], u) <==> u == c.outstations[n].Unit() {
    }
    forall n | n in members ensures HasUnit(c.outstations[n], c.outstations[n].Unit()) {
    }
  }

  lemma PortsRefusedExactly(c: Config, names: seq<Name>, members: set<Name>)
    requires Defined(c, names) && (forall n :: n in names <==> n in members) && members <= c.outstations.Keys
    ensures SamePorts(c, names) && SameSimulation(c, names) <==> !PortsRefused(c, members)
  {
  }

  lemma GroupRefusedExactly(c: Config, names: seq<Name>, members: set<Name>)
    requires Defined(c, names) && (forall n :: n in names <==> n in members) && members <= c.outstations.Keys
    ensures GroupAccepted(c, names) <==> !GroupRefused(c, members)
  {
    UnitsRefusedExactly(c, names, members);
    PortsRefusedExactly(c, names, members);
    assert SomeAddressGiven(c, names) <==> !forall n :: n in members ==> c.outstations[n].ip == None;
  }

  lemma {:induction false} SomeList(members: set<Name>) returns (names: seq<Name>)
    ensures Lists(names, members)
    decreases |members|
  {
    if n :| n in members {
      var rest := SomeList(members - {n});
      names := rest + [n];
    } else {
      names := [];
    }
  }

  lemma AcceptedExactly(c: Config, p: Progress, a: Address)
    ensures AddressAccepted(c, p, a) <==> !GroupRefused(c, MembersAt(c, p, a))
  {
    var members := MembersAt(c, p, a);
    var listed := SomeList(members);
    GroupRefusedExactly(c, listed, members);
    forall names | Lists(names, members)
      ensures Defined(c, names) && (GroupAccepted(c, names) <==> !GroupRefused(c, members))
    {
      GroupRefusedExactly(c, names, members);
    }
  }

  /** Why a master ends the program, the masters before it having led to `p`. */
  ghost predicate MasterRefused(c: Config, p: Progress, m: MasterSpec) {
    && m.name.Some? && p.taken < |c.addresses|
    && (|| (m.ip.None? && !c.virtualInterface)
        || (exists n :: n in m.outstations && n !in c.outstations)
        || (exists x, y :: && x in m.outstations && x in c.outstations && y in m.outstations && y in c.outstations
                           && c.outstations[x].port != c.outstations[y].port)
        || (exists x, y :: && x in m.outstations && x in c.outstations && y in m.outstations && y in c.outstations
                           && c.outstations[x].ip.Some? && c.outstations[y].ip != c.outstations[x].ip)
        || ((forall n :: n in m.outstations && n in c.outstations ==> c.outstations[n].ip.None?)
            && MayNotChoose(c, p, m.outstations)))
  }

  /** The outstations have inherited different addresses, or have none and none is left. */
  ghost predicate MayNotChoose(c: Config, p: Progress, names: seq<Name>) {
    || (exists x, y :: && x in names && x in p.connected && x in p.given
                       && y in names && y in p.connected && y in p.given
                       && p.given[x] != p.given[y])
    || (p.taken + 1 >= |c.addresses| && forall n :: n in names ==> n !in p.connected)
  }

  lemma ConfiguredChoice(c: Config, p: Progress, names: seq<Name>, taken: nat)
    requires Defined(c, names) && SomeAddressGiven(c, names)
    ensures ChooseAddress(c, p, taken, names).None? <==>
      exists x, y :: x in names && y in names && c.outstations[x].ip.Some? && c.outstations[y].ip != c.outstations[x].ip
  {
    var n :| n in names && c.outstations[n].ip.Some?;
    assert names[0] in names;
    if forall m :: m in names ==> c.outstations[m].ip == c.outstations[names[0]].ip {
      assert c.outstations[n].ip == c.outstations[names[0]].ip;
    } else {
      var m :| m in names && c.outstations[m].ip != c.outstations[names[0]].ip;
      assert c.outstations[n].ip != c.outstations[m].ip || c.outstations[n].ip != c.outstations[names[0]].ip;
    }
  }

  lemma GeneratedChoice(c: Config, p: Progress, names: seq<Name>)
    requires Steady(c, p) && Defined(c, names) && !SomeAddressGiven(c, names)
    ensures ChooseAddress(c, p, p.taken + 1, names).None? <==> MayNotChoose(c, p, names)
  {
    var inherited := Inherited(p, names);
    AddressChains.InheritedElements(c, p, names);
    AddressChains.MoreThanOne(inherited);
    SteadyNeverMissesKeys(c, p, names);
    assert |inherited| == 0 <==> inherited == {};
    if x, y :| && x in names && x in p.connected && x in p.given && y in names && y in p.connected && y in p.given
               && p.given[x] != p.given[y] {
      assert p.given[x] in inherited && p.given[y] in inherited;
    }
    if a, b :| a in inherited && b in inherited && a != b {
      var x :| x in names && x in p.connected && x in p.given && p.given[x] == a;
      var y :| y in names && y in p.connected && y in p.given && p.given[y] == b;
      assert p.given[x] != p.given[y];
    }
  }

  lemma MasterRefusedExactly(c: Config, p: Progress, m: MasterSpec)
    requires Steady(c, p)
    ensures AddMaster(c, p, m).None? <==> MasterRefused(c, p, m)
  {
    if m.name.Some? && p.taken < |c.addresses| && Defined(c, m.outstations) {
      if SomeAddressGiven(c, m.outstations) {
        ConfiguredChoice(c, p, m.outstations, p.taken + 1);
      } else {
        GeneratedChoice(c, p, m.outstations);
      }
    }
  }

  /** The masters before place `i` have passed, and this one is refused. */
  ghost predicate RefusedAt(c: Config, ms: seq<MasterSpec>, i: int) {
    0 <= i < |ms| && AddMasters(c, ms[..i]).Some? && MasterRefused(c, AddMasters(c, ms[..i]).value, ms[i])
  }

  lemma RefusedAtShorter(c: Config, ms: seq<MasterSpec>, n: nat, i: int)
    requires n <= |ms| && i < n
    ensures RefusedAt(c, ms[..n], i) <==> RefusedAt(c, ms, i)
  {
    if 0 <= i {
      assert ms[..n][..i] == ms[..i];
    }
  }

  lemma RefusedLast(c: Config, ms: seq<MasterSpec>)
    requires ms != [] && AddMasters(c, ms[..|ms| - 1]).Some?
    ensures AddMasters(c, ms).None? <==> RefusedAt(c, ms, |ms| - 1)
  {
    AddMastersSteady(c, ms[..|ms| - 1]);
    MasterRefusedExactly(c, AddMasters(c, ms[..|ms| - 1]).value, ms[|ms| - 1]);
  }

  /** The first pass ends the program exactly at the first master that is refused. */
  lemma {:induction false} PassRefusedExactly(c: Config, ms: seq<MasterSpec>)
    ensures AddMasters(c, ms).None? <==> exists i :: RefusedAt(c, ms, i)
  {
    if ms != [] {
      var n := |ms| - 1;
      PassRefusedExactly(c, ms[..n]);
      if AddMasters(c, ms[..n]).Some? {
        RefusedLast(c, ms);
        forall i ensures RefusedAt(c, ms, i) ==> i == n {
          if i < n {
            RefusedAtShorter(c, ms, n, i);
          }
        }
      } else {
        var i :| RefusedAt(c, ms[..n], i);
        RefusedAtShorter(c, ms, n, i);
      }
    }
  }

  /** Built are exactly the configurations of which no master and no group of outstations is refused. */
  lemma BuiltExactly(c: Config, o: Outcome)
    requires IsOutcome(c, o)
    ensures o.Built? <==>
      && AddMasters(c, c.masters).Some?
      && forall a :: MembersAt(c, AddMasters(c, c.masters).value, a) != {} ==>
           !GroupRefused(c, MembersAt(c, AddMasters(c, c.masters).value, a))
  {
    BuiltIfAndOnlyIfAcceptable(c, o);
    if AddMasters(c, c.masters).Some? {
      forall a {
        AcceptedExactly(c, AddMasters(c, c.masters).value, a);
      }
    }
  }
}
