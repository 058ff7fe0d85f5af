/**
 The topology builder of the Modbus generator (modbusgenerator/cfg_json_parser.py): from the parsed
 configuration file to the masters and the servers that the application starts.

 Addresses generated from the CIDR notation are an arbitrary list, taken from the front. A file
 without "CIDR Notation" is the empty list: the attribute error of the missing generator and the exit
 of an exhausted one are swallowed by the same bare `except`.
 */
module Topology {
  import opened Wrappers

  type Name = string
  type Address = string

  datatype OutstationSpec = OutstationSpec(
    ip: Option<Address>, unitId: Option<int>, dataCount: Option<nat>, simulate: Option<bool>, port: Option<int>)
  {
    function Unit(): int { unitId.GetOr(0) }
    function Count(): nat { dataCount.GetOr(10) }
    function Simulated(): bool { simulate.GetOr(true) }
  }

  datatype Poll = Poll(dataType: string, frequency: int)

  datatype MasterSpec = MasterSpec(
    name: Option<Name>, ip: Option<Address>, outstations: seq<Name>, polls: seq<Poll>, simulate: Option<bool>)

  datatype Config = Config(
    virtualInterface: bool, addresses: seq<Address>, masters: seq<MasterSpec>, outstations: map<Name, OutstationSpec>)

  datatype Master = Master(
    name: Name, ip: Address, outstations: seq<Name>, outstationAddr: Address,
    polls: map<string, int>, simulate: bool, info: map<int, nat>, port: int)

  datatype Server = Server(
    names: seq<Name>, ip: Address, port: int, simulate: bool, datastore: map<int, nat>, unitIds: map<Name, int>)

  const DEFAULT_PORT := 502
  const MAX_UNIT := 247

  // ---------------------------------------------------------------------------
  // The dictionary helpers
  // ---------------------------------------------------------------------------

  predicate Defined(c: Config, names: seq<Name>) {
    forall n :: n in names ==> n in c.outstations
  }

  /** Unit id to data count; a later name with the same unit id replaces an earlier one. */
  function Datastore(c: Config, names: seq<Name>): map<int, nat>
    requires Defined(c, names)
  {
    if names == [] then map[]
    else
      var last := c.outstations[names[|names| - 1]];
      Datastore(c, names[..|names| - 1])[last.Unit() := last.Count()]
  }

  function UnitIds(c: Config, names: seq<Name>): map<Name, int>
    requires Defined(c, names)
  {
    map n | n in names :: c.outstations[n].Unit()
  }

  function PollTable(polls: seq<Poll>): map<string, int> {
    if polls == [] then map[]
    else
      var last := polls[|polls| - 1];
      PollTable(polls[..|polls| - 1])[last.dataType := last.frequency]
  }

  predicate SamePorts(c: Config, names: seq<Name>)
    requires Defined(c, names)
  {
    forall m, n :: m in names && n in names ==> c.outstations[m].port == c.outstations[n].port
  }

  /** A configured port counts only for a lone outstation; 0 and absence mean the default. */
  function PortOf(c: Config, names: seq<Name>): int
    requires Defined(c, names)
  {
    if |names| == 1 && c.outstations[names[0]].port.Some? && c.outstations[names[0]].port.value != 0
    then c.outstations[names[0]].port.value
    else DEFAULT_PORT
  }

  predicate SameSimulation(c: Config, names: seq<Name>)
    requires Defined(c, names)
  {
    forall m, n :: m in names && n in names ==> c.outstations[m].Simulated() == c.outstations[n].Simulated()
  }

  predicate ValidUnits(c: Config, names: seq<Name>)
    requires Defined(c, names)
  {
    && (forall m, n :: m in names && n in names && m != n ==> c.outstations[m].Unit() != c.outstations[n].Unit())
    && (forall n :: n in names ==> c.outstations[n].Unit() <= MAX_UNIT)
  }

  predicate SomeAddressGiven(c: Config, names: seq<Name>)
    requires Defined(c, names)
  {
    exists n :: n in names && c.outstations[n].ip.Some?
  }

  // ---------------------------------------------------------------------------
  // First pass: masters, and the addresses of the outstations they connect to
  // ---------------------------------------------------------------------------

  /** `taken` addresses have been generated, `given` holds those given to outstations and
      `connected` the outstations of the masters so far. */
  datatype Progress = Progress(
    taken: nat, given: map<Name, Address>, connected: set<Name>, masters: seq<Master>)

  const NOTHING := Progress(0, map[], {}, [])

  /** Addresses already given to outstations of this master. */
  function Inherited(p: Progress, names: seq<Name>): set<Address> {
    set n | n in names && n in p.connected && n in p.given :: p.given[n]
  }

  /** The lookup of an inherited address would raise. */
  predicate MissingKey(p: Progress, names: seq<Name>) {
    exists n :: n in names && n in p.connected && n !in p.given
  }

  /** The outstation address of a master and how many addresses have then been taken; `None` is an exit. */
  ghost function ChooseAddress(c: Config, p: Progress, taken: nat, names: seq<Name>): Option<(Address, nat)>
    requires Defined(c, names)
  {
    if SomeAddressGiven(c, names) then
      if forall n :: n in names ==> c.outstations[n].ip == c.outstations[names[0]].ip
      then (if c.outstations[names[0]].ip.Some? then Some((c.outstations[names[0]].ip.value, taken)) else None)
      else None
    else
      var inherited := Inherited(p, names);
      if MissingKey(p, names) then None
      else if |inherited| > 1 then None
      else if |inherited| == 1 then (var a :| a in inherited; Some((a, taken)))
      else if taken < |c.addresses| then Some((c.addresses[taken], taken + 1))
      else None
  }

  /** One round of the loop over "Master Nodes"; `None` is an exit or an uncaught exception. */
  ghost function AddMaster(c: Config, p: Progress, m: MasterSpec): Option<Progress> {
    if m.name.None? || p.taken >= |c.addresses| then Some(p)
    else if m.ip.None? && !c.virtualInterface then None
    else if !Defined(c, m.outstations) then None
    else
      match ChooseAddress(c, p, p.taken + 1, m.outstations)
      case None => None
      case Some((address, taken)) =>
        if !SamePorts(c, m.outstations) then None
        else
          var given := if SomeAddressGiven(c, m.outstations) then p.given
                          else p.given + map n | n in m.outstations :: address;
          var master := Master(m.name.value, m.ip.GetOr(c.addresses[p.taken]), m.outstations, address,
                               PollTable(m.polls), m.simulate.GetOr(true),
                               Datastore(c, m.outstations), PortOf(c, m.outstations));
          Some(Progress(taken, given, p.connected + (set n | n in m.outstations), p.masters + [master]))
  }

  ghost function AddMasters(c: Config, ms: seq<MasterSpec>): Option<Progress> {
    if ms == [] then Some(NOTHING)
    else
      match AddMasters(c, ms[..|ms| - 1])
      case None => None
      case Some(p) => AddMaster(c, p, ms[|ms| - 1])
  }

  /** The address at which an outstation is reached. */
  function AddressOf(c: Config, p: Progress, n: Name): Option<Address>
    requires n in c.outstations
  {
    if c.outstations[n].ip.Some? then c.outstations[n].ip
    else if n in p.given then Some(p.given[n])
    else None
  }

  // ---------------------------------------------------------------------------
  // Second pass: one server for each address
  // ---------------------------------------------------------------------------

  /** The connected outstations at one address. */
  ghost function MembersAt(c: Config, p: Progress, a: Address): set<Name> {
    set n | n in p.connected && n in c.outstations && AddressOf(c, p, n) == Some(a)
  }

  /** `names` lists `members`, each once, in whatever order the set was walked. */
  ghost predicate Lists(names: seq<Name>, members: set<Name>) {
    && (forall n :: n in names <==> n in members)
    && |names| == |members|
  }

  predicate GroupAccepted(c: Config, names: seq<Name>)
    requires Defined(c, names)
  {
    && SamePorts(c, names)
    && SameSimulation(c, names)
    && ValidUnits(c, names)
    && (SomeAddressGiven(c, names) || c.virtualInterface)
  }

  function ServerOf(c: Config, a: Address, names: seq<Name>): Server
    requires Defined(c, names) && names != []
  {
    Server(names, a, PortOf(c, names), c.outstations[names[0]].Simulated(), Datastore(c, names), UnitIds(c, names))
  }

  datatype Outcome = Exited | Built(masters: seq<Master>, servers: seq<Server>)

  /** The list of the members at `a` passes all checks, in whatever order it was made. */
  ghost predicate AddressAccepted(c: Config, p: Progress, a: Address) {
    forall names :: Lists(names, MembersAt(c, p, a)) ==> Defined(c, names) && GroupAccepted(c, names)
  }

  ghost predicate Acceptable(c: Config) {
    match AddMasters(c, c.masters)
    case None => false
    case Some(p) => forall a :: MembersAt(c, p, a) != {} ==> AddressAccepted(c, p, a)
  }

  ghost predicate ServerFits(c: Config, p: Progress, s: Server) {
    && s.names != []
    && Lists(s.names, MembersAt(c, p, s.ip))
    && Defined(c, s.names)
    && GroupAccepted(c, s.names)
    && s == ServerOf(c, s.ip, s.names)
  }

  ghost predicate OnePerAddress(servers: seq<Server>) {
    forall i, j :: 0 <= i < j < |servers| ==> servers[i].ip != servers[j].ip
  }

  ghost predicate ServedBySome(n: Name, servers: seq<Server>) {
    exists s :: s in servers && n in s.names
  }

  /** What `process_nodes` may produce: one fitting server for each address in use. */
  ghost predicate IsOutcome(c: Config, o: Outcome) {
    match o
    case Exited => !Acceptable(c)
    case Built(masters, servers) =>
      && AddMasters(c, c.masters).Some?
      && var p := AddMasters(c, c.masters).value;
      && masters == p.masters
      && (forall s :: s in servers ==> ServerFits(c, p, s))
      && OnePerAddress(servers)
      && (forall n :: n in p.connected ==> ServedBySome(n, servers))
  }

  // ---------------------------------------------------------------------------
  // The parser object
  // ---------------------------------------------------------------------------

  lemma TheOnlyElement<T>(xs: set<T>, x: T, y: T)
    requires |xs| == 1 && x in xs && y in xs
    ensures x == y
  {
    assert |xs - {x}| == 0;
  }

  class JsonParser {
    const config: Config
    var masters: seq<Master>
    var outstations: seq<Server>

    constructor (config: Config)
      ensures this.config == config
    {
      this.config := config;
      masters, outstations := [], [];
    }

    /** The address under which a master finds all its outstations. */
    method FindAddress(p: Progress, taken: nat, names: seq<Name>) returns (r: Option<(Address, nat)>)
      requires Defined(config, names)
      ensures r == ChooseAddress(config, p, taken, names)
    {
      if n :| n in names && config.outstations[n].ip.Some? {
        if forall n :: n in names ==> config.outstations[n].ip == config.outstations[names[0]].ip {
          return Some((config.outstations[names[0]].ip.value, taken));
        }
        return None;
      }
      if MissingKey(p, names) {
        return None;
      }
      var inherited := Inherited(p, names);
      if |inherited| > 1 {
        return None;
      } else if |inherited| == 1 {
        var a :| a in inherited;
        forall b | b in inherited {
          TheOnlyElement(inherited, a, b);
        }
        return Some((a, taken));
      } else if taken < |config.addresses| {
        return Some((config.addresses[taken], taken + 1));
      }
      return None;
    }

    /** The loop over "Master Nodes". */
    method ConnectMasters() returns (r: Option<Progress>)
      ensures r == AddMasters(config, config.masters)
    {
      var p := NOTHING;
      assert config.masters[..|config.masters|] == config.masters;
      for i := 0 to |config.masters|
        invariant AddMasters(config, config.masters[..i]) == Some(p)
      {
        var m := config.masters[i];
        assert config.masters[..i + 1][..i] == config.masters[..i];
        assert AddMasters(config, config.masters[..i + 1]) == AddMaster(config, p, m);
        if m.name.None? || p.taken >= |config.addresses| {
          continue;
        }
        if (m.ip.None? && !config.virtualInterface) || !Defined(config, m.outstations) {
          NeverRecovers(config, config.masters, i + 1);
          return None;
        }
        var choice := FindAddress(p, p.taken + 1, m.outstations);
        if choice.None? || !SamePorts(config, m.outstations) {
          NeverRecovers(config, config.masters, i + 1);
          return None;
        }
        var (address, taken) := choice.value;
        var given := p.given;
        if !SomeAddressGiven(config, m.outstations) {
          given := given + map n | n in m.outstations :: address;
        }
        var master := Master(m.name.value, m.ip.GetOr(config.addresses[p.taken]), m.outstations, address,
                             PollTable(m.polls), m.simulate.GetOr(true),
                             Datastore(config, m.outstations), PortOf(config, m.outstations));
        p := Progress(taken, given, p.connected + (set n | n in m.outstations), p.masters + [master]);
      }
      return Some(p);
    }

    /** Collect the connected outstations by address, walking the set in any order. */
    method GroupByAddress(p: Progress) returns (groups: map<Address, seq<Name>>)
      requires forall n :: n in p.connected ==> n in config.outstations && AddressOf(config, p, n).Some?
      ensures Grouped(config, p, groups)
    {
      groups := map[];
      var rest := p.connected;
      assert p.connected - rest == {};
      while rest != {}
        invariant rest <= p.connected
        invariant Grouped(config, p.(connected := p.connected - rest), groups)
      {
        var n :| n in rest;
        var a := AddressOf(config, p, n).value;
        GroupStep(config, p.(connected := p.connected - rest), groups, n, a);
        assert p.connected - rest + {n} == p.connected - (rest - {n});
        groups := groups[a := if a in groups then groups[a] + [n] else [n]];
        rest := rest - {n};
      }
      assert p.connected - rest == p.connected;
    }

    /** One server for each group, walking the dictionary in any order; `None` is an exit. */
    method BuildServers(p: Progress, groups: map<Address, seq<Name>>) returns (r: Option<seq<Server>>)
      requires forall a :: a in groups ==> Defined(config, groups[a]) && groups[a] != []
      ensures r.Some? ==> Covers(r.value, groups.Keys)
      ensures r.Some? ==> forall s :: s in r.value ==>
        s.ip in groups && GroupAccepted(config, groups[s.ip]) && s == ServerOf(config, s.ip, groups[s.ip])
      ensures r.None? ==> exists a :: a in groups && !GroupAccepted(config, groups[a])
    {
      var servers: seq<Server> := [];
      var rest := groups.Keys;
      while rest != {}
        invariant rest <= groups.Keys
        invariant Covers(servers, groups.Keys - rest)
        invariant forall s :: s in servers ==>
          s.ip in groups && GroupAccepted(config, groups[s.ip]) && s == ServerOf(config, s.ip, groups[s.ip])
      {
        var a :| a in rest;
        if !GroupAccepted(config, groups[a]) {
          return None;
        }
        CoversStep(servers, groups.Keys - rest, ServerOf(config, a, groups[a]));
        assert groups.Keys - rest + {a} == groups.Keys - (rest - {a});
        servers := servers + [ServerOf(config, a, groups[a])];
        rest := rest - {a};
      }
      assert groups.Keys - rest == groups.Keys;
      return Some(servers);
    }

    /** The whole of `process_nodes`; false is an exit. */
    method ProcessNodes() returns (ok: bool)
      modifies this
      ensures IsOutcome(config, if ok then Built(masters, outstations) else Exited)
    {
      var progress := ConnectMasters();
      if progress.None? {
        return false;
      }
      var p := progress.value;
      ConnectedAreReached(config, config.masters);
      var groups := GroupByAddress(p);
      GroupsAreDefined(config, p, groups);
      var servers := BuildServers(p, groups);
      if servers.None? {
        RefusedGroup(config, p, groups);
        return false;
      }
      forall n | n in p.connected {
        EverybodyIsServed(config, p, groups, servers.value, n);
      }
      masters, outstations := p.masters, servers.value;
      return true;
    }
  }

  lemma GroupsAreDefined(c: Config, p: Progress, groups: map<Address, seq<Name>>)
    requires forall n :: n in p.connected ==> n in c.outstations
    requires Grouped(c, p, groups)
    ensures forall a :: a in groups ==> Defined(c, groups[a]) && groups[a] != []
  {
    forall a | a in groups ensures Defined(c, groups[a]) && groups[a] != [] {
      assert MembersAt(c, p, a) != {} && Lists(groups[a], MembersAt(c, p, a));
    }
  }

  lemma RefusedGroup(c: Config, p: Progress, groups: map<Address, seq<Name>>)
    requires AddMasters(c, c.masters) == Some(p) && Grouped(c, p, groups)
    requires exists a :: a in groups && Defined(c, groups[a]) && !GroupAccepted(c, groups[a])
    ensures !Acceptable(c)
  {
    var a :| a in groups && Defined(c, groups[a]) && !GroupAccepted(c, groups[a]);
    assert Lists(groups[a], MembersAt(c, p, a)) && MembersAt(c, p, a) != {};
    assert !AddressAccepted(c, p, a);
  }

  ghost predicate Grouped(c: Config, p: Progress, groups: map<Address, seq<Name>>) {
    && (forall a :: a in groups <==> MembersAt(c, p, a) != {})
    && (forall a :: a in groups ==> Lists(groups[a], MembersAt(c, p, a)))
  }

  lemma MembersStep(c: Config, p: Progress, n: Name, a: Address, b: Address)
    requires n in c.outstations && AddressOf(c, p, n) == Some(a)
    ensures MembersAt(c, p.(connected := p.connected + {n}), b)
         == if b == a then MembersAt(c, p, b) + {n} else MembersAt(c, p, b)
  {
  }

  lemma ListsAppend(names: seq<Name>, members: set<Name>, n: Name)
    requires Lists(names, members) && n !in members
    ensures Lists(names + [n], members + {n})
  {
  }

  lemma GroupStep(c: Config, p: Progress, groups: map<Address, seq<Name>>, n: Name, a: Address)
    requires Grouped(c, p, groups)
    requires n !in p.connected && n in c.outstations && AddressOf(c, p, n) == Some(a)
    ensures Grouped(c, p.(connected := p.connected + {n}),
                    groups[a := if a in groups then groups[a] + [n] else [n]])
  {
    var p' := p.(connected := p.connected + {n});
    var groups' := groups[a := if a in groups then groups[a] + [n] else [n]];
    forall b ensures b in groups' <==> MembersAt(c, p', b) != {} {
      MembersStep(c, p, n, a, b);
    }
    forall b | b in groups' ensures Lists(groups'[b], MembersAt(c, p', b)) {
      MembersStep(c, p, n, a, b);
      if b == a {
        var names := if a in groups then groups[a] else [];
        ListsAppend(names, MembersAt(c, p, a), n);
        assert groups'[a] == names + [n];
      }
    }
  }

  /** The servers are those of the addresses in `done`, one each. */
  ghost predicate Covers(servers: seq<Server>, done: set<Address>) {
    && OnePerAddress(servers)
    && (forall s :: s in servers ==> s.ip in done)
    && (forall a :: a in done ==> exists s :: s in servers && s.ip == a)
  }

  lemma CoversStep(servers: seq<Server>, done: set<Address>, s: Server)
    requires Covers(servers, done) && s.ip !in done
    ensures Covers(servers + [s], done + {s.ip})
  {
    assert forall x :: x in servers ==> x in servers + [s];
    assert s in servers + [s];
  }

  lemma EverybodyIsServed(c: Config, p: Progress, groups: map<Address, seq<Name>>, servers: seq<Server>, n: Name)
    requires n in p.connected && n in c.outstations && AddressOf(c, p, n).Some?
    requires Grouped(c, p, groups) && Covers(servers, groups.Keys)
    requires forall s :: s in servers ==> s.ip in groups && s.names == groups[s.ip]
    ensures ServedBySome(n, servers)
  {
    var a := AddressOf(c, p, n).value;
    assert n in MembersAt(c, p, a);
    assert a in groups.Keys;
    var s :| s in servers && s.ip == a;
    assert n in s.names;
  }

  lemma {:induction false} NeverRecovers(c: Config, ms: seq<MasterSpec>, i: nat)
    requires i <= |ms| && AddMasters(c, ms[..i]).None?
    ensures AddMasters(c, ms).None?
    decreases |ms| - i
  {
    if i < |ms| {
      assert ms[..i + 1][..i] == ms[..i];
      NeverRecovers(c, ms, i + 1);
    } else {
      assert ms[..i] == ms;
    }
  }

  // ---------------------------------------------------------------------------
  // What the first pass keeps
  // ---------------------------------------------------------------------------

  /** Every master is connected to defined outstations that are all reached at its one address, and
      its table of units is the one of these outstations. */
  ghost predicate MasterFits(c: Config, p: Progress, m: Master) {
    && Defined(c, m.outstations)
    && (forall n :: n in m.outstations ==> n in p.connected && AddressOf(c, p, n) == Some(m.outstationAddr))
    && m.info == Datastore(c, m.outstations)
    && SamePorts(c, m.outstations)
    && m.port == PortOf(c, m.outstations)
  }

  ghost predicate Steady(c: Config, p: Progress) {
    && (forall n :: n in p.connected ==> n in c.outstations && AddressOf(c, p, n).Some?)
    && (forall n :: n in p.given ==> n in p.connected && n in c.outstations && c.outstations[n].ip.None?)
    && (forall i :: 0 <= i < |p.masters| ==> MasterFits(c, p, p.masters[i]))
  }

  /** No assigned address is ever replaced by a different one. */
  ghost predicate Extends(p: Progress, p': Progress) {
    && p.connected <= p'.connected
    && (forall n :: n in p.given ==> n in p'.given && p'.given[n] == p.given[n])
  }

  lemma SteadyNeverMissesKeys(c: Config, p: Progress, names: seq<Name>)
    requires Steady(c, p) && Defined(c, names) && !SomeAddressGiven(c, names)
    ensures !MissingKey(p, names)
  {
  }

  /** The chosen address is the configured or the inherited one of every outstation that has one. */
  lemma ChoiceRespects(c: Config, p: Progress, taken: nat, names: seq<Name>, n: Name)
    requires Steady(c, p) && Defined(c, names) && n in names
    requires ChooseAddress(c, p, taken, names).Some?
    ensures var a := ChooseAddress(c, p, taken, names).value.0;
      && (SomeAddressGiven(c, names) ==> c.outstations[n].ip == Some(a))
      && (!SomeAddressGiven(c, names) ==> c.outstations[n].ip.None? && (n in p.given ==> p.given[n] == a))
  {
    if !SomeAddressGiven(c, names) && n in p.given {
      var inherited := Inherited(p, names);
      var a := ChooseAddress(c, p, taken, names).value.0;
      assert p.given[n] in inherited;
      assert |inherited| != 0;
      TheOnlyElement(inherited, a, p.given[n]);
    }
  }

  lemma AddMasterSteady(c: Config, p: Progress, m: MasterSpec)
    requires Steady(c, p) && AddMaster(c, p, m).Some?
    ensures Steady(c, AddMaster(c, p, m).value)
    ensures Extends(p, AddMaster(c, p, m).value)
  {
    var p' := AddMaster(c, p, m).value;
    if p' != p {
      forall n | n in m.outstations {
        ChoiceRespects(c, p, p.taken + 1, m.outstations, n);
      }
      forall n | n in p.connected ensures AddressOf(c, p', n) == AddressOf(c, p, n) {
      }
    }
  }

  lemma {:induction false} AddMastersSteady(c: Config, ms: seq<MasterSpec>)
    requires AddMasters(c, ms).Some?
    ensures Steady(c, AddMasters(c, ms).value)
  {
    if ms != [] {
      AddMastersSteady(c, ms[..|ms| - 1]);
      AddMasterSteady(c, AddMasters(c, ms[..|ms| - 1]).value, ms[|ms| - 1]);
    }
  }

  lemma ConnectedAreReached(c: Config, ms: seq<MasterSpec>)
    requires AddMasters(c, ms).Some?
    ensures var p := AddMasters(c, ms).value;
      forall n :: n in p.connected ==> n in c.outstations && AddressOf(c, p, n).Some?
  {
    AddMastersSteady(c, ms);
  }

  /** Address assignment is stable over the whole pass. */
  lemma {:induction false} AddressesAreStable(c: Config, ms: seq<MasterSpec>, i: nat)
    requires i <= |ms| && AddMasters(c, ms).Some?
    ensures AddMasters(c, ms[..i]).Some?
    ensures Extends(AddMasters(c, ms[..i]).value, AddMasters(c, ms).value)
    decreases |ms| - i
  {
    if i == |ms| {
      assert ms[..i] == ms;
    } else {
      AddressesAreStable(c, ms, i + 1);
      assert ms[..i + 1][..i] == ms[..i];
      AddMastersSteady(c, ms[..i]);
      AddMasterSteady(c, AddMasters(c, ms[..i]).value, ms[i]);
    }
  }
}
