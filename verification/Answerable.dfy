/**
 What the topology guarantees to the masters and servers built from it: every poll finds its unit,
 every connected outstation lives at one address only, and the order in which Python walks its sets
 and dictionaries never shows.
 */
module Answerable {
  import opened Wrappers
  import opened Topology
  import ModbusServer

  // ---------------------------------------------------------------------------
  // The dictionary of units
  // ---------------------------------------------------------------------------

  lemma {:induction false} DatastoreKeys(c: Config, names: seq<Name>, u: int)
    requires Defined(c, names)
    ensures u in Datastore(c, names) <==> exists n :: n in names && c.outstations[n].Unit() == u
  {
    if names != [] {
      var front, last := names[..|names| - 1], names[|names| - 1];
      DatastoreKeys(c, front, u);
      assert names == front + [last];
      assert last in names;
    }
  }

  /** With distinct unit ids the dictionary comprehension loses nothing. */
  lemma {:induction false} DatastoreCounts(c: Config, names: seq<Name>, n: Name)
    requires Defined(c, names) && n in names
    requires forall m :: m in names && m != n ==> c.outstations[m].Unit() != c.outstations[n].Unit()
    ensures c.outstations[n].Unit() in Datastore(c, names)
    ensures Datastore(c, names)[c.outstations[n].Unit()] == c.outstations[n].Count()
  {
    var front, last := names[..|names| - 1], names[|names| - 1];
    assert names == front + [last];
    if last != n {
      DatastoreCounts(c, front, n);
    }
  }

  // ---------------------------------------------------------------------------
  // One server for each outstation
  // ---------------------------------------------------------------------------

  lemma ServersDiffer(servers: seq<Server>, s: Server, s': Server)
    requires OnePerAddress(servers) && s in servers && s' in servers && s.ip == s'.ip
    ensures s == s'
  {
  }

  /** The members of a server are exactly the connected outstations reached at its address. */
  lemma MembersOf(c: Config, o: Outcome, s: Server, n: Name)
    requires IsOutcome(c, o) && o.Built? && s in o.servers
    ensures var p := AddMasters(c, c.masters).value;
      n in s.names <==> n in p.connected && n in c.outstations && AddressOf(c, p, n) == Some(s.ip)
  {
    var p := AddMasters(c, c.masters).value;
    assert ServerFits(c, p, s);
    assert n in s.names <==> n in MembersAt(c, p, s.ip);
  }

  /** Grouping by address is a partition of the connected outstations. */
  lemma OutstationsArePartitioned(c: Config, o: Outcome, n: Name)
    requires IsOutcome(c, o) && o.Built?
    ensures n in AddMasters(c, c.masters).value.connected <==> ServedBySome(n, o.servers)
    ensures forall s, s' :: s in o.servers && s' in o.servers && n in s.names && n in s'.names ==> s == s'
  {
    forall s | s in o.servers {
      MembersOf(c, o, s, n);
    }
    forall s, s' | s in o.servers && s' in o.servers && n in s.names && n in s'.names ensures s == s' {
      ServersDiffer(o.servers, s, s');
    }
  }

  // ---------------------------------------------------------------------------
  // Every poll is answerable
  // ---------------------------------------------------------------------------

  /** The server at the master's outstation address knows all outstations of the master. */
  lemma MasterMeetsServer(c: Config, o: Outcome, m: Master, n: Name) returns (s: Server)
    requires IsOutcome(c, o) && o.Built? && m in o.masters && n in m.outstations
    ensures s in o.servers && s.ip == m.outstationAddr
    ensures forall k :: k in m.outstations ==> k in s.names
    ensures MasterFits(c, AddMasters(c, c.masters).value, m)
    ensures Defined(c, s.names) && GroupAccepted(c, s.names) && s == ServerOf(c, s.ip, s.names)
  {
    var p := AddMasters(c, c.masters).value;
    AddMastersSteady(c, c.masters);
    assert MasterFits(c, p, m);
    assert ServedBySome(n, o.servers);
    s :| s in o.servers && n in s.names;
    MembersOf(c, o, s, n);
    forall k | k in m.outstations ensures k in s.names {
      MembersOf(c, o, s, k);
    }
    assert ServerFits(c, p, s);
  }

  /** The main result: every unit that a master polls, with the count it polls, is a unit of the one
      server built at the address it polls, with exactly that count. */
  lemma EveryPollIsAnswerable(c: Config, o: Outcome, m: Master, u: int)
    requires IsOutcome(c, o) && o.Built? && m in o.masters && u in m.info
    ensures exists s :: s in o.servers && s.ip == m.outstationAddr && u in s.datastore && s.datastore[u] == m.info[u]
    ensures forall s :: s in o.servers && s.ip == m.outstationAddr ==> u in s.datastore && s.datastore[u] == m.info[u]
  {
    var p := AddMasters(c, c.masters).value;
    AddMastersSteady(c, c.masters);
    assert MasterFits(c, p, m);
    DatastoreKeys(c, m.outstations, u);
    var n :| n in m.outstations && c.outstations[n].Unit() == u;
    var s := MasterMeetsServer(c, o, m, n);
    DatastoreCounts(c, m.outstations, n);
    DatastoreCounts(c, s.names, n);
    forall s' | s' in o.servers && s'.ip == m.outstationAddr ensures s' == s {
      ServersDiffer(o.servers, s, s');
    }
  }

  /** So whatever the scripts have written, the polled unit has blocks of the polled size. */
  lemma PolledBlocksHaveTheSize(c: Config, o: Outcome, m: Master, u: int, s: Server, context: ModbusServer.Context)
    requires IsOutcome(c, o) && o.Built? && m in o.masters && u in m.info
    requires s in o.servers && s.ip == m.outstationAddr && ModbusServer.Hosts(context, s.datastore)
    ensures context.Lookup(u).Some? && ModbusServer.HasSize(context.Lookup(u).value, m.info[u])
  {
    EveryPollIsAnswerable(c, o, m, u);
  }

  /** Every outstation of a server updates a unit of its own, of its own data count. */
  lemma UpdatesAreSeparate(c: Config, o: Outcome, s: Server, n: Name)
    requires IsOutcome(c, o) && o.Built? && s in o.servers && n in s.names
    ensures n in s.unitIds && s.unitIds[n] in s.datastore
    ensures n in c.outstations && s.datastore[s.unitIds[n]] == c.outstations[n].Count()
    ensures forall n' :: n' in s.names && n' != n ==> n' in s.unitIds && s.unitIds[n'] != s.unitIds[n]
  {
    assert ServerFits(c, AddMasters(c, c.masters).value, s);
    DatastoreCounts(c, s.names, n);
  }

  // ---------------------------------------------------------------------------
  // Ports
  // ---------------------------------------------------------------------------

  /** The port on which a lone outstation listens. */
  function OwnPort(spec: OutstationSpec): int {
    if spec.port.Some? && spec.port.value != 0 then spec.port.value else DEFAULT_PORT
  }

  lemma PortOfGroup(c: Config, names: seq<Name>, n: Name)
    requires Defined(c, names) && SamePorts(c, names) && n in names
    ensures PortOf(c, names) == if |names| == 1 then OwnPort(c.outstations[n]) else DEFAULT_PORT
  {
  }

  /**
   A master need not dial the port its server listens on: a configured port counts only for a group of
   one, and the outstations of the master may be fewer than those connected at its address. The ports
   agree exactly when the port is the default one anyway or both groups or neither have one member.
   */
  lemma PortsAgreeExactly(c: Config, o: Outcome, m: Master, n: Name, s: Server)
    requires IsOutcome(c, o) && o.Built? && m in o.masters && n in m.outstations
    requires s in o.servers && s.ip == m.outstationAddr
    ensures n in c.outstations
    ensures m.port == s.port
       <==> || OwnPort(c.outstations[n]) == DEFAULT_PORT
            || (|m.outstations| == 1 <==> |MembersAt(c, AddMasters(c, c.masters).value, m.outstationAddr)| == 1)
  {
    var s' := MasterMeetsServer(c, o, m, n);
    ServersDiffer(o.servers, s, s');
    PortOfGroup(c, m.outstations, n);
    PortOfGroup(c, s.names, n);
  }

  /** Two masters, each with one outstation, both outstations at one address. */
  const TWO_AT_ONE_ADDRESS := Config(
    true, ["10.0.0.8", "10.0.0.9"],
    [MasterSpec(Some("M1"), Some("10.0.0.1"), ["S1"], [], None),
     MasterSpec(Some("M2"), Some("10.0.0.2"), ["S2"], [], None)],
    map["S1" := OutstationSpec(Some("10.0.0.3"), Some(1), None, None, Some(5020)),
        "S2" := OutstationSpec(Some("10.0.0.3"), Some(2), None, None, Some(5020))])

  /** Two outstations at one address, as the builder sees them. */
  ghost predicate SharedAddress(c: Config, n1: Name, n2: Name, a: Address, port: int) {
    && n1 != n2 && n1 in c.outstations && n2 in c.outstations
    && c.outstations[n1].Unit() == 1 && c.outstations[n2].Unit() == 2
    && forall n :: n in {n1, n2} ==>
         && c.outstations[n].ip == Some(a) && c.outstations[n].port == Some(port) && c.outstations[n].Simulated()
  }

  lemma MasterOfOne(c: Config, p: Progress, m: MasterSpec, n1: Name, n2: Name, n: Name, a: Address, port: int)
    requires SharedAddress(c, n1, n2, a, port) && (n == n1 || n == n2) && port != 0
    requires m.name.Some? && m.ip.Some? && m.outstations == [n] && p.taken < |c.addresses|
    ensures var r := AddMaster(c, p, m);
      && r.Some? && r.value.taken == p.taken + 1 && r.value.given == p.given && r.value.connected == p.connected + {n}
      && |r.value.masters| == |p.masters| + 1 && r.value.masters[..|p.masters|] == p.masters
      && r.value.masters[|p.masters|].outstations == [n]
      && r.value.masters[|p.masters|].outstationAddr == a && r.value.masters[|p.masters|].port == port
  {
    assert n in m.outstations;
    assert SomeAddressGiven(c, m.outstations);
  }

  lemma SharedAddressAcceptable(c: Config, p: Progress, n1: Name, n2: Name, a: Address, port: int)
    requires SharedAddress(c, n1, n2, a, port) && AddMasters(c, c.masters) == Some(p) && p.connected == {n1, n2}
    ensures Acceptable(c)
    ensures MembersAt(c, p, a) == {n1, n2}
  {
    forall b | MembersAt(c, p, b) != {} ensures AddressAccepted(c, p, b) {
      forall names | Lists(names, MembersAt(c, p, b)) ensures Defined(c, names) && GroupAccepted(c, names) {
        assert forall n :: n in names ==> n in {n1, n2};
        assert |names| > 0 && names[0] in names;
        assert SomeAddressGiven(c, names);
      }
    }
  }

  lemma TwoAtOneAddressPass()
    ensures SharedAddress(TWO_AT_ONE_ADDRESS, "S1", "S2", "10.0.0.3", 5020)
    ensures
      var r := AddMasters(TWO_AT_ONE_ADDRESS, TWO_AT_ONE_ADDRESS.masters);
      && r.Some? && r.value.connected == {"S1", "S2"} && |r.value.masters| == 2
      && forall m :: m in r.value.masters ==> m.outstationAddr == "10.0.0.3" && m.port == 5020 && |m.outstations| == 1
  {
    var c := TWO_AT_ONE_ADDRESS;
    assert "S1" != "S2" by {
      assert "S1"[1] != "S2"[1];
    }
    assert c.masters[..1][..0] == [];
    assert SharedAddress(c, "S1", "S2", "10.0.0.3", 5020);
    MasterOfOne(c, NOTHING, c.masters[0], "S1", "S2", "S1", "10.0.0.3", 5020);
    var p := AddMaster(c, NOTHING, c.masters[0]).value;
    assert AddMasters(c, c.masters[..1]) == Some(p);
    MasterOfOne(c, p, c.masters[1], "S1", "S2", "S2", "10.0.0.3", 5020);
    var p' := AddMaster(c, p, c.masters[1]).value;
    assert p'.masters == [p'.masters[..1][0], p'.masters[1]];
  }

  /** They are built, dial port 5020, and their server listens on port 502. */
  lemma PortsCanDisagree(o: Outcome)
    requires IsOutcome(TWO_AT_ONE_ADDRESS, o)
    ensures o.Built? && |o.masters| == 2
    ensures forall m :: m in o.masters ==> exists s :: && s in o.servers && s.ip == m.outstationAddr
                                                       && m.port == 5020 && s.port == 502
  {
    var c := TWO_AT_ONE_ADDRESS;
    TwoAtOneAddressPass();
    var p := AddMasters(c, c.masters).value;
    SharedAddressAcceptable(c, p, "S1", "S2", "10.0.0.3", 5020);
    BuiltIfAndOnlyIfAcceptable(c, o);
    forall m | m in o.masters
      ensures exists s :: s in o.servers && s.ip == m.outstationAddr && m.port == 5020 && s.port == 502
    {
      var s := MasterMeetsServer(c, o, m, m.outstations[0]);
      assert ServerFits(c, p, s);
      PortOfTwo(c, p, s, "S1", "S2");
    }
  }

  lemma PortOfTwo(c: Config, p: Progress, s: Server, n1: Name, n2: Name)
    requires ServerFits(c, p, s) && MembersAt(c, p, s.ip) == {n1, n2} && n1 != n2
    ensures s.port == DEFAULT_PORT
  {
    assert |s.names| == |{n1, n2}| == 2;
    assert s.port == PortOf(c, s.names);
  }

  // ---------------------------------------------------------------------------
  // Order does not matter
  // ---------------------------------------------------------------------------

  lemma GroupAcceptedForAnyOrder(c: Config, names: seq<Name>, names': seq<Name>)
    requires Defined(c, names) && GroupAccepted(c, names)
    requires forall n :: n in names' <==> n in names
    ensures Defined(c, names') && GroupAccepted(c, names')
  {
  }

  lemma ServerForAnyOrder(c: Config, a: Address, names: seq<Name>, names': seq<Name>)
    requires Defined(c, names) && GroupAccepted(c, names) && names != []
    requires (forall n :: n in names' <==> n in names) && |names'| == |names|
    ensures Defined(c, names')
    ensures ServerOf(c, a, names') == ServerOf(c, a, names).(names := names')
  {
    GroupAcceptedForAnyOrder(c, names, names');
    var d, d' := Datastore(c, names), Datastore(c, names');
    forall u ensures u in d <==> u in d' {
      DatastoreKeys(c, names, u);
      DatastoreKeys(c, names', u);
    }
    forall u | u in d ensures d'[u] == d[u] {
      DatastoreKeys(c, names, u);
      var n :| n in names && c.outstations[n].Unit() == u;
      DatastoreCounts(c, names, n);
      DatastoreCounts(c, names', n);
    }
    assert d == d';
    assert names[0] in names && names'[0] in names';
  }

  lemma ServedAddressIsAccepted(c: Config, o: Outcome, a: Address)
    requires IsOutcome(c, o) && o.Built?
    requires MembersAt(c, AddMasters(c, c.masters).value, a) != {}
    ensures AddressAccepted(c, AddMasters(c, c.masters).value, a)
  {
    var p := AddMasters(c, c.masters).value;
    var n :| n in MembersAt(c, p, a);
    OutstationsArePartitioned(c, o, n);
    var s :| s in o.servers && n in s.names;
    MembersOf(c, o, s, n);
    assert ServerFits(c, p, s);
    forall names | Lists(names, MembersAt(c, p, a)) ensures Defined(c, names) && GroupAccepted(c, names) {
      GroupAcceptedForAnyOrder(c, s.names, names);
    }
  }

  /** The program goes on exactly with the acceptable configurations. */
  lemma BuiltIfAndOnlyIfAcceptable(c: Config, o: Outcome)
    requires IsOutcome(c, o)
    ensures o.Built? <==> Acceptable(c)
  {
    if o.Built? {
      forall a | MembersAt(c, AddMasters(c, c.masters).value, a) != {} {
        ServedAddressIsAccepted(c, o, a);
      }
    }
  }

  /** The same server but for the order of its names. */
  ghost predicate Twins(s: Server, s': Server) {
    s' == s.(names := s'.names) && forall n :: n in s.names <==> n in s'.names
  }

  lemma TwinServer(c: Config, o: Outcome, o': Outcome, s: Server) returns (s': Server)
    requires IsOutcome(c, o) && IsOutcome(c, o') && o.Built? && o'.Built? && s in o.servers
    ensures s' in o'.servers && Twins(s, s')
  {
    var p := AddMasters(c, c.masters).value;
    assert ServerFits(c, p, s);
    var n := s.names[0];
    MembersOf(c, o, s, n);
    OutstationsArePartitioned(c, o', n);
    s' :| s' in o'.servers && n in s'.names;
    MembersOf(c, o', s', n);
    assert ServerFits(c, p, s');
    ServerForAnyOrder(c, s.ip, s.names, s'.names);
  }

  /** Two runs over the same configuration agree on everything but the order of names and servers. */
  lemma OrderIsIrrelevant(c: Config, o: Outcome, o': Outcome)
    requires IsOutcome(c, o) && IsOutcome(c, o')
    ensures o.Built? <==> o'.Built?
    ensures o.Built? ==> o.masters == o'.masters
    ensures o.Built? ==> forall s :: s in o.servers ==> exists s' :: s' in o'.servers && Twins(s, s')
  {
    BuiltIfAndOnlyIfAcceptable(c, o);
    BuiltIfAndOnlyIfAcceptable(c, o');
    if o.Built? {
      forall s | s in o.servers ensures exists s' :: s' in o'.servers && Twins(s, s') {
        var s' := TwinServer(c, o, o', s);
      }
    }
  }
}
