/**
 The generated addresses as a limited supply. `process_nodes` asks for one at every named master, and a
 bare `except` drops the master when there is none; so masters disappear silently when the supply runs
 out, and all of them when there was never any.
 */
module AddressSupply {
  import opened Wrappers
  import opened Topology
  import opened Answerable

  // ---------------------------------------------------------------------------
  // Masters that are dropped
  // ---------------------------------------------------------------------------

  /** The names that the configuration gives to its masters. */
  function GivenNames(ms: seq<MasterSpec>): seq<Name> {
    if ms == [] then []
    else GivenNames(ms[..|ms| - 1]) + (if ms[|ms| - 1].name.Some? then [ms[|ms| - 1].name.value] else [])
  }

  function ConnectedTo(m: MasterSpec): set<Name> {
    set n | n in m.outstations
  }

  /** The outstations of the named masters. */
  function Mentioned(ms: seq<MasterSpec>): set<Name> {
    if ms == [] then {}
    else Mentioned(ms[..|ms| - 1]) + (if ms[|ms| - 1].name.Some? then ConnectedTo(ms[|ms| - 1]) else {})
  }

  /** The outstations of a master have no address, and no named master before it has any of them. */
  predicate NeedsAddress(c: Config, earlier: seq<MasterSpec>, m: MasterSpec) {
    && Defined(c, m.outstations)
    && !SomeAddressGiven(c, m.outstations)
    && forall n :: n in m.outstations ==> n !in Mentioned(earlier)
  }

  /** The generated addresses that the masters use up: one for each named master, whether or not it has
      an address of its own, and one for each group of outstations that needs one. */
  function Need(c: Config, ms: seq<MasterSpec>): nat {
    if ms == [] then 0
    else
      var front, last := ms[..|ms| - 1], ms[|ms| - 1];
      Need(c, front) + (if last.name.Some? then 1 + (if NeedsAddress(c, front, last) then 1 else 0) else 0)
  }

  /** The names of the masters for which an address was left. */
  function SuppliedNames(c: Config, ms: seq<MasterSpec>): seq<Name> {
    if ms == [] then []
    else
      var front, last := ms[..|ms| - 1], ms[|ms| - 1];
      SuppliedNames(c, front) + (if last.name.Some? && Need(c, front) < |c.addresses| then [last.name.value] else [])
  }

  function NamesOf(masters: seq<Master>): seq<Name> {
    if masters == [] then [] else NamesOf(masters[..|masters| - 1]) + [masters[|masters| - 1].name]
  }

  /** The need has been met so far, or the supply is at its end. */
  ghost predicate Supplied(c: Config, ms: seq<MasterSpec>, p: Progress) {
    && NamesOf(p.masters) == SuppliedNames(c, ms)
    && if p.taken < |c.addresses| || Need(c, ms) < |c.addresses|
       then p.taken == Need(c, ms) && p.connected == Mentioned(ms)
       else true
  }

  /** Without addresses of their own, the outstations of a master inherit one or need a new one. */
  lemma ChoiceTakes(c: Config, p: Progress, earlier: seq<MasterSpec>, m: MasterSpec, taken: nat)
    requires Steady(c, p) && p.connected == Mentioned(earlier) && Defined(c, m.outstations)
    requires ChooseAddress(c, p, taken, m.outstations).Some?
    ensures ChooseAddress(c, p, taken, m.outstations).value.1 == taken + (if NeedsAddress(c, earlier, m) then 1 else 0)
  {
    if !SomeAddressGiven(c, m.outstations) {
      if n :| n in m.outstations && n in p.connected {
        assert p.given[n] in Inherited(p, m.outstations);
      } else {
        assert Inherited(p, m.outstations) == {};
      }
    }
  }

  lemma MasterIsAppended(c: Config, p: Progress, m: MasterSpec)
    requires m.name.Some? && p.taken < |c.addresses| && AddMaster(c, p, m).Some?
    ensures var p' := AddMaster(c, p, m).value;
      && Defined(c, m.outstations) && ChooseAddress(c, p, p.taken + 1, m.outstations).Some?
      && p'.taken == ChooseAddress(c, p, p.taken + 1, m.outstations).value.1
      && p'.connected == p.connected + ConnectedTo(m)
      && |p'.masters| == |p.masters| + 1 && p'.masters[..|p.masters|] == p.masters
      && p'.masters[|p.masters|].name == m.name.value
  {
  }

  /** A master that is built takes an address for itself and perhaps one for its outstations. */
  lemma BuiltMasterTakes(c: Config, p: Progress, earlier: seq<MasterSpec>, m: MasterSpec)
    requires Steady(c, p) && p.connected == Mentioned(earlier)
    requires m.name.Some? && p.taken < |c.addresses| && AddMaster(c, p, m).Some?
    ensures var p' := AddMaster(c, p, m).value;
      && p'.taken == p.taken + 1 + (if NeedsAddress(c, earlier, m) then 1 else 0)
      && p'.connected == p.connected + ConnectedTo(m)
      && NamesOf(p'.masters) == NamesOf(p.masters) + [m.name.value]
  {
    MasterIsAppended(c, p, m);
    ChoiceTakes(c, p, earlier, m, p.taken + 1);
  }

  lemma SuppliedStep(c: Config, ms: seq<MasterSpec>, p: Progress)
    requires ms != [] && Steady(c, p) && Supplied(c, ms[..|ms| - 1], p)
    requires AddMaster(c, p, ms[|ms| - 1]).Some?
    ensures Supplied(c, ms, AddMaster(c, p, ms[|ms| - 1]).value)
  {
    var front, m := ms[..|ms| - 1], ms[|ms| - 1];
    if m.name.Some? && p.taken < |c.addresses| {
      BuiltMasterTakes(c, p, front, m);
    } else {
      assert AddMaster(c, p, m) == Some(p);
    }
  }

  lemma {:induction false} SuppliedPass(c: Config, ms: seq<MasterSpec>)
    requires AddMasters(c, ms).Some?
    ensures Supplied(c, ms, AddMasters(c, ms).value)
  {
    if ms != [] {
      SuppliedPass(c, ms[..|ms| - 1]);
      AddMastersSteady(c, ms[..|ms| - 1]);
      SuppliedStep(c, ms, AddMasters(c, ms[..|ms| - 1]).value);
    }
  }

  /** There is an address left at each named master. */
  ghost predicate SupplyLasts(c: Config, ms: seq<MasterSpec>) {
    forall i :: 0 <= i < |ms| && ms[i].name.Some? ==> Need(c, ms[..i]) < |c.addresses|
  }

  lemma {:induction false} SuppliedAllExactly(c: Config, ms: seq<MasterSpec>)
    ensures |SuppliedNames(c, ms)| <= |GivenNames(ms)|
    ensures SuppliedNames(c, ms) == GivenNames(ms) <==> SupplyLasts(c, ms)
  {
    if ms != [] {
      var n := |ms| - 1;
      SuppliedAllExactly(c, ms[..n]);
      assert forall i :: 0 <= i < n ==> ms[..n][i] == ms[i] && ms[..n][..i] == ms[..i];
      assert SupplyLasts(c, ms) <==> SupplyLasts(c, ms[..n]) && (ms[n].name.Some? ==> Need(c, ms[..n]) < |c.addresses|);
      var supplied, given := SuppliedNames(c, ms[..n]), GivenNames(ms[..n]);
      if ms[n].name.Some? {
        var name := ms[n].name.value;
        assert (supplied + [name])[..|supplied|] == supplied && (given + [name])[..|given|] == given;
        assert |supplied| < |given + [name]|;
      } else {
        assert SuppliedNames(c, ms) == supplied && GivenNames(ms) == given;
      }
    }
  }

  /** Built are exactly the masters for which an address is left when it is their turn... */
  lemma BuiltMastersExactly(c: Config, o: Outcome)
    requires IsOutcome(c, o) && o.Built?
    ensures NamesOf(o.masters) == SuppliedNames(c, c.masters)
  {
    SuppliedPass(c, c.masters);
  }

  /** ... so none of the named masters is silently dropped if and only if an address is left at the turn of
      each of them. */
  lemma NobodyIsDroppedExactly(c: Config, o: Outcome)
    requires IsOutcome(c, o) && o.Built?
    ensures NamesOf(o.masters) == GivenNames(c.masters) <==> SupplyLasts(c, c.masters)
  {
    BuiltMastersExactly(c, o);
    SuppliedAllExactly(c, c.masters);
  }

  // ---------------------------------------------------------------------------
  // No CIDR notation
  // ---------------------------------------------------------------------------

  lemma {:induction false} NoAddressNoMaster(c: Config, ms: seq<MasterSpec>)
    requires c.addresses == []
    ensures AddMasters(c, ms) == Some(NOTHING)
  {
    if ms != [] {
      NoAddressNoMaster(c, ms[..|ms| - 1]);
    }
  }

  lemma SomebodyIsServed(c: Config, o: Outcome, i: nat)
    requires IsOutcome(c, o) && o.Built? && i < |o.servers|
    ensures AddMasters(c, c.masters).value.connected != {}
  {
    var s := o.servers[i];
    assert s in o.servers && ServerFits(c, AddMasters(c, c.masters).value, s);
    assert s.names[0] in s.names;
    MembersOf(c, o, s, s.names[0]);
  }

  /** Without "CIDR Notation" every master is dropped silently, even one with an address of its own. */
  lemma WithoutCidrNothingIsBuilt(c: Config, o: Outcome)
    requires c.addresses == [] && IsOutcome(c, o)
    ensures o == Built([], [])
  {
    NoAddressNoMaster(c, c.masters);
    assert forall a :: MembersAt(c, NOTHING, a) == {};
    if o.Built? && |o.servers| > 0 {
      SomebodyIsServed(c, o, 0);
    }
  }

  /** The file of the project's own parser test, which expects two masters and three nodes of it. */
  const PARSER_TEST := Config(
    false, [],
    [MasterSpec(Some("M1"), None, ["S1", "S2"], [], None), MasterSpec(Some("M2"), None, ["S1"], [], None)],
    map["S1" := OutstationSpec(Some("192.13.13.12"), Some(1), Some(17), None, None),
        "S2" := OutstationSpec(Some("192.13.13.12"), Some(2), Some(15), None, None),
        "S3" := OutstationSpec(None, None, None, None, None)])

  lemma ParserTestDropsBoth(o: Outcome)
    requires IsOutcome(PARSER_TEST, o)
    ensures |GivenNames(PARSER_TEST.masters)| == 2
    ensures o == Built([], [])
  {
    WithoutCidrNothingIsBuilt(PARSER_TEST, o);
    assert PARSER_TEST.masters[..1] == [PARSER_TEST.masters[0]];
    assert |GivenNames(PARSER_TEST.masters[..1])| == 1;
  }
}
