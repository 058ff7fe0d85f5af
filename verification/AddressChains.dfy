/**
 Which outstations get one and the same generated address: exactly those that a chain of masters links,
 each sharing an outstation with the next; and which configurations the first pass refuses for that.
 */
module AddressChains {
  import opened Wrappers
  import opened Topology

  ghost predicate Share(m: Master, m': Master) {
    exists n :: n in m.outstations && n in m'.outstations
  }

  /** Masters of the list, each sharing an outstation with the next, from one of `x` to one of `y`. */
  ghost predicate IsChain(masters: seq<Master>, chain: seq<Master>, x: Name, y: Name) {
    && chain != []
    && (forall m :: m in chain ==> m in masters)
    && x in chain[0].outstations && y in chain[|chain| - 1].outstations
    && forall i :: 0 < i < |chain| ==> Share(chain[i - 1], chain[i])
  }

  ghost predicate Linked(masters: seq<Master>, x: Name, y: Name) {
    exists chain :: IsChain(masters, chain, x, y)
  }

  /** The generated addresses are all different. */
  ghost predicate Different(addresses: seq<Address>) {
    forall i, j :: 0 <= i < j < |addresses| ==> addresses[i] != addresses[j]
  }

  // ---------------------------------------------------------------------------
  // Linked outstations have one address
  // ---------------------------------------------------------------------------

  lemma {:induction false} ChainHasOneAddress(c: Config, p: Progress, chain: seq<Master>, x: Name, y: Name)
    requires Steady(c, p) && IsChain(p.masters, chain, x, y)
    ensures x in c.outstations && y in c.outstations
    ensures AddressOf(c, p, x) == AddressOf(c, p, y)
    decreases |chain|
  {
    assert chain[0] in chain && chain[0] in p.masters && MasterFits(c, p, chain[0]);
    if |chain| > 1 {
      assert Share(chain[1 - 1], chain[1]);
      var n :| n in chain[0].outstations && n in chain[1].outstations;
      var rest := chain[1..];
      forall i | 0 < i < |rest| ensures Share(rest[i - 1], rest[i]) {
        assert Share(chain[i + 1 - 1], chain[i + 1]);
      }
      ChainHasOneAddress(c, p, rest, n, y);
    }
  }

  // ---------------------------------------------------------------------------
  // One address is shared by linked outstations only
  // ---------------------------------------------------------------------------

  /** All addresses given so far have been generated... */
  ghost predicate Generated(c: Config, p: Progress) {
    forall n :: n in p.given ==> exists i :: 0 <= i < p.taken && i < |c.addresses| && p.given[n] == c.addresses[i]
  }

  /** ... and the same one only to linked outstations. */
  ghost predicate GivenToLinked(p: Progress) {
    forall x, y :: x in p.given && y in p.given && p.given[x] == p.given[y] ==> Linked(p.masters, x, y)
  }

  lemma LinkedLater(masters: seq<Master>, m: Master, x: Name, y: Name)
    requires Linked(masters, x, y)
    ensures Linked(masters + [m], x, y)
  {
    var chain :| IsChain(masters, chain, x, y);
    assert IsChain(masters + [m], chain, x, y);
  }

  lemma LinkedByOne(masters: seq<Master>, m: Master, x: Name, y: Name)
    requires x in m.outstations && y in m.outstations
    ensures Linked(masters + [m], x, y)
  {
    assert IsChain(masters + [m], [m], x, y);
  }

  /** A master that shares `n` prolongs the chain at either end. */
  lemma LinkedThrough(masters: seq<Master>, m: Master, x: Name, n: Name, y: Name)
    requires n in m.outstations
    ensures x in m.outstations && Linked(masters, n, y) ==> Linked(masters + [m], x, y)
    ensures y in m.outstations && Linked(masters, x, n) ==> Linked(masters + [m], x, y)
  {
    if x in m.outstations && Linked(masters, n, y) {
      var chain :| IsChain(masters, chain, n, y);
      var longer := [m] + chain;
      assert Share(m, chain[0]);
      forall i | 0 < i < |longer| ensures Share(longer[i - 1], longer[i]) {
        assert i > 1 ==> Share(chain[i - 1 - 1], chain[i - 1]);
      }
      assert IsChain(masters + [m], longer, x, y);
    }
    if y in m.outstations && Linked(masters, x, n) {
      var chain :| IsChain(masters, chain, x, n);
      var longer := chain + [m];
      assert Share(chain[|chain| - 1], m);
      forall i | 0 < i < |longer| ensures Share(longer[i - 1], longer[i]) {
        assert i < |chain| ==> Share(chain[i - 1], chain[i]);
      }
      assert IsChain(masters + [m], longer, x, y);
    }
  }

  /** The address chosen for outstations without one is new or that of a connected outstation among them. */
  lemma NewOrInherited(c: Config, p: Progress, m: MasterSpec, taken: nat)
    requires Defined(c, m.outstations) && !SomeAddressGiven(c, m.outstations)
    requires ChooseAddress(c, p, taken, m.outstations).Some?
    ensures var (a, taken') := ChooseAddress(c, p, taken, m.outstations).value;
      || (taken < |c.addresses| && a == c.addresses[taken] && taken' == taken + 1
          && forall n :: n in m.outstations ==> n !in p.connected)
      || (taken' == taken && exists n :: n in m.outstations && n in p.given && p.given[n] == a)
  {
    var inherited := Inherited(p, m.outstations);
    if n :| n in m.outstations && n in p.connected {
      assert p.given[n] in inherited;
    }
  }

  /** What one round does to the given addresses and to the list of masters. */
  ghost predicate IsRound(c: Config, p: Progress, m: MasterSpec, p': Progress, master: Master) {
    && Defined(c, m.outstations) && ChooseAddress(c, p, p.taken + 1, m.outstations).Some?
    && var (a, taken) := ChooseAddress(c, p, p.taken + 1, m.outstations).value;
    && p'.taken == taken && p'.masters == p.masters + [master] && master.outstations == m.outstations
    && (SomeAddressGiven(c, m.outstations) ==> p'.given == p.given)
    && (!SomeAddressGiven(c, m.outstations) ==>
          && (forall n :: n in p'.given <==> n in p.given || n in m.outstations)
          && (forall n :: n in p'.given ==> p'.given[n] == if n in m.outstations then a else p.given[n]))
  }

  lemma GivenStep(c: Config, p: Progress, m: MasterSpec)
    requires m.name.Some? && p.taken < |c.addresses| && AddMaster(c, p, m).Some?
    ensures var p' := AddMaster(c, p, m).value;
      |p'.masters| > |p.masters| && IsRound(c, p, m, p', p'.masters[|p.masters|])
  {
  }

  lemma GeneratedStep(c: Config, p: Progress, m: MasterSpec, p': Progress, master: Master)
    requires Generated(c, p) && IsRound(c, p, m, p', master)
    ensures Generated(c, p')
  {
    if SomeAddressGiven(c, m.outstations) {
      TakenGrows(c, p, m);
    } else {
      NewOrInherited(c, p, m, p.taken + 1);
    }
  }

  lemma TakenGrows(c: Config, p: Progress, m: MasterSpec)
    requires Defined(c, m.outstations) && ChooseAddress(c, p, p.taken + 1, m.outstations).Some?
    ensures ChooseAddress(c, p, p.taken + 1, m.outstations).value.1 > p.taken
  {
  }

  /** Whoever has the chosen address already is linked to an outstation of the master that has it too. */
  lemma InheritedFrom(c: Config, p: Progress, m: MasterSpec, taken: nat, other: Name) returns (n: Name)
    requires Different(c.addresses) && Generated(c, p) && GivenToLinked(p) && p.taken <= taken
    requires Defined(c, m.outstations) && !SomeAddressGiven(c, m.outstations)
    requires ChooseAddress(c, p, taken, m.outstations).Some?
    requires other in p.given && p.given[other] == ChooseAddress(c, p, taken, m.outstations).value.0
    ensures n in m.outstations && Linked(p.masters, n, other) && Linked(p.masters, other, n)
  {
    NewOrInherited(c, p, m, taken);
    var a := p.given[other];
    n :| n in m.outstations && n in p.given && p.given[n] == a;
  }

  lemma LinkedStep(c: Config, p: Progress, m: MasterSpec, p': Progress, master: Master, x: Name, y: Name)
    requires Different(c.addresses) && Generated(c, p) && GivenToLinked(p) && IsRound(c, p, m, p', master)
    requires x in p'.given && y in p'.given && p'.given[x] == p'.given[y]
    ensures Linked(p'.masters, x, y)
  {
    if SomeAddressGiven(c, m.outstations) || (x !in m.outstations && y !in m.outstations) {
      LinkedLater(p.masters, master, x, y);
    } else if x in m.outstations && y in m.outstations {
      LinkedByOne(p.masters, master, x, y);
    } else {
      var n := InheritedFrom(c, p, m, p.taken + 1, if x in m.outstations then y else x);
      LinkedThrough(p.masters, master, x, n, y);
    }
  }

  lemma {:induction false} LinkedPass(c: Config, ms: seq<MasterSpec>)
    requires Different(c.addresses) && AddMasters(c, ms).Some?
    ensures Generated(c, AddMasters(c, ms).value) && GivenToLinked(AddMasters(c, ms).value)
  {
    if ms != [] {
      var p, m := AddMasters(c, ms[..|ms| - 1]).value, ms[|ms| - 1];
      LinkedPass(c, ms[..|ms| - 1]);
      var p' := AddMaster(c, p, m).value;
      if m.name.Some? && p.taken < |c.addresses| {
        GivenStep(c, p, m);
        var master := p'.masters[|p.masters|];
        GeneratedStep(c, p, m, p', master);
        forall x, y | x in p'.given && y in p'.given && p'.given[x] == p'.given[y] ensures Linked(p'.masters, x, y) {
          LinkedStep(c, p, m, p', master, x, y);
        }
      } else {
        assert p' == p;
      }
    }
  }

  /** Of the connected outstations without an address of their own, two get the same one if and only if a
      chain of built masters links them. */
  lemma SameAddressExactly(c: Config, ms: seq<MasterSpec>, x: Name, y: Name)
    requires Different(c.addresses) && AddMasters(c, ms).Some?
    requires x in AddMasters(c, ms).value.connected && y in AddMasters(c, ms).value.connected
    ensures x in c.outstations && y in c.outstations
    ensures c.outstations[x].ip.None? && c.outstations[y].ip.None? ==>
      var p := AddMasters(c, ms).value;
      (AddressOf(c, p, x) == AddressOf(c, p, y) <==> Linked(p.masters, x, y))
  {
    var p := AddMasters(c, ms).value;
    AddMastersSteady(c, ms);
    LinkedPass(c, ms);
    if chain :| IsChain(p.masters, chain, x, y) {
      ChainHasOneAddress(c, p, chain, x, y);
    }
  }

  // ---------------------------------------------------------------------------
  // The exits
  // ---------------------------------------------------------------------------

  /** The master has connected outstations that no chain links. */
  ghost predicate JoinsTwo(p: Progress, names: seq<Name>) {
    exists x, y :: && x in names && x in p.connected && y in names && y in p.connected
                   && !Linked(p.masters, x, y)
  }

  lemma MoreThanOne<T>(xs: set<T>)
    ensures |xs| > 1 <==> exists x, y :: x in xs && y in xs && x != y
  {
    if |xs| > 1 {
      var x :| x in xs;
      assert |xs - {x}| > 0;
      var y :| y in xs - {x};
    } else if |xs| == 1 {
      forall x, y | x in xs && y in xs ensures x == y {
        TheOnlyElement(xs, x, y);
      }
    }
  }

  lemma InheritedElements(c: Config, p: Progress, names: seq<Name>)
    requires Steady(c, p) && Defined(c, names) && !SomeAddressGiven(c, names)
    ensures forall n :: n in names && n in p.connected ==>
      c.outstations[n].ip.None? && n in p.given && p.given[n] in Inherited(p, names)
    ensures Inherited(p, names) == {} <==> forall n :: n in names ==> n !in p.connected
  {
    forall n | n in names && n in p.connected
      ensures c.outstations[n].ip.None? && n in p.given && p.given[n] in Inherited(p, names)
    {
    }
  }

  /** Different addresses have been given exactly to outstations that no chain links. */
  lemma TooManyExactly(c: Config, ms: seq<MasterSpec>, names: seq<Name>)
    requires Different(c.addresses) && AddMasters(c, ms).Some?
    requires Defined(c, names) && !SomeAddressGiven(c, names)
    ensures |Inherited(AddMasters(c, ms).value, names)| > 1 <==> JoinsTwo(AddMasters(c, ms).value, names)
  {
    var p := AddMasters(c, ms).value;
    AddMastersSteady(c, ms);
    InheritedElements(c, p, names);
    MoreThanOne(Inherited(p, names));
    if |Inherited(p, names)| > 1 {
      var a, b :| a in Inherited(p, names) && b in Inherited(p, names) && a != b;
      var x :| x in names && x in p.connected && x in p.given && p.given[x] == a;
      var y :| y in names && y in p.connected && y in p.given && p.given[y] == b;
      SameAddressExactly(c, ms, x, y);
    }
    if JoinsTwo(p, names) {
      var x, y :| x in names && x in p.connected && y in names && y in p.connected && !Linked(p.masters, x, y);
      SameAddressExactly(c, ms, x, y);
      assert p.given[x] in Inherited(p, names) && p.given[y] in Inherited(p, names);
    }
  }

  /** A master whose outstations have no address of their own ends the program exactly when it joins two
      chains, or when its outstations need a new address and none is left. */
  lemma RefusedExactly(c: Config, ms: seq<MasterSpec>, names: seq<Name>, taken: nat)
    requires Different(c.addresses) && AddMasters(c, ms).Some?
    requires Defined(c, names) && !SomeAddressGiven(c, names)
    ensures var p := AddMasters(c, ms).value;
      ChooseAddress(c, p, taken, names).None? <==>
        JoinsTwo(p, names) || (taken >= |c.addresses| && forall n :: n in names ==> n !in p.connected)
  {
    var p := AddMasters(c, ms).value;
    AddMastersSteady(c, ms);
    InheritedElements(c, p, names);
    TooManyExactly(c, ms, names);
    SteadyNeverMissesKeys(c, p, names);
    assert |Inherited(p, names)| == 0 <==> Inherited(p, names) == {};
  }
}
