/**
 The simulated Modbus server of one address (modbusgenerator/outstation.py): the blocks it hosts and
 the periodic update of the blocks of one outstation from its Lua script.
 */
module ModbusServer {
  import opened Wrappers
  import DataBlocks

  datatype DataType = DiscretesInput | Coils | InputRegisters | HoldingRegisters

  const ALL_TYPES := [DiscretesInput, Coils, InputRegisters, HoldingRegisters]

  /** The four blocks of one unit. */
  datatype Slave = Slave(di: seq<int>, co: seq<int>, hr: seq<int>, ir: seq<int>) {
    function Block(d: DataType): seq<int> {
      match d
      case DiscretesInput => di
      case Coils => co
      case InputRegisters => ir
      case HoldingRegisters => hr
    }

    function Write(d: DataType, block: seq<int>): Slave {
      match d
      case DiscretesInput => this.(di := block)
      case Coils => this.(co := block)
      case InputRegisters => this.(ir := block)
      case HoldingRegisters => this.(hr := block)
    }
  }

  /** A server with one unit answers to every unit id. */
  datatype Context = Single(slave: Slave) | PerUnit(slaves: map<int, Slave>) {
    function Lookup(unit: int): Option<Slave> {
      match this
      case Single(slave) => Some(slave)
      case PerUnit(slaves) => if unit in slaves then Some(slaves[unit]) else None
    }

    function Replace(unit: int, s: Slave): Context {
      match this
      case Single(_) => Single(s)
      case PerUnit(slaves) => PerUnit(slaves[unit := s])
    }
  }

  function Zeros(count: nat): seq<int> {
    seq(count, _ => 0)
  }

  function NewSlave(count: nat): Slave {
    Slave(Zeros(count), Zeros(count), Zeros(count), Zeros(count))
  }

  ghost predicate HasSize(s: Slave, count: nat) {
    forall d: DataType :: |s.Block(d)| == count
  }

  /** Every unit of the datastore is hosted, with four blocks of its data count. */
  ghost predicate Hosts(c: Context, datastore: map<int, nat>) {
    forall u :: u in datastore ==> c.Lookup(u).Some? && HasSize(c.Lookup(u).value, datastore[u])
  }

  /** The keys of the table that a script returns. */
  function NameOf(d: DataType): string {
    match d
    case DiscretesInput => "Discretes Input"
    case Coils => "Coils"
    case InputRegisters => "Input Registers"
    case HoldingRegisters => "Holding Registers"
  }

  /** What the Lua script returned for a type is taken only if it fills the block exactly. */
  predicate Accepted(d: DataType, count: nat, data: map<string, seq<int>>) {
    NameOf(d) in data && |data[NameOf(d)]| != 0 && |data[NameOf(d)]| == count
  }

  method AnyOf<T>(xs: set<T>) returns (x: T)
    requires xs != {}
    ensures x in xs
  {
    x :| x in xs;
  }

  lemma TheOnlyKey(m: map<int, nat>, k: int)
    requires |m| == 1 && k in m
    ensures m.Keys == {k}
  {
    assert |m.Keys| == 1;
    DataBlocks.SingletonIs(k, m.Keys);
  }

  /** Exactly the accepted types among `types` have been written, each as a whole. */
  ghost predicate Updated(s: Slave, s': Slave, count: nat, data: map<string, seq<int>>, types: seq<DataType>) {
    forall d: DataType ::
      s'.Block(d) == (if d in types && Accepted(d, count, data) then data[NameOf(d)] else s.Block(d))
  }

  lemma UpdatedStep(s: Slave, s': Slave, count: nat, data: map<string, seq<int>>, types: seq<DataType>, d: DataType)
    requires Updated(s, s', count, data, types) && HasSize(s', count)
    ensures
      var s'' :=
        if Accepted(d, count, data) then s'.Write(d, DataBlocks.Patch(s'.Block(d), 0, data[NameOf(d)])) else s';
      Updated(s, s'', count, data, types + [d]) && HasSize(s'', count)
  {
    if Accepted(d, count, data) {
      var block := DataBlocks.Patch(s'.Block(d), 0, data[NameOf(d)]);
      assert block == data[NameOf(d)];
      forall e: DataType ensures s'.Write(d, block).Block(e) == if e == d then block else s'.Block(e) {
      }
    }
  }

  /** After a whole update: each of the four blocks is what the script returned under its name, if that
      fills it, and otherwise what it was. */
  lemma UpdatedByName(s: Slave, s': Slave, count: nat, data: map<string, seq<int>>)
    requires Updated(s, s', count, data, ALL_TYPES)
    ensures s'.di == if "Discretes Input" in data && |data["Discretes Input"]| == count > 0
                     then data["Discretes Input"] else s.di
    ensures s'.co == if "Coils" in data && |data["Coils"]| == count > 0 then data["Coils"] else s.co
    ensures s'.ir == if "Input Registers" in data && |data["Input Registers"]| == count > 0
                     then data["Input Registers"] else s.ir
    ensures s'.hr == if "Holding Registers" in data && |data["Holding Registers"]| == count > 0
                     then data["Holding Registers"] else s.hr
  {
    InAllTypes(DiscretesInput);
    InAllTypes(Coils);
    InAllTypes(InputRegisters);
    InAllTypes(HoldingRegisters);
    assert s'.Block(DiscretesInput) == s'.di && s'.Block(Coils) == s'.co;
    assert s'.Block(InputRegisters) == s'.ir && s'.Block(HoldingRegisters) == s'.hr;
  }

  lemma InAllTypes(d: DataType)
    ensures d in ALL_TYPES
  {
    assert ALL_TYPES[0] == DiscretesInput && ALL_TYPES[1] == Coils;
    assert ALL_TYPES[2] == InputRegisters && ALL_TYPES[3] == HoldingRegisters;
  }

  /** All four blocks of a fresh unit hold as many zeros as its data count. */
  lemma FreshBlocksHoldZeros(count: nat)
    ensures var s := NewSlave(count);
      && |s.di| == count && |s.co| == count && |s.hr| == count && |s.ir| == count
      && forall i :: 0 <= i < count ==> s.di[i] == 0 && s.co[i] == 0 && s.hr[i] == 0 && s.ir[i] == 0
  {
  }

  /** Replacing the slave of one unit by one of the same size disturbs no other unit. */
  lemma ReplaceHosts(c: Context, datastore: map<int, nat>, unit: int, s: Slave)
    requires Hosts(c, datastore) && unit in datastore && HasSize(s, datastore[unit])
    requires c.Single? ==> datastore.Keys == {unit}
    ensures Hosts(c.Replace(unit, s), datastore)
    ensures c.Replace(unit, s).Lookup(unit) == Some(s)
    ensures forall u :: u in datastore && u != unit ==> c.Replace(unit, s).Lookup(u) == c.Lookup(u)
  {
    forall u | u in datastore
      ensures c.Replace(unit, s).Lookup(u) == if u == unit then Some(s) else c.Lookup(u)
    {
      if u != unit {
        assert u in datastore.Keys;
      }
    }
  }

  class Outstation {
    const datastore: map<int, nat>
    var context: Context

    ghost predicate Valid()
      reads this
    {
      Hosts(context, datastore) && (context.Single? <==> |datastore| == 1)
    }

    constructor (datastore: map<int, nat>)
      ensures this.datastore == datastore && Valid()
      ensures forall u :: u in datastore ==> context.Lookup(u) == Some(NewSlave(datastore[u]))
    {
      this.datastore := datastore;
      context := PerUnit(map[]);
      new;
      BuildStore();
    }

    /** The loop over the items of the datastore, in any order. */
    method BuildStore()
      modifies this
      ensures context.Single? <==> |datastore| == 1
      ensures forall u :: u in datastore ==> context.Lookup(u) == Some(NewSlave(datastore[u]))
    {
      context := PerUnit(map[]);
      var alone := |datastore| == 1;
      var rest := datastore.Keys;
      while rest != {}
        invariant rest <= datastore.Keys
        invariant context.Single? ==> alone
        invariant alone && rest != datastore.Keys ==> context.Single?
        invariant forall u :: u in datastore && u !in rest ==> context.Lookup(u) == Some(NewSlave(datastore[u]))
      {
        var unit := AnyOf(rest);
        if alone {
          TheOnlyKey(datastore, unit);
          context := Single(NewSlave(datastore[unit]));
        } else {
          context := PerUnit(context.slaves[unit := NewSlave(datastore[unit])]);
        }
        rest := rest - {unit};
      }
      assert alone ==> datastore.Keys != {};
    }

    /** One round of `ping_outstation` for the unit of one outstation, with the table that its script
        returned; false when the server does not know the unit. */
    method Ping(unit: int, data: map<string, seq<int>>) returns (known: bool)
      requires Valid() && unit in datastore
      modifies this
      ensures Valid() && known
      ensures Updated(old(context).Lookup(unit).value, context.Lookup(unit).value, datastore[unit], data, ALL_TYPES)
      ensures forall u :: u in datastore && u != unit ==> context.Lookup(u) == old(context).Lookup(u)
    {
      var before := context;
      var slave := before.Lookup(unit);
      if slave.None? {
        return false;
      }
      assert Hosts(before, datastore);
      assert before.Single? ==> datastore.Keys == {unit} by {
        if before.Single? {
          TheOnlyKey(datastore, unit);
        }
      }
      var s := WriteAccepted(slave.value, datastore[unit], data);
      ReplaceHosts(before, datastore, unit, s);
      context := before.Replace(unit, s);
      assert Hosts(context, datastore);
      return true;
    }

    /** The loop over the types of the script's table. */
    method WriteAccepted(slave: Slave, count: nat, data: map<string, seq<int>>) returns (s: Slave)
      requires HasSize(slave, count)
      ensures HasSize(s, count) && Updated(slave, s, count, data, ALL_TYPES)
    {
      s := slave;
      for i := 0 to |ALL_TYPES|
        invariant HasSize(s, count)
        invariant Updated(slave, s, count, data, ALL_TYPES[..i])
      {
        var d := ALL_TYPES[i];
        UpdatedStep(slave, s, count, data, ALL_TYPES[..i], d);
        assert ALL_TYPES[..i + 1] == ALL_TYPES[..i] + [d];
        var name := NameOf(d);
        if name in data && |data[name]| != 0 && |data[name]| == count {
          s := s.Write(d, DataBlocks.Patch(s.Block(d), 0, data[name]));
        }
      }
      assert ALL_TYPES[..|ALL_TYPES|] == ALL_TYPES;
    }
  }
}
