/** From the configuration file to the answered poll: topology, scheduler and server together. */
module ModbusEndToEnd {
  import opened Topology
  import opened PollScheduler
  import opened Answerable
  import ModbusServer
  import DataBlocks
  import BlockSizes

  /**
   In whatever round and at whatever time, every read request that a configured master sends names a
   unit of the server at the address it dials, and that unit has a block of the requested type with
   exactly the requested number of cells.
   */
  lemma EveryRequestIsAnswered(
    c: Config, o: Outcome, m: Master, n: nat, r: Request, s: Server, context: ModbusServer.Context)
    requires IsOutcome(c, o) && o.Built? && m in o.masters
    requires m.polls != map[] && Wanted(r, m.info, Rounds(m.polls, n + 1).trace[|Rounds(m.polls, n + 1).trace| - 1].due)
    requires s in o.servers && s.ip == m.outstationAddr && ModbusServer.Hosts(context, s.datastore)
    ensures context.Lookup(r.unit).Some?
    ensures r.start + r.count == |context.Lookup(r.unit).value.Block(r.kind)|
  {
    PolledBlocksHaveTheSize(c, o, m, r.unit, s, context);
  }

  /**
   And the answer, over any run of the server's threads on that block: if the server replaces the block as
   a whole, as its periodic update does, the request is answered with exactly the requested number of
   cells, all of them from one update, or all from before the first.
   */
  lemma EveryRequestGetsOneUpdate(
    c: Config, o: Outcome, m: Master, n: nat, r: Request, s: Server, context: ModbusServer.Context,
    block: seq<int>, run: seq<DataBlocks.Action>, i: nat)
    requires IsOutcome(c, o) && o.Built? && m in o.masters
    requires m.polls != map[] && Wanted(r, m.info, Rounds(m.polls, n + 1).trace[|Rounds(m.polls, n + 1).trace| - 1].due)
    requires s in o.servers && s.ip == m.outstationAddr && ModbusServer.Hosts(context, s.datastore)
    requires context.Lookup(r.unit).Some? && block == context.Lookup(r.unit).value.Block(r.kind)
    requires BlockSizes.WholeUpdates(run, |block|) && i < |DataBlocks.Run(block, run).returned|
    requires DataBlocks.Run(block, run).returned[i].op == DataBlocks.GetValues(r.start, r.count)
    ensures var answer := DataBlocks.Run(block, run).returned[i].answer;
      && answer.Cells? && |answer.cells| == r.count
      && BlockSizes.IsOneUpdate(block, DataBlocks.Run(block, run).granted, answer.cells)
  {
    assert r.start == 0 && r.count == |block| by {
      EveryRequestIsAnswered(c, o, m, n, r, s, context);
    }
    assert DataBlocks.Run(block, run).returned[i].op == DataBlocks.GetValues(0, |block|);
    BlockSizes.WholeReadsSeeOneUpdate(block, run, i);
  }

  /**
   By name, from the script to the poll: what a script returns under a name, if it fills the block, is what
   the block holds that a poll of that name asks for; otherwise that block is left as it was.
   */
  lemma ScriptValuesReachPolls(
    before: ModbusServer.Slave, after: ModbusServer.Slave, data: map<string, seq<int>>,
    info: map<int, nat>, r: Request, name: string)
    requires r.unit in info && ModbusServer.HasSize(before, info[r.unit])
    requires ModbusServer.Updated(before, after, info[r.unit], data, ModbusServer.ALL_TYPES)
    requires WantedByName(r, info, {name})
    ensures after.Block(r.kind) ==
      if name in data && |data[name]| == info[r.unit] > 0 then data[name] else before.Block(r.kind)
    ensures |after.Block(r.kind)| == r.count
  {
    ModbusServer.UpdatedByName(before, after, info[r.unit], data);
  }
}
