/** The synchronous zone I/O example (examples/zoned_io_sync.c): its `read`, `write`
    and `append` subcommands each pick one zone and move that zone's capacity one
    logical block per command, through a buffer of `zcap * lba_nbytes` bytes.

    A run issues the zone lookup at position 0 (answered by `dev.lookup(0)`) and
    the block command for block `k` at position `1 + k` (answered by `dev.cpl(1 + k)`). */
module ZonedIoSync {
  import opened Nvme

  /** The lookup request that chooses the zone: by the given SLBA, or, when no SLBA
      was given, by the Empty state. The zone it yields is the device's answer. */
  function LookupCmd(slba: Option<nat>): Cmd
  {
    match slba
    case Some(lba) => ZoneLookup(lba)
    case None => ZoneLookupInState(Empty)
  }

  /** The value a subcommand returns for its final `err`: errors are negative, and
      anything else, a positive value included, is reported as success. */
  function Normalise(err: int): (r: int)
    ensures r <= 0
    ensures r < 0 <==> err < 0
    ensures r < 0 ==> r == err
  {
    if err < 0 then err else 0
  }

  /** The size of the buffer that holds a whole zone. */
  function BufferSize(zcap: nat, lbaNbytes: nat): nat
  {
    zcap * lbaNbytes
  }

  /** What a subcommand does with the device `dev`: look the zone up, give up on a
      lookup error, otherwise send one single-block command per block of the zone's
      capacity until the first one fails. A successful read may then dump the buffer,
      whose contents are every block read; `dump` is the result of writing those bytes
      to the output file, when one was given. */
  function ZoneIo(op: IoOp, slba: Option<nat>, lbaNbytes: nat, dump: Option<seq<Byte> -> int>, dev: Device): Outcome
  {
    var found := dev.lookup(0);
    if found.err != 0 then Outcome(Normalise(found.err), [LookupCmd(slba)])
    else
      var zone := found.zone;
      var o := PhaseOutcome(BlockPlan(op, zone.zslba, zone.zcap, lbaNbytes, DataBuffer), dev.cpl, 1);
      var err := if o.ret == 0 && op == ReadOp && dump.Some? then dump.value(Gather(dev.cpl, 1, zone.zcap)) else o.ret;
      Outcome(Normalise(err), [LookupCmd(slba)] + o.issued)
  }

  /** The `read` subcommand: reads the zone into a zero-filled buffer, then dumps it. */
  method SyncRead(slba: Option<nat>, lbaNbytes: nat, dump: Option<seq<Byte> -> int>, dev: Device)
    returns (ret: int, issued: seq<Cmd>)
    requires BlockSized(dev.cpl, lbaNbytes)
    ensures Outcome(ret, issued) == ZoneIo(ReadOp, slba, lbaNbytes, dump, dev)
  {
    var found := dev.lookup(0);
    issued := [LookupCmd(slba)];
    if found.err != 0 {
      return Normalise(found.err), issued;
    }
    var zone := found.zone;
    var buf := new Byte[BufferSize(zone.zcap, lbaNbytes)](_ => 0);
    var err, cmds := ReadBlocks(buf, DataBuffer, zone.zslba, zone.zcap, lbaNbytes, dev.cpl, 1);
    issued := issued + cmds;
    if err == 0 && dump.Some? {
      err := dump.value(buf[..]);
    }
    return Normalise(err), issued;
  }

  /** The `write` subcommand: writes the zone from its first block upward. */
  method SyncWrite(slba: Option<nat>, lbaNbytes: nat, dev: Device) returns (ret: int, issued: seq<Cmd>)
    ensures Outcome(ret, issued) == ZoneIo(WriteOp, slba, lbaNbytes, None, dev)
  {
    var found := dev.lookup(0);
    issued := [LookupCmd(slba)];
    if found.err != 0 {
      return Normalise(found.err), issued;
    }
    var err, cmds := SendBlocks(WriteOp, found.zone.zslba, found.zone.zcap, lbaNbytes, DataBuffer, dev.cpl, 1);
    return Normalise(err), issued + cmds;
  }

  /** The `append` subcommand: appends every block of the buffer to the zone start. */
  method SyncAppend(slba: Option<nat>, lbaNbytes: nat, dev: Device) returns (ret: int, issued: seq<Cmd>)
    ensures Outcome(ret, issued) == ZoneIo(AppendOp, slba, lbaNbytes, None, dev)
  {
    var found := dev.lookup(0);
    issued := [LookupCmd(slba)];
    if found.err != 0 {
      return Normalise(found.err), issued;
    }
    var err, cmds := SendBlocks(AppendOp, found.zone.zslba, found.zone.zcap, lbaNbytes, DataBuffer, dev.cpl, 1);
    return Normalise(err), issued + cmds;
  }

  /** A failed lookup ends the run: nothing but the lookup is sent, and its error is
      returned when negative; a positive one is reported as success. */
  lemma LookupFailureStops(op: IoOp, slba: Option<nat>, lbaNbytes: nat, dump: Option<seq<Byte> -> int>, dev: Device)
    requires dev.lookup(0).err != 0
    ensures ZoneIo(op, slba, lbaNbytes, dump, dev).issued ==
      [if slba.Some? then ZoneLookup(slba.value) else ZoneLookupInState(Empty)]
    ensures dev.lookup(0).err < 0 ==> ZoneIo(op, slba, lbaNbytes, dump, dev).ret == dev.lookup(0).err
    ensures dev.lookup(0).err > 0 ==> ZoneIo(op, slba, lbaNbytes, dump, dev).ret == 0
  {
  }

  /** The commands of a run: the lookup, by the given SLBA or else by the Empty
      state, then at most `zcap` block commands in the zone the device answered. Block
      command `k` moves block `k` of the buffer, which lies inside the buffer and
      before the payload of every later command; reads and writes target `zslba + k`,
      so writes proceed in write-pointer order from the zone start, while every
      append targets `zslba`. */
  lemma ZoneIoCommands(op: IoOp, slba: Option<nat>, lbaNbytes: nat, dump: Option<seq<Byte> -> int>, dev: Device)
    ensures var o := ZoneIo(op, slba, lbaNbytes, dump, dev);
      var zone := dev.lookup(0).zone;
      1 <= |o.issued| <= 1 + zone.zcap &&
      (slba.Some? ==> o.issued[0] == ZoneLookup(slba.value)) &&
      (slba.None? ==> o.issued[0] == ZoneLookupInState(Empty)) &&
      (dev.lookup(0).err != 0 ==> |o.issued| == 1) &&
      (forall k :: 1 <= k < |o.issued| ==>
        o.issued[k] == BlockCmd(op, zone.zslba, k - 1, lbaNbytes, DataBuffer) &&
        Target(o.issued[k]) == (if op == AppendOp then zone.zslba else zone.zslba + (k - 1)) &&
        o.issued[k].payload == Payload(DataBuffer, (k - 1) * lbaNbytes, lbaNbytes) &&
        o.issued[k].payload.ofz + lbaNbytes <= BufferSize(zone.zcap, lbaNbytes)) &&
      (forall j, k :: 1 <= j < k < |o.issued| ==> o.issued[j].payload.ofz + lbaNbytes <= o.issued[k].payload.ofz)
  {
    var o := ZoneIo(op, slba, lbaNbytes, dump, dev);
    var zone := dev.lookup(0).zone;
    if dev.lookup(0).err == 0 {
      var plan := BlockPlan(op, zone.zslba, zone.zcap, lbaNbytes, DataBuffer);
      var m := PhaseIssuedPrefix(plan, dev.cpl, 1);
      assert o.issued == [LookupCmd(slba)] + plan[..m];
      BlockPlanTiles(op, zone.zslba, zone.zcap, lbaNbytes, DataBuffer);
      BlockPlanTargets(op, zone.zslba, zone.zcap, lbaNbytes, DataBuffer);
    }
  }

  /** The run stops at the first block command that fails: the commands before it
      all succeeded, no command after it is sent, and its error is returned when
      negative, with a status-only failure returned as -EIO. */
  lemma ZoneIoStopsAtFirstFailure(op: IoOp, slba: Option<nat>, lbaNbytes: nat, dump: Option<seq<Byte> -> int>, dev: Device, j: nat)
    requires dev.lookup(0).err == 0
    requires j < dev.lookup(0).zone.zcap
    requires forall k :: 0 <= k < j ==>
      !StepFails(BlockCmd(op, dev.lookup(0).zone.zslba, k, lbaNbytes, DataBuffer), dev.cpl(1 + k))
    requires StepFails(BlockCmd(op, dev.lookup(0).zone.zslba, j, lbaNbytes, DataBuffer), dev.cpl(1 + j))
    ensures var o := ZoneIo(op, slba, lbaNbytes, dump, dev);
      var zone := dev.lookup(0).zone;
      o.issued == [LookupCmd(slba)] + BlockPlan(op, zone.zslba, zone.zcap, lbaNbytes, DataBuffer)[..j + 1] &&
      o.ret == Normalise(StepError(BlockCmd(op, zone.zslba, j, lbaNbytes, DataBuffer), dev.cpl(1 + j))) &&
      (dev.cpl(1 + j).err == 0 ==> o.ret == -EIO) &&
      (dev.cpl(1 + j).err < 0 ==> o.ret == dev.cpl(1 + j).err)
  {
    var zone := dev.lookup(0).zone;
    var plan := BlockPlan(op, zone.zslba, zone.zcap, lbaNbytes, DataBuffer);
    forall k | 0 <= k < j
      ensures StepSucceeds(plan, dev.cpl, 1, k)
    {
      assert plan[k] == BlockCmd(op, zone.zslba, k, lbaNbytes, DataBuffer);
    }
    assert plan[j] == BlockCmd(op, zone.zslba, j, lbaNbytes, DataBuffer);
    FirstFailureIs(plan, dev.cpl, 1, j);
  }

  /** When every block command succeeds the whole zone is moved: every command is
      sent, and the run returns 0, except that a read that dumps its buffer returns
      the dump's result, the dumped bytes being the blocks read, in order. */
  lemma ZoneIoCompletes(op: IoOp, slba: Option<nat>, lbaNbytes: nat, dump: Option<seq<Byte> -> int>, dev: Device)
    requires dev.lookup(0).err == 0
    requires forall k :: 0 <= k < dev.lookup(0).zone.zcap ==>
      !StepFails(BlockCmd(op, dev.lookup(0).zone.zslba, k, lbaNbytes, DataBuffer), dev.cpl(1 + k))
    ensures var o := ZoneIo(op, slba, lbaNbytes, dump, dev);
      var zone := dev.lookup(0).zone;
      o.issued == [LookupCmd(slba)] + BlockPlan(op, zone.zslba, zone.zcap, lbaNbytes, DataBuffer) &&
      o.ret == (if op == ReadOp && dump.Some? then Normalise(dump.value(Gather(dev.cpl, 1, zone.zcap))) else 0)
  {
    var zone := dev.lookup(0).zone;
    var plan := BlockPlan(op, zone.zslba, zone.zcap, lbaNbytes, DataBuffer);
    forall k | 0 <= k < zone.zcap
      ensures StepSucceeds(plan, dev.cpl, 1, k)
    {
      assert plan[k] == BlockCmd(op, zone.zslba, k, lbaNbytes, DataBuffer);
    }
    FirstFailureIs(plan, dev.cpl, 1, zone.zcap);
  }

  /** The bytes a read dumps: block `k` of the dumped buffer is what the read of
      `zslba + k` transferred. */
  lemma DumpHoldsZone(lbaNbytes: nat, dev: Device, k: nat)
    requires BlockSized(dev.cpl, lbaNbytes)
    requires k < dev.lookup(0).zone.zcap
    ensures var zone := dev.lookup(0).zone;
      |Gather(dev.cpl, 1, zone.zcap)| == BufferSize(zone.zcap, lbaNbytes) &&
      Gather(dev.cpl, 1, zone.zcap)[k * lbaNbytes .. k * lbaNbytes + lbaNbytes] == dev.cpl(1 + k).data
  {
    GatherLength(dev.cpl, 1, dev.lookup(0).zone.zcap, lbaNbytes);
    GatherBlock(dev.cpl, 1, dev.lookup(0).zone.zcap, lbaNbytes, k);
  }
}
