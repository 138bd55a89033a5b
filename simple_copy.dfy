/** The Simple Copy verification tool: the support check over the identify data,
    the validation of the requested block count against the namespace limits,
    the construction of a Source Range Entries Copy Descriptor Format 0 list
    (section 3.2.2 of the NVMe NVM Command Set Specification 1.0) with its
    destination LBA, and the fixed write / write / copy / read / compare run. */
module SimpleCopy {
  import opened Nvme

  /** The controller identify bits the tool looks at: ONCS "copy" and OCFS "copy format 0". */
  datatype Ctrlr = Ctrlr(oncsCopy: bool, ocfsCopyFmt0: bool)

  /** The namespace copy limits: max copy length, zero-based max source range count,
      max single source range length. */
  datatype Ns = Ns(mcl: U32, msrc: U8, mssrl: U16)

  /** The four support requirements, in the order they are checked. */
  datatype Feature = OncsCopy | OcfsCopyFmt0 | NsMcl | NsMssrl

  function Rank(f: Feature): nat
  {
    match f
    case OncsCopy => 0
    case OcfsCopyFmt0 => 1
    case NsMcl => 2
    case NsMssrl => 3
  }

  predicate Provides(ctrlr: Ctrlr, ns: Ns, f: Feature)
  {
    match f
    case OncsCopy => ctrlr.oncsCopy
    case OcfsCopyFmt0 => ctrlr.ocfsCopyFmt0
    case NsMcl => ns.mcl != 0
    case NsMssrl => ns.mssrl != 0
  }

  /** The support verdict and the requirements reported as missing, in report order. */
  datatype SupportVerdict = SupportVerdict(err: int, missing: seq<Feature>)

  /** The "support" subcommand. A missing identify structure fails with `-errno`;
      otherwise each requirement is checked in turn, none stops the others, and
      each one not met is reported and sets the result to `-ENOSYS`. */
  function Support(ctrlr: Option<Ctrlr>, ns: Option<Ns>, errno: int): (v: SupportVerdict)
    ensures ctrlr.None? || ns.None? ==> v == SupportVerdict(-errno, [])
    ensures ctrlr.Some? && ns.Some? ==> (v.err == 0 || v.err == -ENOSYS) && (v.err == 0 <==> v.missing == [])
  {
    if ctrlr.None? || ns.None? then SupportVerdict(-errno, [])
    else
      var c, n := ctrlr.value, ns.value;
      var v1 := if !c.oncsCopy then SupportVerdict(-ENOSYS, [OncsCopy]) else SupportVerdict(0, []);
      var v2 := if !c.ocfsCopyFmt0 then SupportVerdict(-ENOSYS, v1.missing + [OcfsCopyFmt0]) else v1;
      var v3 := if n.mcl == 0 then SupportVerdict(-ENOSYS, v2.missing + [NsMcl]) else v2;
      if n.mssrl == 0 then SupportVerdict(-ENOSYS, v3.missing + [NsMssrl]) else v3
  }

  /** Every requirement is evaluated: the report names exactly the requirements not
      met, each once and in check order, and support is declared exactly when all
      four hold. */
  lemma SupportChecksEveryRequirement(ctrlr: Ctrlr, ns: Ns, errno: int)
    ensures var v := Support(Some(ctrlr), Some(ns), errno);
      (forall f :: f in v.missing <==> !Provides(ctrlr, ns, f)) &&
      (forall i, j :: 0 <= i < j < |v.missing| ==> Rank(v.missing[i]) < Rank(v.missing[j])) &&
      (v.err == 0 <==> forall f :: Provides(ctrlr, ns, f))
  {
    var v := Support(Some(ctrlr), Some(ns), errno);
    forall f
      ensures f in v.missing <==> !Provides(ctrlr, ns, f)
    {
      match f
      case OncsCopy =>
      case OcfsCopyFmt0 =>
      case NsMcl =>
      case NsMssrl =>
    }
    if v.err == 0 {
      forall f
        ensures Provides(ctrlr, ns, f)
      {
        assert f !in v.missing;
      }
    } else {
      assert v.missing[0] in v.missing;
    }
  }

  /** The check of the requested number of single-block ranges `tlbas` against the
      namespace: at least one, at most `mcl` blocks, at most `msrc + 1` ranges
      (`msrc` is widened to 64 bits before the `+ 1`, so it cannot wrap). */
  function CheckCount(tlbas: U64, ns: Ns): (r: int)
    ensures r == 0 || r == -EINVAL
    ensures r == 0 <==> 1 <= tlbas && tlbas <= ns.mcl && tlbas <= ns.msrc + 1
  {
    if tlbas == 0 then -EINVAL
    else if tlbas > ns.mcl then -EINVAL
    else if tlbas > ns.msrc + 1 then -EINVAL
    else 0
  }

  /** The "scopy" subcommand asks for one block: it passes exactly when `mcl` is non-zero. */
  lemma SingleBlockCount(ns: Ns)
    ensures CheckCount(1, ns) == 0 <==> ns.mcl != 0
  {
  }

  /** The "scopy-msrc" subcommand asks for `msrc + 1` blocks, exactly the range-count
      bound: it passes exactly when `mcl` allows that many blocks, and one more range
      than that, or one more block than `mcl`, is always refused. */
  lemma MsrcBoundaryCount(ns: Ns)
    ensures CheckCount(ns.msrc + 1, ns) == 0 <==> ns.msrc + 1 <= ns.mcl
    ensures CheckCount(ns.msrc + 2, ns) == -EINVAL
    ensures CheckCount(ns.mcl + 1, ns) == -EINVAL
  {
  }

  /** The range the tool builds in a cleared structure of `capacity` entries:
      entry `i` is the single block at LBA `i` for `i < tlbas`, the rest stay zero. */
  function RangeEntries(tlbas: nat, capacity: nat): seq<SourceRangeEntry>
  {
    seq(capacity, i requires 0 <= i => if i < tlbas then SourceRangeEntry(i, 0) else SourceRangeEntry(0, 0))
  }

  /** Fills the first `tlbas` entries of the source range in place. The loop does no
      bound check of its own: the structure must have room for `tlbas` entries. */
  method BuildRange(entry: array<SourceRangeEntry>, tlbas: nat)
    requires tlbas <= entry.Length
    modifies entry
    ensures forall i :: 0 <= i < tlbas ==> entry[i] == SourceRangeEntry(i, 0)
    ensures forall i :: tlbas <= i < entry.Length ==> entry[i] == old(entry[i])
  {
    var ridx := 0;
    while ridx < tlbas
      invariant ridx <= tlbas
      invariant forall i :: 0 <= i < ridx ==> entry[i] == SourceRangeEntry(i, 0)
      invariant forall i :: ridx <= i < entry.Length ==> entry[i] == old(entry[i])
    {
      entry[ridx] := SourceRangeEntry(ridx, 0);
      ridx := ridx + 1;
    }
  }

  /** The zero-based range count, stored in an 8-bit variable. */
  function RangeCount(tlbas: nat): (nr: U8)
    requires 1 <= tlbas
    ensures nr <= tlbas - 1
    ensures nr == tlbas - 1 <==> tlbas <= 0x100
  {
    (tlbas - 1) % 0x100
  }

  /** The destination: one past the last block of the last range. */
  function DestinationLba(entries: seq<SourceRangeEntry>, nr: nat): nat
    requires nr < |entries|
  {
    entries[nr].slba + entries[nr].nlb + 1
  }

  /** Number of blocks covered by the ranges `entries`. */
  function TotalBlocks(entries: seq<SourceRangeEntry>): nat
  {
    if entries == [] then 0 else TotalBlocks(entries[..|entries| - 1]) + entries[|entries| - 1].nlb + 1
  }

  /** The limits a Copy command's source ranges must respect: at most `msrc + 1`
      ranges, at most `mcl` blocks in all, at most `mssrl` blocks per range. */
  ghost predicate WithinCopyLimits(entries: seq<SourceRangeEntry>, nr: nat, ns: Ns)
  {
    nr < |entries| && nr + 1 <= ns.msrc + 1 && TotalBlocks(entries[..nr + 1]) <= ns.mcl &&
    forall i :: 0 <= i <= nr ==> entries[i].nlb + 1 <= ns.mssrl
  }

  lemma {:induction false} SingleBlockRangesTotal(entries: seq<SourceRangeEntry>)
    requires forall i :: 0 <= i < |entries| ==> entries[i].nlb == 0
    ensures TotalBlocks(entries) == |entries|
    decreases |entries|
  {
    if entries != [] {
      SingleBlockRangesTotal(entries[..|entries| - 1]);
    }
  }

  /** An accepted count yields a range of `tlbas` single-block entries, numbered
      `nr = tlbas - 1` without truncation, whose destination `tlbas` lies just past
      every source block: source `[0, tlbas)` and destination `[tlbas, 2 * tlbas)`
      do not overlap. */
  lemma DestinationFollowsSources(tlbas: U64, capacity: nat, ns: Ns)
    requires CheckCount(tlbas, ns) == 0 && tlbas <= capacity
    ensures RangeCount(tlbas) == tlbas - 1
    ensures DestinationLba(RangeEntries(tlbas, capacity), RangeCount(tlbas)) == tlbas
    ensures forall i :: 0 <= i < tlbas ==>
      RangeEntries(tlbas, capacity)[i].slba + RangeEntries(tlbas, capacity)[i].nlb < tlbas
  {
  }

  /** With an accepted count the built range respects the Copy limits, provided
      `mssrl` is non-zero: the tool never checks `mssrl` itself. */
  lemma BuiltRangeWithinLimits(tlbas: U64, capacity: nat, ns: Ns)
    requires CheckCount(tlbas, ns) == 0 && tlbas <= capacity
    requires ns.mssrl != 0
    ensures WithinCopyLimits(RangeEntries(tlbas, capacity), RangeCount(tlbas), ns)
  {
    var entries := RangeEntries(tlbas, capacity);
    assert entries[..tlbas] == entries[..RangeCount(tlbas) + 1];
    SingleBlockRangesTotal(entries[..tlbas]);
  }

  /** The count check alone does not keep the range within `mssrl`. */
  lemma MssrlNotChecked()
    ensures CheckCount(1, Ns(1, 0, 0)) == 0
    ensures !WithinCopyLimits(RangeEntries(1, 1), RangeCount(1), Ns(1, 0, 0))
  {
  }

  /** The copy step: one synchronous Copy, or, asynchronously, a context of depth 2,
      the Copy submitted through it, and a wait for its completion. */
  function CopySteps(sdlba: nat, entries: seq<SourceRangeEntry>, nr: nat, mode: Mode): seq<Cmd>
  {
    match mode
    case Sync => [Copy(sdlba, entries, nr, Sync)]
    case Async => [AsyncInit(2), Copy(sdlba, entries, nr, Async), AsyncWait]
  }

  /** The teardown that follows a failed asynchronous copy or wait. */
  function Cleanup(cmd: Cmd): seq<Cmd>
  {
    if cmd.AsyncWait? || (cmd.Copy? && cmd.mode == Async) then [AsyncTerm] else []
  }

  /** The copy step run from position `base`: it stops at its first failure and, when
      a context was created, tears it down. A context that served a successful copy
      is left as it is. */
  function CopyOutcome(sdlba: nat, entries: seq<SourceRangeEntry>, nr: nat, mode: Mode,
                       cpl: nat -> Completion, base: nat): Outcome
  {
    WithCleanup(PhaseOutcome(CopySteps(sdlba, entries, nr, mode), cpl, base))
  }

  /** A failed phase followed by the teardown its last command calls for. */
  function WithCleanup(o: Outcome): Outcome
  {
    if o.ret != 0 && o.issued != [] then Outcome(o.ret, o.issued + Cleanup(o.issued[|o.issued| - 1])) else o
  }

  /** Everything the run sends when nothing fails: `tlbas` single-block writes of the
      data buffer to the source blocks, `tlbas` writes of the zeroed verification
      buffer to the destination blocks, the copy step, then `tlbas` reads of the
      destination blocks back into the verification buffer. */
  function ScopyPlan(tlbas: nat, lbaNbytes: nat, capacity: nat, mode: Mode): seq<Cmd>
    requires 1 <= tlbas <= capacity
  {
    var entries := RangeEntries(tlbas, capacity);
    var nr := RangeCount(tlbas);
    var sdlba := DestinationLba(entries, nr);
    BlockPlan(WriteOp, 0, tlbas, lbaNbytes, DataBuffer)
    + (BlockPlan(WriteOp, sdlba, tlbas, lbaNbytes, VerifyBuffer)
    + (CopySteps(sdlba, entries, nr, mode)
    + BlockPlan(ReadOp, sdlba, tlbas, lbaNbytes, VerifyBuffer)))
  }

  /** Position of the first destination read in the plan. */
  function ReadBase(tlbas: nat, mode: Mode): nat
  {
    2 * tlbas + if mode == Sync then 1 else 3
  }

  /** The final comparison: the run succeeds exactly when the bytes the destination
      reads transferred, in order, equal the `tlbas * lbaNbytes` bytes of the filled
      data buffer. */
  function Verdict(fill: nat -> seq<Byte>, tlbas: nat, lbaNbytes: nat, cpl: nat -> Completion, base: nat): Outcome
  {
    Outcome(if fill(tlbas * lbaNbytes) == Gather(cpl, base, tlbas) then 0 else -EIO, [])
  }

  /** Phase `p` run from position `base` to its first failure, with the teardown that
      failure calls for, followed by `next` when the phase succeeds. */
  function Stage(p: seq<Cmd>, cpl: nat -> Completion, base: nat, next: Outcome): Outcome
  {
    Then(WithCleanup(PhaseOutcome(p, cpl, base)), next)
  }

  /** The destination reads, then, when they all succeed, the comparison. */
  function ReadOnward(sdlba: nat, tlbas: nat, lbaNbytes: nat, mode: Mode,
                      fill: nat -> seq<Byte>, cpl: nat -> Completion): Outcome
  {
    Stage(BlockPlan(ReadOp, sdlba, tlbas, lbaNbytes, VerifyBuffer), cpl, ReadBase(tlbas, mode),
          Verdict(fill, tlbas, lbaNbytes, cpl, ReadBase(tlbas, mode)))
  }

  /** The copy step, then, when it succeeds, the reads and the comparison. */
  function CopyOnward(sdlba: nat, entries: seq<SourceRangeEntry>, nr: nat, tlbas: nat, lbaNbytes: nat, mode: Mode,
                      fill: nat -> seq<Byte>, cpl: nat -> Completion): Outcome
  {
    Stage(CopySteps(sdlba, entries, nr, mode), cpl, 2 * tlbas, ReadOnward(sdlba, tlbas, lbaNbytes, mode, fill, cpl))
  }

  /** The four phases of a run with an accepted count, each run only when the one
      before succeeded: source writes, destination writes, copy, reads and comparison. */
  function ScopyPhases(tlbas: nat, lbaNbytes: nat, capacity: nat, mode: Mode,
                       fill: nat -> seq<Byte>, cpl: nat -> Completion): Outcome
    requires 1 <= tlbas <= capacity
  {
    var entries := RangeEntries(tlbas, capacity);
    var nr := RangeCount(tlbas);
    var sdlba := DestinationLba(entries, nr);
    Stage(BlockPlan(WriteOp, 0, tlbas, lbaNbytes, DataBuffer), cpl, 0,
    Stage(BlockPlan(WriteOp, sdlba, tlbas, lbaNbytes, VerifyBuffer), cpl, tlbas,
          CopyOnward(sdlba, entries, nr, tlbas, lbaNbytes, mode, fill, cpl)))
  }

  /** What the run returns and sends: a missing namespace identify structure or a
      refused count ends it before any command; otherwise the phases run. */
  function ScopyOutcome(ns: Option<Ns>, errno: int, tlbas: U64, lbaNbytes: nat, capacity: nat, mode: Mode,
                        fill: nat -> seq<Byte>, cpl: nat -> Completion): Outcome
    requires ns.Some? && CheckCount(tlbas, ns.value) == 0 ==> tlbas <= capacity
  {
    if ns.None? then Outcome(-errno, [])
    else if CheckCount(tlbas, ns.value) != 0 then Outcome(CheckCount(tlbas, ns.value), [])
    else ScopyPhases(tlbas, lbaNbytes, capacity, mode, fill, cpl)
  }

  /** Writes the data buffer to the source blocks named by the range, one block per command. */
  method WriteSourceBlocks(entry: array<SourceRangeEntry>, tlbas: nat, lbaNbytes: nat, cpl: nat -> Completion, base: nat)
    returns (err: int, cmds: seq<Cmd>)
    requires tlbas <= entry.Length
    requires forall i :: 0 <= i < tlbas ==> entry[i] == SourceRangeEntry(i, 0)
    ensures Outcome(err, cmds) == PhaseOutcome(BlockPlan(WriteOp, 0, tlbas, lbaNbytes, DataBuffer), cpl, base)
  {
    ghost var plan := BlockPlan(WriteOp, 0, tlbas, lbaNbytes, DataBuffer);
    cmds := [];
    var i := 0;
    while i < tlbas
      invariant i <= tlbas
      invariant cmds == plan[..i]
      invariant forall k :: 0 <= k < i ==> StepSucceeds(plan, cpl, base, k)
    {
      var ofz := i * lbaNbytes;
      var c := cpl(base + i);
      var cmd := Write(entry[i].slba, entry[i].nlb, Payload(DataBuffer, ofz, lbaNbytes));
      assert cmd == plan[i];
      cmds := cmds + [cmd];
      if c.err != 0 || c.status != 0 {
        PhaseStopsAt(plan, cpl, base, i);
        return if c.err != 0 then c.err else -EIO, cmds;
      }
      assert StepSucceeds(plan, cpl, base, i);
      i := i + 1;
    }
    PhaseCompletes(plan, cpl, base);
    return 0, cmds;
  }

  /** Sends the copy, synchronously, or through a context created for it and waited on. */
  method CopyStep(sdlba: nat, entries: seq<SourceRangeEntry>, nr: nat, mode: Mode, cpl: nat -> Completion, base: nat)
    returns (err: int, cmds: seq<Cmd>)
    ensures Outcome(err, cmds) == CopyOutcome(sdlba, entries, nr, mode, cpl, base)
  {
    if mode == Sync {
      err, cmds := SyncCopy(sdlba, entries, nr, cpl, base);
    } else {
      err, cmds := AsyncCopy(sdlba, entries, nr, cpl, base);
    }
  }

  /** The copy submitted synchronously: a submission error or a non-zero completion status fails it. */
  method SyncCopy(sdlba: nat, entries: seq<SourceRangeEntry>, nr: nat, cpl: nat -> Completion, base: nat)
    returns (err: int, cmds: seq<Cmd>)
    ensures Outcome(err, cmds) == CopyOutcome(sdlba, entries, nr, Sync, cpl, base)
  {
    ghost var plan := CopySteps(sdlba, entries, nr, Sync);
    var c := cpl(base);
    cmds := [Copy(sdlba, entries, nr, Sync)];
    if c.err != 0 || c.status != 0 {
      FirstFailureIs(plan, cpl, base, 0);
      return if c.err != 0 then c.err else -EIO, cmds;
    }
    assert StepSucceeds(plan, cpl, base, 0);
    FirstFailureIs(plan, cpl, base, 1);
    return 0, cmds;
  }

  /** The copy submitted through a context of depth 2 and waited on; the context is
      torn down after a failed submission or wait. */
  method AsyncCopy(sdlba: nat, entries: seq<SourceRangeEntry>, nr: nat, cpl: nat -> Completion, base: nat)
    returns (err: int, cmds: seq<Cmd>)
    ensures Outcome(err, cmds) == CopyOutcome(sdlba, entries, nr, Async, cpl, base)
  {
    ghost var plan := CopySteps(sdlba, entries, nr, Async);
    var c := cpl(base);
    cmds := [AsyncInit(2)];
    if c.err != 0 {
      FirstFailureIs(plan, cpl, base, 0);
      return c.err, cmds;
    }
    assert StepSucceeds(plan, cpl, base, 0);
    c := cpl(base + 1);
    cmds := cmds + [Copy(sdlba, entries, nr, Async)];
    if c.err != 0 {
      FirstFailureIs(plan, cpl, base, 1);
      return c.err, cmds + [AsyncTerm];
    }
    assert StepSucceeds(plan, cpl, base, 1);
    c := cpl(base + 2);
    cmds := cmds + [AsyncWait];
    if c.err < 0 {
      FirstFailureIs(plan, cpl, base, 2);
      return c.err, cmds + [AsyncTerm];
    }
    assert StepSucceeds(plan, cpl, base, 2);
    FirstFailureIs(plan, cpl, base, 3);
    return 0, cmds;
  }

  /** The copy helper (`_scopy_helper`). `fill(n)` is the content the "anum" fill
      gives an `n`-byte buffer; `mode` is `Sync` when the tool runs with `--clear`;
      the source-range structure has `capacity` entries. */
  method ScopyHelper(ns: Option<Ns>, errno: int, tlbas: U64, lbaNbytes: nat, capacity: nat, mode: Mode,
                     fill: nat -> seq<Byte>, dev: Device) returns (ret: int, issued: seq<Cmd>)
    requires BlockSized(dev.cpl, lbaNbytes)
    requires ns.Some? && CheckCount(tlbas, ns.value) == 0 ==>
      tlbas <= capacity && |fill(tlbas * lbaNbytes)| == tlbas * lbaNbytes
    ensures Outcome(ret, issued) == ScopyOutcome(ns, errno, tlbas, lbaNbytes, capacity, mode, fill, dev.cpl)
  {
    if ns.None? {
      return -errno, [];
    }
    var n := ns.value;
    if tlbas == 0 {
      return -EINVAL, [];
    }
    if tlbas > n.mcl {
      return -EINVAL, [];
    }
    if tlbas > n.msrc + 1 {
      return -EINVAL, [];
    }

    ret, issued := RunPhases(tlbas, lbaNbytes, capacity, mode, fill, dev);
  }

  /** The source range in a cleared structure of `capacity` entries, its zero-based
      count and the destination LBA derived from its last entry. */
  method PrepareRange(tlbas: nat, capacity: nat) returns (entry: array<SourceRangeEntry>, nr: U8, sdlba: nat)
    requires 1 <= tlbas <= capacity
    ensures fresh(entry)
    ensures entry[..] == RangeEntries(tlbas, capacity)
    ensures nr == RangeCount(tlbas) && sdlba == DestinationLba(entry[..], nr)
  {
    entry := new SourceRangeEntry[capacity](_ => SourceRangeEntry(0, 0));
    BuildRange(entry, tlbas);
    nr := RangeCount(tlbas);
    sdlba := entry[nr].slba + entry[nr].nlb + 1;
    assert entry[..] == RangeEntries(tlbas, capacity);
  }

  /** The part of the copy helper after the count is accepted: set up the range and
      the buffers, write the source blocks, then go on with the destination. */
  method RunPhases(tlbas: nat, lbaNbytes: nat, capacity: nat, mode: Mode,
                   fill: nat -> seq<Byte>, dev: Device) returns (ret: int, issued: seq<Cmd>)
    requires BlockSized(dev.cpl, lbaNbytes)
    requires 1 <= tlbas <= capacity && |fill(tlbas * lbaNbytes)| == tlbas * lbaNbytes
    ensures Outcome(ret, issued) == ScopyPhases(tlbas, lbaNbytes, capacity, mode, fill, dev.cpl)
  {
    var entry, nr, sdlba := PrepareRange(tlbas, capacity);
    // The two verification buffers: the filled data buffer and the zeroed one.
    var bufNbytes := tlbas * lbaNbytes;
    var dbuf := fill(bufNbytes);
    var vbuf := new Byte[bufNbytes](_ => 0);

    BlockPlanNeedsNoTeardown(WriteOp, 0, tlbas, lbaNbytes, DataBuffer, dev.cpl, 0);
    var err, cmds := WriteSourceBlocks(entry, tlbas, lbaNbytes, dev.cpl, 0);
    if err != 0 {
      return err, cmds;
    }
    var rest;
    ret, rest := DestinationOnward(vbuf, dbuf, sdlba, entry[..], nr, tlbas, lbaNbytes, mode, fill, dev.cpl);
    issued := cmds + rest;
  }

  /** The run from the destination writes on, each phase only after the one before succeeded. */
  method DestinationOnward(vbuf: array<Byte>, dbuf: seq<Byte>, sdlba: nat, entries: seq<SourceRangeEntry>, nr: nat,
                           tlbas: nat, lbaNbytes: nat, mode: Mode, fill: nat -> seq<Byte>, cpl: nat -> Completion)
    returns (ret: int, issued: seq<Cmd>)
    requires BlockSized(cpl, lbaNbytes)
    requires vbuf.Length == tlbas * lbaNbytes && dbuf == fill(tlbas * lbaNbytes)
    modifies vbuf
    ensures Outcome(ret, issued) ==
      Stage(BlockPlan(WriteOp, sdlba, tlbas, lbaNbytes, VerifyBuffer), cpl, tlbas,
            CopyOnward(sdlba, entries, nr, tlbas, lbaNbytes, mode, fill, cpl))
  {
    BlockPlanNeedsNoTeardown(WriteOp, sdlba, tlbas, lbaNbytes, VerifyBuffer, cpl, tlbas);
    var err, cmds := SendBlocks(WriteOp, sdlba, tlbas, lbaNbytes, VerifyBuffer, cpl, tlbas);
    if err != 0 {
      return err, cmds;
    }
    var rest;
    ret, rest := CopyThenVerify(vbuf, dbuf, sdlba, entries, nr, tlbas, lbaNbytes, mode, fill, cpl);
    issued := cmds + rest;
  }

  /** The run from the copy step on. */
  method CopyThenVerify(vbuf: array<Byte>, dbuf: seq<Byte>, sdlba: nat, entries: seq<SourceRangeEntry>, nr: nat,
                        tlbas: nat, lbaNbytes: nat, mode: Mode, fill: nat -> seq<Byte>, cpl: nat -> Completion)
    returns (ret: int, issued: seq<Cmd>)
    requires BlockSized(cpl, lbaNbytes)
    requires vbuf.Length == tlbas * lbaNbytes && dbuf == fill(tlbas * lbaNbytes)
    modifies vbuf
    ensures Outcome(ret, issued) == CopyOnward(sdlba, entries, nr, tlbas, lbaNbytes, mode, fill, cpl)
  {
    var err, cmds := CopyStep(sdlba, entries, nr, mode, cpl, 2 * tlbas);
    if err != 0 {
      return err, cmds;
    }
    var rest;
    ret, rest := ReadBackAndCompare(vbuf, dbuf, sdlba, tlbas, lbaNbytes, mode, fill, cpl);
    issued := cmds + rest;
  }

  /** The destination reads followed by the comparison with the data buffer. */
  method ReadBackAndCompare(vbuf: array<Byte>, dbuf: seq<Byte>, sdlba: nat,
                            tlbas: nat, lbaNbytes: nat, mode: Mode, fill: nat -> seq<Byte>, cpl: nat -> Completion)
    returns (ret: int, issued: seq<Cmd>)
    requires BlockSized(cpl, lbaNbytes)
    requires vbuf.Length == tlbas * lbaNbytes && dbuf == fill(tlbas * lbaNbytes)
    modifies vbuf
    ensures Outcome(ret, issued) == ReadOnward(sdlba, tlbas, lbaNbytes, mode, fill, cpl)
  {
    BlockPlanNeedsNoTeardown(ReadOp, sdlba, tlbas, lbaNbytes, VerifyBuffer, cpl, ReadBase(tlbas, mode));
    var err;
    err, issued := ReadBlocks(vbuf, VerifyBuffer, sdlba, tlbas, lbaNbytes, cpl, ReadBase(tlbas, mode));
    if err != 0 {
      return err, issued;
    }
    if dbuf != vbuf[..] {
      return -EIO, issued;
    }
    return 0, issued;
  }

  /** The "scopy" subcommand: copy one block. */
  method Scopy(ns: Option<Ns>, errno: int, lbaNbytes: nat, capacity: nat, mode: Mode,
               fill: nat -> seq<Byte>, dev: Device) returns (ret: int, issued: seq<Cmd>)
    requires BlockSized(dev.cpl, lbaNbytes)
    requires ns.Some? && CheckCount(1, ns.value) == 0 ==> 1 <= capacity && |fill(lbaNbytes)| == lbaNbytes
    ensures Outcome(ret, issued) == ScopyOutcome(ns, errno, 1, lbaNbytes, capacity, mode, fill, dev.cpl)
  {
    ret, issued := ScopyHelper(ns, errno, 1, lbaNbytes, capacity, mode, fill, dev);
  }

  /** The "scopy-msrc" subcommand: copy as many single-block ranges as the namespace
      allows, `msrc + 1`, after fetching the namespace identify structure itself. */
  method ScopyMsrc(ns: Option<Ns>, errno: int, lbaNbytes: nat, capacity: nat, mode: Mode,
                   fill: nat -> seq<Byte>, dev: Device) returns (ret: int, issued: seq<Cmd>)
    requires BlockSized(dev.cpl, lbaNbytes)
    requires ns.Some? && CheckCount(ns.value.msrc + 1, ns.value) == 0 ==>
      ns.value.msrc + 1 <= capacity && |fill((ns.value.msrc + 1) * lbaNbytes)| == (ns.value.msrc + 1) * lbaNbytes
    ensures ns.None? ==> ret == -errno && issued == []
    ensures ns.Some? ==>
      Outcome(ret, issued) == ScopyOutcome(ns, errno, ns.value.msrc + 1, lbaNbytes, capacity, mode, fill, dev.cpl)
  {
    if ns.None? {
      return -errno, [];
    }
    ret, issued := ScopyHelper(ns, errno, ns.value.msrc + 1, lbaNbytes, capacity, mode, fill, dev);
  }

  /** A missing namespace identify structure or a refused count ends the run before
      any buffer is allocated or any command is sent. */
  lemma ScopyRefusesBeforeAnyCommand(ns: Option<Ns>, errno: int, tlbas: U64, lbaNbytes: nat, capacity: nat, mode: Mode,
                                     fill: nat -> seq<Byte>, cpl: nat -> Completion)
    requires ns.None? || CheckCount(tlbas, ns.value) != 0
    ensures ScopyOutcome(ns, errno, tlbas, lbaNbytes, capacity, mode, fill, cpl).issued == []
    ensures ScopyOutcome(ns, errno, tlbas, lbaNbytes, capacity, mode, fill, cpl).ret ==
      if ns.None? then -errno else -EINVAL
  {
  }

  /** Reference semantics of a run: `plan` sent from position `base` up to and
      including its first failing step, whose error is returned, followed by the
      teardown that step calls for; when no step fails, the whole plan and the result
      of the final check `v`. */
  ghost function StoppedRun(plan: seq<Cmd>, cpl: nat -> Completion, base: nat, v: Outcome): Outcome
  {
    var j := FirstFailure(plan, cpl, base);
    if j < |plan| then Outcome(StepError(plan[j], cpl(base + j)), plan[..j + 1] + Cleanup(plan[j]))
    else Outcome(v.ret, plan)
  }

  /** A phase that needs no teardown after any of its commands is its own cleaned-up run. */
  lemma NoTeardownNeeded(p: seq<Cmd>, cpl: nat -> Completion, base: nat)
    requires forall x :: x in p ==> Cleanup(x) == []
    ensures WithCleanup(PhaseOutcome(p, cpl, base)) == PhaseOutcome(p, cpl, base)
  {
    var o := PhaseOutcome(p, cpl, base);
    if o.ret != 0 {
      assert o.issued[|o.issued| - 1] in p;
    }
  }

  /** A run of single-block reads or writes never calls for a teardown. */
  lemma BlockPlanNeedsNoTeardown(op: IoOp, slba: nat, n: nat, lbaNbytes: nat, buf: BufferName,
                                 cpl: nat -> Completion, base: nat)
    ensures var p := BlockPlan(op, slba, n, lbaNbytes, buf);
      WithCleanup(PhaseOutcome(p, cpl, base)) == PhaseOutcome(p, cpl, base)
  {
    var p := BlockPlan(op, slba, n, lbaNbytes, buf);
    forall x | x in p
      ensures Cleanup(x) == []
    {
      var k :| 0 <= k < |p| && p[k] == x;
    }
    NoTeardownNeeded(p, cpl, base);
  }

  /** The last phase, followed by the final check, stops at its first failure. */
  lemma LastPhaseStops(p: seq<Cmd>, cpl: nat -> Completion, base: nat, v: Outcome)
    requires v.issued == []
    ensures Stage(p, cpl, base, v) == StoppedRun(p, cpl, base, v)
  {
  }

  /** Putting a phase in front of a run that stops at its first failure gives a run of
      the concatenated plans that stops at its first failure. */
  lemma PrependPhase(p: seq<Cmd>, q: seq<Cmd>, cpl: nat -> Completion, base: nat, next: nat, rest: Outcome, v: Outcome)
    requires next == base + |p|
    requires rest == StoppedRun(q, cpl, next, v)
    ensures Stage(p, cpl, base, rest) == StoppedRun(p + q, cpl, base, v)
  {
    FirstFailureConcat(p, q, cpl, base);
    var i := FirstFailure(p, cpl, base);
    if i < |p| {
      StageStopsInFirst(p, q, cpl, base, rest, v, i);
    } else {
      var k := FirstFailure(q, cpl, next);
      if k < |q| {
        StageStopsInSecond(p, q, cpl, base, next, rest, v, k);
      }
    }
  }

  /** The first failure lies in `p`. */
  lemma StageStopsInFirst(p: seq<Cmd>, q: seq<Cmd>, cpl: nat -> Completion, base: nat, rest: Outcome, v: Outcome, i: nat)
    requires i == FirstFailure(p, cpl, base) && i < |p|
    requires FirstFailure(p + q, cpl, base) == i
    ensures Stage(p, cpl, base, rest) == StoppedRun(p + q, cpl, base, v)
  {
    var e := StepError(p[i], cpl(base + i));
    assert p[..i + 1][i] == p[i];
    assert Stage(p, cpl, base, rest) == Outcome(e, p[..i + 1] + Cleanup(p[i]));
    assert (p + q)[i] == p[i];
    assert (p + q)[..i + 1] == p[..i + 1];
  }

  /** Every step of `p` succeeds and the first failure lies in `q`. */
  lemma StageStopsInSecond(p: seq<Cmd>, q: seq<Cmd>, cpl: nat -> Completion, base: nat, next: nat, rest: Outcome, v: Outcome, k: nat)
    requires next == base + |p|
    requires rest == StoppedRun(q, cpl, next, v)
    requires FirstFailure(p, cpl, base) == |p|
    requires k == FirstFailure(q, cpl, next) && k < |q|
    requires FirstFailure(p + q, cpl, base) == |p| + k
    ensures Stage(p, cpl, base, rest) == StoppedRun(p + q, cpl, base, v)
  {
    var tail := q[..k + 1] + Cleanup(q[k]);
    assert rest == Outcome(StepError(q[k], cpl(next + k)), tail);
    assert Stage(p, cpl, base, rest) == Outcome(rest.ret, p + tail);
    assert (p + q)[|p| + k] == q[k];
    assert base + (|p| + k) == next + k;
    assert p + tail == (p + q)[..|p| + k + 1] + Cleanup(q[k]);
  }

  /** Four phases run one after the other, each followed by the teardown its failure
      calls for, are the concatenated plan stopped at its first failing step. */
  lemma FourStagesStop(src: seq<Cmd>, dst: seq<Cmd>, cp: seq<Cmd>, rd: seq<Cmd>, cpl: nat -> Completion,
                       b0: nat, b1: nat, b2: nat, b3: nat, v: Outcome)
    requires b1 == b0 + |src| && b2 == b1 + |dst| && b3 == b2 + |cp|
    requires v.issued == []
    ensures Stage(src, cpl, b0, Stage(dst, cpl, b1, Stage(cp, cpl, b2, Stage(rd, cpl, b3, v)))) ==
            StoppedRun(src + (dst + (cp + rd)), cpl, b0, v)
  {
    var fromRead := Stage(rd, cpl, b3, v);
    LastPhaseStops(rd, cpl, b3, v);
    var fromCopy := Stage(cp, cpl, b2, fromRead);
    PrependPhase(cp, rd, cpl, b2, b3, fromRead, v);
    var fromDst := Stage(dst, cpl, b1, fromCopy);
    PrependPhase(dst, cp + rd, cpl, b1, b2, fromCopy, v);
    PrependPhase(src, dst + (cp + rd), cpl, b0, b1, fromDst, v);
  }

  /** The run is the whole plan stopped at its first failing step: that step's error,
      the steps up to and including it, and the context teardown when the step was
      the asynchronous copy or the wait. When no step fails the whole plan has been
      sent and the result is the comparison's. */
  lemma ScopyFollowsPlan(ns: Ns, errno: int, tlbas: U64, lbaNbytes: nat, capacity: nat, mode: Mode,
                         fill: nat -> seq<Byte>, cpl: nat -> Completion)
    requires CheckCount(tlbas, ns) == 0 && tlbas <= capacity
    ensures ScopyOutcome(Some(ns), errno, tlbas, lbaNbytes, capacity, mode, fill, cpl) ==
            StoppedRun(ScopyPlan(tlbas, lbaNbytes, capacity, mode), cpl, 0,
                       Verdict(fill, tlbas, lbaNbytes, cpl, ReadBase(tlbas, mode)))
  {
    var entries := RangeEntries(tlbas, capacity);
    var nr := RangeCount(tlbas);
    var sdlba := DestinationLba(entries, nr);
    var src := BlockPlan(WriteOp, 0, tlbas, lbaNbytes, DataBuffer);
    var dst := BlockPlan(WriteOp, sdlba, tlbas, lbaNbytes, VerifyBuffer);
    var cp := CopySteps(sdlba, entries, nr, mode);
    var rd := BlockPlan(ReadOp, sdlba, tlbas, lbaNbytes, VerifyBuffer);
    var v := Verdict(fill, tlbas, lbaNbytes, cpl, ReadBase(tlbas, mode));
    assert |src| == tlbas && |dst| == tlbas && 2 * tlbas + |cp| == ReadBase(tlbas, mode);
    FourStagesStop(src, dst, cp, rd, cpl, 0, tlbas, 2 * tlbas, ReadBase(tlbas, mode), v);
  }

  /** When every command succeeds, the run passes exactly when each destination read
      `k` transferred block `k` of the filled data buffer: the copy must have carried
      every source block to its destination, block for block and in order. */
  lemma ScopyPassesIffEveryBlockCopied(ns: Ns, errno: int, tlbas: U64, lbaNbytes: nat, capacity: nat, mode: Mode,
                                       fill: nat -> seq<Byte>, cpl: nat -> Completion)
    requires CheckCount(tlbas, ns) == 0 && tlbas <= capacity
    requires BlockSized(cpl, lbaNbytes)
    requires |fill(tlbas * lbaNbytes)| == tlbas * lbaNbytes
    requires FirstFailure(ScopyPlan(tlbas, lbaNbytes, capacity, mode), cpl, 0) == |ScopyPlan(tlbas, lbaNbytes, capacity, mode)|
    ensures ScopyOutcome(Some(ns), errno, tlbas, lbaNbytes, capacity, mode, fill, cpl).ret == 0 <==>
      forall k :: 0 <= k < tlbas ==> BlockMatches(cpl, ReadBase(tlbas, mode), lbaNbytes, fill(tlbas * lbaNbytes), k)
    ensures ScopyOutcome(Some(ns), errno, tlbas, lbaNbytes, capacity, mode, fill, cpl).ret in {0, -EIO}
  {
    ScopyFollowsPlan(ns, errno, tlbas, lbaNbytes, capacity, mode, fill, cpl);
    GatherMatches(cpl, ReadBase(tlbas, mode), tlbas, lbaNbytes, fill(tlbas * lbaNbytes));
  }

  /** The synchronous copy fails on a non-zero return or completion status. The
      asynchronous one fails when the context cannot be created, when the submission
      returns non-zero (the copy's completion status is never looked at) or when the
      wait returns a negative value; the context is torn down after a failed
      submission or wait, and is not torn down when the copy succeeds. */
  lemma CopyStepJudgement(sdlba: nat, entries: seq<SourceRangeEntry>, nr: nat, mode: Mode, cpl: nat -> Completion, base: nat)
    ensures var o := CopyOutcome(sdlba, entries, nr, mode, cpl, base);
      (mode == Sync ==> (o.ret == 0 <==> cpl(base).err == 0 && cpl(base).status == 0) && AsyncTerm !in o.issued) &&
      (mode == Async ==>
        (o.ret == 0 <==> cpl(base).err == 0 && cpl(base + 1).err == 0 && cpl(base + 2).err >= 0) &&
        (AsyncTerm in o.issued <==> o.ret != 0 && cpl(base).err == 0))
  {
    var o := CopyOutcome(sdlba, entries, nr, mode, cpl, base);
    var steps := CopySteps(sdlba, entries, nr, mode);
    if mode == Sync {
      if StepFails(steps[0], cpl(base)) {
        FirstFailureIs(steps, cpl, base, 0);
      } else {
        FirstFailureIs(steps, cpl, base, 1);
      }
    } else if StepFails(steps[0], cpl(base)) {
      FirstFailureIs(steps, cpl, base, 0);
    } else if StepFails(steps[1], cpl(base + 1)) {
      FirstFailureIs(steps, cpl, base, 1);
    } else if StepFails(steps[2], cpl(base + 2)) {
      FirstFailureIs(steps, cpl, base, 2);
    } else {
      FirstFailureIs(steps, cpl, base, 3);
    }
  }
}
