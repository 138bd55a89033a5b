# Verified model of three xNVMe drivers

This project models the host-side logic of three small programs from the xNVMe
repository. Each is a sequential scenario that talks to an NVMe device through
library calls. Here every device call is an oracle: a `Device` value answers the
request at position `i` of a run with a completion `(err, status, data)`, a zone
report, or a zone-descriptor lookup. Each scenario is an imperative method. It
returns the value the C function returns and the trace of commands it sent. That
pair is proved equal to a declarative outcome function, and the lemmas state the
scenario's promises about that function.

- `Nvme` (nvme.dfy) holds the shared vocabulary:
  - the command, completion and zone-descriptor types;
  - the failure rule `err || status`, with `err ? err : -EIO` as the error;
  - the per-block command plan that reads, writes and appends use;
  - the reference semantics "run the plan until its first failing step"
    (`FirstFailure`, `PhaseOutcome`);
  - the loops that send single-block writes and appends (`SendBlocks`) and that
    read blocks into an array buffer (`ReadBlocks`).
- `SimpleCopy` (simple_copy.dfy) models tests/scc.c:
  - the support check over the identify data;
  - the validation of the block count `tlbas` against `mcl` and `msrc`;
  - the in-place construction of the Source Range Entries Copy Descriptor
    Format 0 list (section 3.2.2 of the NVMe NVM Command Set Specification 1.0);
  - the destination LBA;
  - the write / write / copy / read / compare run, in its synchronous and
    asynchronous forms.
- `ExplicitOpen` (znd_explicit_open.dfy) models `test_open_zdptr` of
  tests/znd_explicit_open.c:
  - the sizing of the zone descriptor extension;
  - the scan of the first zone report, including its LBA-zero quirk; when the
    SLBA option was given, the scan compares zone starts with the tool's `lba`
    argument, not with the SLBA the option sets;
  - Reset then Open with the extension (Zone Management Send, section 3.4.3 of
    the NVMe Zoned Namespace Command Set Specification 1.0);
  - the verification against a second, fresh report.
- `ZonedIoSync` (zoned_io_sync.dfy) models the `read`, `write` and `append`
  subcommands of examples/zoned_io_sync.c:
  - the zone lookup;
  - the buffer size;
  - the per-block command plan;
  - the stop at the first failure;
  - the normalised return value.

Positions in a run:
- Simple copy:
  - source writes are at `0 .. tlbas-1`;
  - destination writes are at `tlbas .. 2*tlbas-1`;
  - the copy step is at `2*tlbas`, or at `2*tlbas .. 2*tlbas+2` when
    asynchronous;
  - the destination reads follow the copy step.
- Explicit open:
  - the first report is at 0;
  - Reset is at 1;
  - Open is at 2;
  - the second report is at 3.
- Zone I/O:
  - the lookup is at 0;
  - block `k` is at `1 + k`.

Where the C code departs from the library's documented copy and asynchronous
context contracts, the model follows the code:
- The copy helper never checks `mssrl`. `MssrlNotChecked` exhibits an accepted
  count whose range breaks that limit.
- The asynchronous copy never looks at the copy's completion status.
- The asynchronous context is torn down after a failed submission or wait, and is
  not torn down when the copy succeeds.
- The helper's own comment says a count of 0 means "the maximum"; the code refuses
  it with -EINVAL, and `CheckCount` does the same.

## Model

| member | source | states |
|---|---|---|
| Nvme.StepError | tests/scc.c:201-205 | A failed synchronous step returns its error, or -EIO when only the status was non-zero. The result is never 0, and it is -EIO exactly when the error was -EIO or zero with a non-zero status. |
| Nvme.FirstFailure | examples/zoned_io_sync.c:63-75 | The stopping position of a per-step loop is within the plan. When it is inside the plan, the step there fails. |
| Nvme.BeforeFirstFailure | examples/zoned_io_sync.c:69-74 | Every step before the stopping position succeeded. The loop goes on only past successful commands. |
| Nvme.FirstFailureIs | examples/zoned_io_sync.c:69-74 | The stopping position is unique: a position where every earlier step succeeds and the step itself fails (or the end of the plan) is the first failure. |
| Nvme.FirstFailureConcat | tests/scc.c:193-222 | For two loops run back to back, the first failure is the first loop's, or, when that loop completes, the second loop's, shifted by the first loop's length. |
| Nvme.PhaseStopsAt | tests/scc.c:194-207 | A loop whose first failing command is `i` returns that command's error and has sent exactly commands `0 .. i`. |
| Nvme.PhaseCompletes | tests/scc.c:194-207 | A loop in which no command fails returns 0 and has sent its whole plan. |
| Nvme.PhaseIssuedPrefix | examples/zoned_io_sync.c:63-75 | A loop that stops at its first failure has sent a prefix of its plan, in order. |
| Nvme.PhaseOutcomeAppend | tests/scc.c:193-222 | Two loops, the second run only when the first returned 0, behave as one loop over the concatenated plan that stops at its first failure. |
| Nvme.GatherLength | tests/scc.c:269-274 | The `n` single-block reads transfer `n * lba_nbytes` bytes in all. |
| Nvme.GatherBlock | tests/scc.c:269-274 | Block `k` of the gathered bytes, at offset `k * lba_nbytes`, is exactly what read `k` transferred. |
| Nvme.GatherMatches | tests/scc.c:286-287 | The gathered bytes equal a buffer of the same size exactly when every block `k` of that buffer equals what read `k` transferred. |
| Nvme.BlockPlanTiles | tests/scc.c:194-199 | Payload `i` is the `lba_nbytes`-byte slice at offset `i * lba_nbytes` of the named buffer. Every slice lies inside the `n * lba_nbytes`-byte buffer, and the slices are pairwise disjoint and ascending. |
| Nvme.BlockPlanTargets | examples/zoned_io_sync.c:223-228 | An append always targets the zone start. A read or write `k` targets `slba + k`, so consecutive targets are contiguous and ascending. |
| Nvme.Transfer | examples/zoned_io_sync.c:64-68 | A completed read writes its data into the payload slice of the buffer and leaves the bytes before it unchanged. |
| Nvme.Deposit | tests/scc.c:271-273 | After read `i` lands at offset `i * lba_nbytes`, the buffer's first `(i+1) * lba_nbytes` bytes are the blocks read so far, in order. |
| Nvme.SendBlocks | examples/zoned_io_sync.c:148-160 | The single-block write or append loop returns and sends exactly what the plan stopped at its first failure gives: the error of the failing command (`err ? err : -EIO`) and the commands up to it, or 0 and every command. |
| Nvme.ReadBlocks | tests/scc.c:268-281 | The single-block read loop into a buffer stops like the write loop. When no read fails, the buffer holds every block read, in order. |
| SimpleCopy.Support | tests/scc.c:20-64 | A missing identify structure returns `-errno` and reports nothing. Otherwise the result is 0 or -ENOSYS, and it is 0 exactly when no requirement is reported missing. |
| SimpleCopy.SupportChecksEveryRequirement | tests/scc.c:43-59 | All four checks run with no early return. The report names exactly the unmet requirements, once each and in check order, and support holds exactly when all four are met. |
| SimpleCopy.CheckCount | tests/scc.c:138-152 | The result is 0 or -EINVAL, and 0 exactly when `1 <= tlbas`, `tlbas <= mcl` and `tlbas <= msrc + 1`, with `msrc` widened before the `+ 1`. |
| SimpleCopy.SingleBlockCount | tests/scc.c:305-309 | The `scopy` subcommand's count of 1 passes exactly when `mcl` is non-zero. |
| SimpleCopy.MsrcBoundaryCount | tests/scc.c:311-323 | The `scopy-msrc` count `msrc + 1` passes exactly when `mcl` allows it. One range more, or one block more than `mcl`, is refused. |
| SimpleCopy.BuildRange | tests/scc.c:183-186 | Entry `i` becomes `(slba i, nlb 0)` for every `i < tlbas`. The entries beyond keep their earlier contents. |
| SimpleCopy.PrepareRange | tests/scc.c:161-188 | The cleared range of `capacity` entries after the build loop, the 8-bit count `nr`, and `sdlba` from the last built entry. |
| SimpleCopy.RangeCount | tests/scc.c:187 | `nr` is `tlbas - 1` stored in 8 bits. It equals `tlbas - 1` exactly when `tlbas <= 256`. |
| SimpleCopy.DestinationFollowsSources | tests/scc.c:187-188 | For an accepted count, `nr` is `tlbas - 1` with no truncation, and `sdlba` is `tlbas`. Every source block lies below `tlbas`, so source and destination ranges are disjoint. |
| SimpleCopy.BuiltRangeWithinLimits | tests/scc.c:143-152 | For an accepted count and a non-zero `mssrl`, the built range respects the Copy limits: at most `msrc + 1` ranges, at most `mcl` blocks, at most `mssrl` blocks per range. |
| SimpleCopy.MssrlNotChecked | tests/scc.c:138-152 | The count check accepts a range that breaks `mssrl = 0`: the helper never checks that limit. |
| SimpleCopy.WriteSourceBlocks | tests/scc.c:193-207 | The source-write loop, driven by the range entries, sends and returns what the single-block write plan stopped at its first failure gives. |
| SimpleCopy.SyncCopy | tests/scc.c:230-239 | The synchronous copy returns and sends what the copy step gives: it fails on a non-zero return or a non-zero status, with a status-only failure giving -EIO. |
| SimpleCopy.AsyncCopy | tests/scc.c:240-266 | Context creation, submission and wait each stop the run on failure. A failed submission or wait is followed by the teardown, and a failed creation is not. |
| SimpleCopy.CopyStep | tests/scc.c:230-266 | With `--clear` the copy is synchronous, otherwise asynchronous, as the copy step's outcome says. |
| SimpleCopy.CopyStepJudgement | tests/scc.c:233-265 | The synchronous copy succeeds iff `err == 0` and status 0, and never tears down. The asynchronous one succeeds iff creation and submission return 0 and the wait is non-negative. The teardown is sent iff it failed after the context existed. |
| SimpleCopy.ScopyHelper | tests/scc.c:111-303 | The copy helper returns and sends what the run's outcome function gives, for every device behaviour. |
| SimpleCopy.RunPhases | tests/scc.c:154-222 | After an accepted count: build the range, write the source blocks, then go on with the destination, each phase only after the previous one succeeded. |
| SimpleCopy.DestinationOnward | tests/scc.c:209-222 | The destination writes of the zeroed buffer, then the copy and verification only when they all succeeded. |
| SimpleCopy.CopyThenVerify | tests/scc.c:230-281 | The copy step, then the read-back and comparison only when the copy succeeded. |
| SimpleCopy.ReadBackAndCompare | tests/scc.c:268-295 | The destination reads into the verification buffer, then -EIO if it differs from the data buffer and 0 if it is identical. |
| SimpleCopy.Scopy | tests/scc.c:305-309 | `scopy` is the helper with one block. |
| SimpleCopy.ScopyMsrc | tests/scc.c:311-323 | `scopy-msrc` returns `-errno` without a namespace. Otherwise it is the helper with `msrc + 1` blocks, so a count that `mcl` refuses returns -EINVAL before anything is sent. |
| SimpleCopy.ScopyRefusesBeforeAnyCommand | tests/scc.c:131-152 | A missing namespace or a refused count ends the run with `-errno` or -EINVAL before any command is sent. |
| SimpleCopy.PrependPhase | tests/scc.c:193-222 | Putting a phase in front of a run that stops at its first failure gives a run of the concatenated plans that stops at its first failure. |
| SimpleCopy.FourStagesStop | tests/scc.c:193-281 | The four chained phases, each followed by its teardown on failure, are the concatenated plan stopped at its first failing step. |
| SimpleCopy.ScopyFollowsPlan | tests/scc.c:193-295 | For an accepted count, the run sends the fixed plan (source writes, destination writes, copy step, destination reads) up to and including its first failing step, returns that step's error and adds the teardown it calls for. When nothing fails, it returns the comparison's verdict. |
| SimpleCopy.ScopyPassesIffEveryBlockCopied | tests/scc.c:283-295 | When every command succeeds, the result is 0 or -EIO. It is 0 exactly when each destination read `k` returned block `k` of the filled data buffer. |
| ExplicitOpen.ZdeSize | tests/znd_explicit_open.c:16 | The extension size is `zdes * 64`: a multiple of 64 bytes, zero exactly when `zdes` is zero, never wrapping in 32 bits. |
| ExplicitOpen.FirstUsable | tests/znd_explicit_open.c:56-71 | The lowest index of an Empty, sequential-write-required, non-zero-capacity zone that, when the SLBA option was given, starts at `args.lba` (the `lba` parameter); no zone before it qualifies. |
| ExplicitOpen.ScanZones | tests/znd_explicit_open.c:56-71 | The scan loop, with its `continue` and `break`, settles on the first usable zone's `(zslba, idx)`, or keeps `(lba, 0)`. |
| ExplicitOpen.ScanSelectsLowestUsable | tests/znd_explicit_open.c:19-20 | When some zone is usable, the scan picks the lowest-indexed one and its `zslba`. Otherwise `zslba` stays the initial `lba` and `zidx` stays 0. |
| ExplicitOpen.ZeroExtensionRefused | tests/znd_explicit_open.c:26-30 | A zero extension size returns -EINVAL before any report or command. |
| ExplicitOpen.ZoneAtLbaZeroIsNoSpace | tests/znd_explicit_open.c:72-76 | A usable zone starting at LBA 0 is taken for "not found": the run returns -ENOSPC after the first report. |
| ExplicitOpen.UnmatchedLbaProceeds | tests/znd_explicit_open.c:19-20 | With no usable zone and a non-zero initial `lba`, the test resets and opens the zone at `lba`, and verifies entry 0 of the second report. |
| ExplicitOpen.ResetThenOpen | tests/znd_explicit_open.c:83-99 | Reset without an extension, then Open with it only if the reset succeeded. Each command stops on `err` or status, with a status-only failure giving -EIO. |
| ExplicitOpen.ResetThenOpenStops | tests/znd_explicit_open.c:83-99 | Reset is sent to the chosen zone first. Open follows only after a successful reset, and the second report only after both succeed. A status-only failure returns -EIO. |
| ExplicitOpen.VerifyOpened | tests/znd_explicit_open.c:112-135 | The check chain returns 0 exactly when the first `zde_nbytes` bytes of the entry's extension are `zde`, `zdev` is set and the zone is explicitly opened, and -EIO otherwise. |
| ExplicitOpen.VerdictFromFreshReport | tests/znd_explicit_open.c:103-135 | After a successful reset and open, the verdict depends only on the chosen index's entry in the second report: 0 exactly when its extension starts with the `zde_nbytes` bytes of `zde`, has `zdev` set and is explicitly opened, and -EIO otherwise. |
| ExplicitOpen.FirstReportOnlyChoosesZone | tests/znd_explicit_open.c:47-52 | The first report matters only through the zone the scan chooses. Two devices that agree on that choice and on everything else give the same outcome. |
| ExplicitOpen.TestOpenZdptr | tests/znd_explicit_open.c:8-142 | The whole test returns and sends what the outcome function gives. A failed report returns the negated errno. |
| ZonedIoSync.Normalise | examples/zoned_io_sync.c:93 | The return value is `err` when negative, and 0 otherwise. |
| ZonedIoSync.LookupFailureStops | examples/zoned_io_sync.c:114-126 | A lookup error ends the run with nothing sent but the lookup: `ZoneLookup(slba)` when an SLBA was given, else `ZoneLookupInState(Empty)`. A negative error is returned, and a positive one is reported as 0. |
| ZonedIoSync.ZoneIoCommands | examples/zoned_io_sync.c:29-68 | The lookup comes first: `ZoneLookup(slba)` when an SLBA was given, else `ZoneLookupInState(Empty)`; the zone it returns is the device's answer. Then come at most `zcap` block commands in that zone. Command `k` moves block `k` at offset `k * lba_nbytes`, inside the `zcap * lba_nbytes` buffer and before every later payload. It targets `zslba + k` for read and write, and `zslba` for append. |
| ZonedIoSync.ZoneIoStopsAtFirstFailure | examples/zoned_io_sync.c:69-74 | At the first failing block command, nothing after it is sent. Its error is returned when negative, and a status-only failure returns -EIO. |
| ZonedIoSync.ZoneIoCompletes | examples/zoned_io_sync.c:148-168 | When no block command fails, every command is sent and the result is 0. A read that dumps its buffer instead returns the dump's result, normalised. |
| ZonedIoSync.DumpHoldsZone | examples/zoned_io_sync.c:80-88 | The dumped buffer has `zcap * lba_nbytes` bytes, and its block `k` is what the read of `zslba + k` transferred. |
| ZonedIoSync.SyncRead | examples/zoned_io_sync.c:11-94 | `read` returns and sends what the zone-I/O outcome gives for reads, dumping the filled buffer when an output file was given. |
| ZonedIoSync.SyncWrite | examples/zoned_io_sync.c:96-169 | `write` returns and sends what the zone-I/O outcome gives for writes. |
| ZonedIoSync.SyncAppend | examples/zoned_io_sync.c:171-244 | `append` returns and sends what the zone-I/O outcome gives for appends. |

## Left out

- Buffer allocation and fill failures (`xnvme_buf_alloc`, `xnvmec_buf_fill`) are left out. The model assumes they succeed; they are library calls whose code is not part of this model.
- Fill contents are parameters:
  - the "anum" fill is the function `fill`;
  - `--clear` selects the synchronous copy;
  - whether an SLBA was given is a parameter.
- The dump of the read buffer (`xnvmec_buf_to_file`) is an oracle from the dumped bytes to its return value.
- Printing, timers and bandwidth reports are output only and are left out.
- The command-line tables and `main` are argument parsing and are left out.
- Namespace id selection is left out, because no command's outcome depends on it in the model.
- Device and library calls are oracles indexed by request position:
  - read, write, append, copy, zone management send, zone report and descriptor lookup;
  - `xnvme_async_init`, `xnvme_async_wait` and `xnvme_async_term`.
  Their internals, and the contents of the device, are not modelled.
- The asynchronous context's internals (capacity, outstanding count, slot table, callbacks) are not modelled; only the control flow of the asynchronous branch is.
- include/xnvme_be_linux_nil.h is only a structure layout with no code that maintains it. It is not part of this model.
- The copy failure index (Dword 0 of a failed copy) appears in tests/scc.c only as a TODO and is not modelled.
- Sizes are unbounded integers. The 64-bit products `tlbas * lba_nbytes` and `zcap * lba_nbytes` are not wrapped; the model assumes they fit in 64 bits.
- The capacity of the source-range structure is a parameter (`capacity`). The helper's build loop has no bound check of its own, so the methods require `tlbas <= capacity` for a count the helper accepts; a refused count may exceed it.
- The "anum" fill is assumed to give a buffer of exactly the requested size: for an accepted count the copy methods require `|fill(tlbas * lba_nbytes)| == tlbas * lba_nbytes`, the `buf_nbytes` the comparison covers.
- ExplicitOpen.OpenOutcome requires `ReportsCover`: when both reports succeed, the second one has an entry at the index `zidx` the scan of the first settles on. The C code reads `after[zidx]` without a check, so the model assumes what the code takes for granted.
- ExplicitOpen.VerifyOpened treats an extension shorter than `zde_nbytes` as different from `zde`. The C code would compare past the end of the entry's extension; what it then finds is not modelled.
- The print of the first report's entry after the scan (tests/znd_explicit_open.c:81 and :110) is output only and is left out.
