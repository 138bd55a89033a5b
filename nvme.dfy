/** Vocabulary shared by the three host-side scenarios: fixed-width integers,
    errno values, payload buffers, zone descriptors, the requests a scenario
    sends to a device, and the device itself as an oracle that answers them.

    A scenario issues requests one after another; the device's answer to the
    request at position k of the run is `cpl(k)` (commands), `report(k)` (zone
    reports) or `lookup(k)` (zone descriptor lookups). Nothing about the device's
    internals is modelled. */
module Nvme {

  /** C fixed-width unsigned integers: a value of these types is always in range. */
  type U8 = x: nat | x < 0x100
  type U16 = x: nat | x < 0x1_0000
  type U32 = x: nat | x < 0x1_0000_0000
  type U64 = x: nat | x < 0x1_0000_0000_0000_0000

  newtype Byte = b: int | 0 <= b < 0x100

  /** Linux errno values; the scenarios return them negated. */
  const EIO: int := 5
  const EINVAL: int := 22
  const ENOSPC: int := 28
  const ENOSYS: int := 38

  datatype Option<T> = None | Some(value: T)

  /** Synchronous commands block until completion; asynchronous ones complete through a context. */
  datatype Mode = Sync | Async

  /** The host buffers a scenario transfers from or into. */
  datatype BufferName = DataBuffer | VerifyBuffer

  /** A payload pointer `buf + ofz` together with the number of bytes the device transfers there. */
  datatype Payload = Payload(buf: BufferName, ofz: nat, nbytes: nat)

  /** One entry of a Source Range Entries Copy Descriptor Format 0; `nlb` is zero-based. */
  datatype SourceRangeEntry = SourceRangeEntry(slba: nat, nlb: nat)

  datatype ZoneState = Empty | ImplicitlyOpened | ExplicitlyOpened | Closed | ReadOnly | Full | Offline

  datatype ZoneType = SeqWriteRequired | OtherType(code: U8)

  /** A zone descriptor: start, capacity, write pointer, state, type and the
      "zone descriptor extension valid" attribute. */
  datatype ZoneDescr = ZoneDescr(zslba: nat, zcap: nat, wp: nat, zs: ZoneState, zt: ZoneType, zdev: bool)

  /** A report entry: the descriptor and its zone descriptor extension bytes. */
  datatype ZoneEntry = ZoneEntry(descr: ZoneDescr, ext: seq<Byte>)

  /** A snapshot of the zones reported by the device; `|entries|` is `nentries`. */
  datatype Report = Report(entries: seq<ZoneEntry>)

  datatype ReportReply = Reported(report: Report) | ReportFailed(errno: int)

  /** The result of looking up one zone descriptor: an error code and the descriptor it filled in. */
  datatype LookupReply = LookupReply(err: int, zone: ZoneDescr)

  datatype ZoneAction = Reset | Open

  /** The requests a scenario sends to the device, in the order it sends them.
      `nlb` is zero-based: every block command of these scenarios moves one block. */
  datatype Cmd =
    | Read(slba: nat, nlb: nat, payload: Payload)
    | Write(slba: nat, nlb: nat, payload: Payload)
    | Append(zslba: nat, nlb: nat, payload: Payload)
      /** Simple Copy to `sdlba` of the ranges `entries[0..nr]` (`nr` zero-based), descriptor format 0 */
    | Copy(sdlba: nat, entries: seq<SourceRangeEntry>, nr: nat, mode: Mode)
    | ZoneMgmtSend(zslba: nat, action: ZoneAction, ext: Option<seq<Byte>>)
      /** A report of every zone, starting at LBA 0 */
    | ZoneReport
    | ZoneLookup(lba: nat)
    | ZoneLookupInState(state: ZoneState)
    | AsyncInit(depth: nat)
    | AsyncWait
    | AsyncTerm

  /** What a command returns: the submission error, the completion status and,
      for a read, the bytes the device transfers into the payload. */
  datatype Completion = Completion(err: int, status: int, data: seq<Byte>)

  /** The device: its answer to the request at each position of a run. */
  datatype Device = Device(cpl: nat -> Completion, report: nat -> ReportReply, lookup: nat -> LookupReply)

  /** What a scenario returns, and every request it sent, in order. */
  datatype Outcome = Outcome(ret: int, issued: seq<Cmd>)

  /** Every completion transfers exactly one logical block of `lbaNbytes` bytes. */
  ghost predicate BlockSized(cpl: nat -> Completion, lbaNbytes: nat)
  {
    forall k: nat :: |cpl(k).data| == lbaNbytes
  }

  /** The LBA a block command is sent to. */
  function Target(cmd: Cmd): nat
    requires cmd.Read? || cmd.Write? || cmd.Append?
  {
    if cmd.Append? then cmd.zslba else cmd.slba
  }

  /** Whether the caller treats the answer `c` to `cmd` as a failure. A synchronous
      command fails on a submission error or a non-zero completion status; the
      asynchronous context calls are judged on their return value alone, and the
      result of tearing a context down is never looked at. */
  predicate StepFails(cmd: Cmd, c: Completion)
  {
    if cmd.AsyncInit? || (cmd.Copy? && cmd.mode == Async) then c.err != 0
    else if cmd.AsyncWait? then c.err < 0
    else if cmd.AsyncTerm? then false
    else c.err != 0 || c.status != 0
  }

  /** The value the caller returns for a failed step: `err ? err : -EIO` for a
      synchronous command, the return value itself for an asynchronous call. */
  function StepError(cmd: Cmd, c: Completion): (r: int)
    requires StepFails(cmd, c)
    ensures r != 0
    ensures r == -EIO <==> c.err == -EIO || (c.err == 0 && c.status != 0)
  {
    if cmd.AsyncInit? || (cmd.Copy? && cmd.mode == Async) || cmd.AsyncWait? then c.err
    else if c.err != 0 then c.err else -EIO
  }

  /** Step `i` of `plan`, answered by `cpl(base + i)`, succeeds. */
  predicate StepSucceeds(plan: seq<Cmd>, cpl: nat -> Completion, base: nat, i: nat)
  {
    i < |plan| && !StepFails(plan[i], cpl(base + i))
  }

  /** The verdicts on the steps of `plan` when the answer to step `i` is
      `cpl(base + i)`: `true` where the step fails. */
  function Verdicts(plan: seq<Cmd>, cpl: nat -> Completion, base: nat): seq<bool>
  {
    seq(|plan|, i requires 0 <= i < |plan| => StepFails(plan[i], cpl(base + i)))
  }

  /** The position of the first `true` in `bs`, or `|bs|` when there is none. */
  function FirstTrue(bs: seq<bool>): (j: nat)
    ensures j <= |bs|
    ensures j < |bs| ==> bs[j]
  {
    if |bs| == 0 then 0
    else if bs[0] then 0
    else 1 + FirstTrue(bs[1..])
  }

  lemma {:induction false} BeforeFirstTrue(bs: seq<bool>, i: nat)
    requires i < FirstTrue(bs)
    ensures i < |bs| && !bs[i]
    decreases i
  {
    if i > 0 {
      BeforeFirstTrue(bs[1..], i - 1);
    }
  }

  lemma {:induction false} FirstTrueConcat(a: seq<bool>, b: seq<bool>)
    ensures FirstTrue(a + b) == if FirstTrue(a) < |a| then FirstTrue(a) else |a| + FirstTrue(b)
    decreases |a|
  {
    if |a| == 0 {
      assert a + b == b;
    } else {
      assert (a + b)[1..] == a[1..] + b;
      FirstTrueConcat(a[1..], b);
    }
  }

  /** The position in `plan` of the first step that fails when the answer to
      step `i` is `cpl(base + i)`, or `|plan|` when every step succeeds. */
  function FirstFailure(plan: seq<Cmd>, cpl: nat -> Completion, base: nat): (j: nat)
    ensures j <= |plan|
    ensures j < |plan| ==> StepFails(plan[j], cpl(base + j))
  {
    FirstTrue(Verdicts(plan, cpl, base))
  }

  /** Every step before the first failure succeeds. */
  lemma BeforeFirstFailure(plan: seq<Cmd>, cpl: nat -> Completion, base: nat, i: nat)
    requires i < FirstFailure(plan, cpl, base)
    ensures StepSucceeds(plan, cpl, base, i)
  {
    BeforeFirstTrue(Verdicts(plan, cpl, base), i);
  }

  /** The first failure is unique: the only position where every earlier step
      succeeds and the step itself fails (or the end, when nothing fails). */
  lemma FirstFailureIs(plan: seq<Cmd>, cpl: nat -> Completion, base: nat, j: nat)
    requires j <= |plan|
    requires forall i :: 0 <= i < j ==> StepSucceeds(plan, cpl, base, i)
    requires j < |plan| ==> StepFails(plan[j], cpl(base + j))
    ensures FirstFailure(plan, cpl, base) == j
  {
    var f := FirstFailure(plan, cpl, base);
    assert f < j ==> StepSucceeds(plan, cpl, base, f);
    if j < f {
      BeforeFirstFailure(plan, cpl, base, j);
    }
  }

  /** The first failure of `p + q`: that of `p`, or, when every step of `p`
      succeeds, that of `q` run after `p`. */
  lemma FirstFailureConcat(p: seq<Cmd>, q: seq<Cmd>, cpl: nat -> Completion, base: nat)
    ensures FirstFailure(p + q, cpl, base) ==
      if FirstFailure(p, cpl, base) < |p| then FirstFailure(p, cpl, base)
      else |p| + FirstFailure(q, cpl, base + |p|)
  {
    var vp, vq := Verdicts(p, cpl, base), Verdicts(q, cpl, base + |p|);
    forall i | 0 <= i < |p| + |q|
      ensures Verdicts(p + q, cpl, base)[i] == (vp + vq)[i]
    {
      if i >= |p| {
        assert (p + q)[i] == q[i - |p|];
        assert base + i == base + |p| + (i - |p|);
      }
    }
    assert Verdicts(p + q, cpl, base) == vp + vq;
    FirstTrueConcat(vp, vq);
  }

  /** Running `plan` from position `base` until its first failing step: the error of
      that step and the steps sent up to and including it, or 0 and the whole plan. */
  function PhaseOutcome(plan: seq<Cmd>, cpl: nat -> Completion, base: nat): (o: Outcome)
  {
    var j := FirstFailure(plan, cpl, base);
    StopAt(plan, j, cpl(base + j))
  }

  /** The outcome of a plan stopped at step `j`, answered by `c`, or run to its end. */
  function StopAt(plan: seq<Cmd>, j: nat, c: Completion): Outcome
    requires j <= |plan|
    requires j < |plan| ==> StepFails(plan[j], c)
  {
    if j < |plan| then Outcome(StepError(plan[j], c), plan[..j + 1]) else Outcome(0, plan)
  }

  /** A phase whose step `i` is its first failure returns that step's error
      and sends the steps up to and including it. */
  lemma PhaseStopsAt(plan: seq<Cmd>, cpl: nat -> Completion, base: nat, i: nat)
    requires i < |plan|
    requires forall k :: 0 <= k < i ==> StepSucceeds(plan, cpl, base, k)
    requires StepFails(plan[i], cpl(base + i))
    ensures PhaseOutcome(plan, cpl, base) == Outcome(StepError(plan[i], cpl(base + i)), plan[..i + 1])
  {
    FirstFailureIs(plan, cpl, base, i);
  }

  /** A phase none of whose steps fails returns 0 and sends its whole plan. */
  lemma PhaseCompletes(plan: seq<Cmd>, cpl: nat -> Completion, base: nat)
    requires forall k :: 0 <= k < |plan| ==> StepSucceeds(plan, cpl, base, k)
    ensures PhaseOutcome(plan, cpl, base) == Outcome(0, plan)
  {
    FirstFailureIs(plan, cpl, base, |plan|);
  }

  /** A phase sends a prefix of its plan. */
  lemma PhaseIssuedPrefix(plan: seq<Cmd>, cpl: nat -> Completion, base: nat) returns (m: nat)
    ensures m <= |plan| && PhaseOutcome(plan, cpl, base).issued == plan[..m]
  {
    var j := FirstFailure(plan, cpl, base);
    m := if j < |plan| then j + 1 else |plan|;
  }

  /** Sequencing with a stop on failure: `next` runs only when `first` returned 0. */
  function Then(first: Outcome, next: Outcome): Outcome
  {
    if first.ret != 0 then first else Outcome(next.ret, first.issued + next.issued)
  }

  /** Running two plans one after the other, each stopping at its first failure,
      is running their concatenation to its first failure. */
  lemma PhaseOutcomeAppend(p: seq<Cmd>, q: seq<Cmd>, cpl: nat -> Completion, base: nat)
    ensures PhaseOutcome(p + q, cpl, base) == Then(PhaseOutcome(p, cpl, base), PhaseOutcome(q, cpl, base + |p|))
  {
    FirstFailureConcat(p, q, cpl, base);
    var j := FirstFailure(p, cpl, base);
    if j < |p| {
      StopInPrefix(p, q, j, cpl(base + j));
    } else {
      var k := FirstFailure(q, cpl, base + |p|);
      assert base + (|p| + k) == base + |p| + k;
      StopInSuffix(p, q, k, cpl(base + |p| + k));
    }
  }

  /** Stopping inside `p` is stopping `p + q` at the same step. */
  lemma StopInPrefix(p: seq<Cmd>, q: seq<Cmd>, j: nat, c: Completion)
    requires j < |p| && StepFails(p[j], c)
    ensures (p + q)[j] == p[j]
    ensures StopAt(p + q, j, c) == StopAt(p, j, c)
  {
    assert (p + q)[..j + 1] == p[..j + 1];
  }

  /** Stopping `q` at step `k` is stopping `p + q` at step `|p| + k`, with `p` sent first. */
  lemma StopInSuffix(p: seq<Cmd>, q: seq<Cmd>, k: nat, c: Completion)
    requires k <= |q| && (k < |q| ==> StepFails(q[k], c))
    ensures |p| + k < |p + q| ==> (p + q)[|p| + k] == q[k]
    ensures StopAt(p + q, |p| + k, c) == Outcome(StopAt(q, k, c).ret, p + StopAt(q, k, c).issued)
  {
    if k < |q| {
      assert (p + q)[..|p| + k + 1] == p + q[..k + 1];
    }
  }

  /** The bytes transferred by the `n` reads answered at positions `base .. base + n - 1`, in order. */
  function Gather(cpl: nat -> Completion, base: nat, n: nat): seq<Byte>
    decreases n
  {
    if n == 0 then [] else Gather(cpl, base, n - 1) + cpl(base + n - 1).data
  }

  lemma {:induction false} GatherLength(cpl: nat -> Completion, base: nat, n: nat, lbaNbytes: nat)
    requires BlockSized(cpl, lbaNbytes)
    ensures |Gather(cpl, base, n)| == n * lbaNbytes
    decreases n
  {
    if n > 0 {
      GatherLength(cpl, base, n - 1, lbaNbytes);
    }
  }

  /** Block `k` of the gathered bytes is exactly what the read at position `base + k` transferred. */
  lemma {:induction false} GatherBlock(cpl: nat -> Completion, base: nat, n: nat, lbaNbytes: nat, k: nat)
    requires BlockSized(cpl, lbaNbytes)
    requires k < n
    ensures k * lbaNbytes + lbaNbytes <= |Gather(cpl, base, n)|
    ensures Gather(cpl, base, n)[k * lbaNbytes .. k * lbaNbytes + lbaNbytes] == cpl(base + k).data
    decreases n
  {
    var prefix := Gather(cpl, base, n - 1);
    var data := cpl(base + n - 1).data;
    assert Gather(cpl, base, n) == prefix + data;
    if k < n - 1 {
      GatherBlock(cpl, base, n - 1, lbaNbytes, k);
      assert (prefix + data)[k * lbaNbytes .. k * lbaNbytes + lbaNbytes] == prefix[k * lbaNbytes .. k * lbaNbytes + lbaNbytes];
    } else {
      GatherLength(cpl, base, n - 1, lbaNbytes);
      assert (prefix + data)[|prefix| .. |prefix| + |data|] == data;
    }
  }

  /** A buffer holding the first `i` gathered blocks, then the bytes of read `i`,
      holds the first `i + 1` gathered blocks. */
  lemma GatherNext(cpl: nat -> Completion, base: nat, i: nat, lbaNbytes: nat, s: seq<Byte>)
    requires i * lbaNbytes + lbaNbytes <= |s|
    requires s[..i * lbaNbytes] == Gather(cpl, base, i)
    requires s[i * lbaNbytes .. i * lbaNbytes + lbaNbytes] == cpl(base + i).data
    ensures (i + 1) * lbaNbytes <= |s|
    ensures s[..(i + 1) * lbaNbytes] == Gather(cpl, base, i + 1)
  {
    var ofz := i * lbaNbytes;
    assert (i + 1) * lbaNbytes == ofz + lbaNbytes;
    assert s[..ofz + lbaNbytes] == s[..ofz] + s[ofz .. ofz + lbaNbytes];
  }

  /** The read at position `base + k` transferred block `k` of `d`. */
  ghost predicate BlockMatches(cpl: nat -> Completion, base: nat, lbaNbytes: nat, d: seq<Byte>, k: nat)
  {
    k * lbaNbytes + lbaNbytes <= |d| && cpl(base + k).data == d[k * lbaNbytes .. k * lbaNbytes + lbaNbytes]
  }

  /** Reads that each transferred the matching block of `d` gather to `d`. */
  lemma {:induction false} GatherFromBlocks(cpl: nat -> Completion, base: nat, n: nat, lbaNbytes: nat, d: seq<Byte>)
    requires |d| == n * lbaNbytes
    requires forall k :: 0 <= k < n ==> BlockMatches(cpl, base, lbaNbytes, d, k)
    ensures Gather(cpl, base, n) == d
    decreases n
  {
    if n > 0 {
      var m := (n - 1) * lbaNbytes;
      LastBlock(n, lbaNbytes);
      var front := d[..m];
      forall k | 0 <= k < n - 1
        ensures BlockMatches(cpl, base, lbaNbytes, front, k)
      {
        SlicesOrdered(k, n - 1, lbaNbytes);
        MatchInPrefix(cpl, base, lbaNbytes, d, m, k);
      }
      GatherFromBlocks(cpl, base, n - 1, lbaNbytes, front);
      assert BlockMatches(cpl, base, lbaNbytes, d, n - 1);
      assert d == front + d[m .. m + lbaNbytes];
    }
  }

  /** The last of `n` blocks starts at `(n - 1) * L` and ends at `n * L`. */
  lemma LastBlock(n: nat, lbaNbytes: nat)
    requires n > 0
    ensures (n - 1) * lbaNbytes + lbaNbytes == n * lbaNbytes
  {
  }

  /** A block that ends inside the first `m` bytes of `d` matches there as it does in `d`. */
  lemma MatchInPrefix(cpl: nat -> Completion, base: nat, lbaNbytes: nat, d: seq<Byte>, m: nat, k: nat)
    requires BlockMatches(cpl, base, lbaNbytes, d, k)
    requires k * lbaNbytes + lbaNbytes <= m <= |d|
    ensures BlockMatches(cpl, base, lbaNbytes, d[..m], k)
  {
    var a := k * lbaNbytes;
    assert d[..m][a .. a + lbaNbytes] == d[a .. a + lbaNbytes];
  }

  /** The gathered bytes equal a buffer `d` of `n` blocks exactly when every read
      transferred the matching block of `d`. */
  lemma GatherMatches(cpl: nat -> Completion, base: nat, n: nat, lbaNbytes: nat, d: seq<Byte>)
    requires BlockSized(cpl, lbaNbytes)
    requires |d| == n * lbaNbytes
    ensures Gather(cpl, base, n) == d <==> forall k :: 0 <= k < n ==> BlockMatches(cpl, base, lbaNbytes, d, k)
  {
    if Gather(cpl, base, n) == d {
      forall k | 0 <= k < n
        ensures BlockMatches(cpl, base, lbaNbytes, d, k)
      {
        GatherBlock(cpl, base, n, lbaNbytes, k);
      }
    } else if forall k :: 0 <= k < n ==> BlockMatches(cpl, base, lbaNbytes, d, k) {
      GatherFromBlocks(cpl, base, n, lbaNbytes, d);
    }
  }

  /** Block slices `[k * L, k * L + L)` are ordered: slice `j` ends where or before slice `k` starts. */
  lemma {:induction false} SlicesOrdered(j: nat, k: nat, lbaNbytes: nat)
    requires j < k
    ensures j * lbaNbytes + lbaNbytes <= k * lbaNbytes
    decreases k - j
  {
    if j + 1 < k {
      SlicesOrdered(j + 1, k, lbaNbytes);
    }
  }

  datatype IoOp = ReadOp | WriteOp | AppendOp

  /** The `k`-th single-block command of a per-block loop over the blocks starting at `slba`:
      its payload is block `k` of `buf`. */
  function BlockCmd(op: IoOp, slba: nat, k: nat, lbaNbytes: nat, buf: BufferName): Cmd
  {
    var payload := Payload(buf, k * lbaNbytes, lbaNbytes);
    match op
    case ReadOp => Read(slba + k, 0, payload)
    case WriteOp => Write(slba + k, 0, payload)
    case AppendOp => Append(slba, 0, payload)
  }

  /** The `n` single-block commands of a per-block loop, in the order they are issued. */
  function BlockPlan(op: IoOp, slba: nat, n: nat, lbaNbytes: nat, buf: BufferName): seq<Cmd>
  {
    seq(n, k requires 0 <= k => BlockCmd(op, slba, k, lbaNbytes, buf))
  }

  /** Every payload of a per-block loop lies inside its `n * L`-byte buffer, and
      the payloads are pairwise disjoint and in ascending order. */
  lemma BlockPlanTiles(op: IoOp, slba: nat, n: nat, lbaNbytes: nat, buf: BufferName)
    ensures var p := BlockPlan(op, slba, n, lbaNbytes, buf);
      |p| == n &&
      (forall k :: 0 <= k < n ==>
        p[k].payload.buf == buf && p[k].payload.nbytes == lbaNbytes &&
        p[k].payload.ofz + lbaNbytes <= n * lbaNbytes) &&
      (forall j, k :: 0 <= j < k < n ==> p[j].payload.ofz + lbaNbytes <= p[k].payload.ofz)
  {
    var p := BlockPlan(op, slba, n, lbaNbytes, buf);
    forall k | 0 <= k < n
      ensures p[k].payload.ofz + lbaNbytes <= n * lbaNbytes
    {
      SlicesOrdered(k, n, lbaNbytes);
    }
    forall j, k | 0 <= j < k < n
      ensures p[j].payload.ofz + lbaNbytes <= p[k].payload.ofz
    {
      SlicesOrdered(j, k, lbaNbytes);
    }
  }

  /** Reads and writes go to consecutive LBAs upward from `slba`; appends all go to `slba`. */
  lemma BlockPlanTargets(op: IoOp, slba: nat, n: nat, lbaNbytes: nat, buf: BufferName)
    ensures var p := BlockPlan(op, slba, n, lbaNbytes, buf);
      (forall k :: 0 <= k < n ==> Target(p[k]) == if op == AppendOp then slba else slba + k) &&
      (op != AppendOp ==> forall k :: 0 < k < n ==> Target(p[k]) == Target(p[k - 1]) + 1)
  {
  }

  /** The device's transfer of one completed read into the payload `buf + ofz`. */
  method Transfer(buf: array<Byte>, ofz: nat, data: seq<Byte>)
    requires ofz + |data| <= buf.Length
    modifies buf
    ensures buf[..ofz] == old(buf[..ofz])
    ensures buf[ofz..ofz + |data|] == data
    ensures buf[ofz + |data|..] == old(buf[ofz + |data|..])
  {
    forall k | 0 <= k < |data| {
      buf[ofz + k] := data[k];
    }
  }

  /** A per-block write or append loop: command `i` sends block `i` of `buf`, and the
      loop stops at the first command that fails, returning `err ? err : -EIO`. */
  method SendBlocks(op: IoOp, slba: nat, n: nat, lbaNbytes: nat, buf: BufferName, cpl: nat -> Completion, base: nat)
    returns (err: int, cmds: seq<Cmd>)
    requires op != ReadOp
    ensures Outcome(err, cmds) == PhaseOutcome(BlockPlan(op, slba, n, lbaNbytes, buf), cpl, base)
  {
    ghost var plan := BlockPlan(op, slba, n, lbaNbytes, buf);
    cmds := [];
    var i := 0;
    while i < n
      invariant i <= n
      invariant cmds == plan[..i]
      invariant forall k :: 0 <= k < i ==> StepSucceeds(plan, cpl, base, k)
    {
      var payload := Payload(buf, i * lbaNbytes, lbaNbytes);
      var cmd := if op == WriteOp then Write(slba + i, 0, payload) else Append(slba, 0, payload);
      var c := cpl(base + i);
      assert cmd == plan[i];
      cmds := cmds + [cmd];
      PrefixNext(plan, i);
      if c.err != 0 || c.status != 0 {
        PhaseStopsAt(plan, cpl, base, i);
        return if c.err != 0 then c.err else -EIO, cmds;
      }
      assert StepSucceeds(plan, cpl, base, i);
      i := i + 1;
    }
    PhaseCompletes(plan, cpl, base);
    return 0, cmds;
  }

  /** Extending the first `i` steps of a plan by step `i`. */
  lemma PrefixNext(plan: seq<Cmd>, i: nat)
    requires i < |plan|
    ensures plan[..i] + [plan[i]] == plan[..i + 1]
  {
  }

  /** Read `i` lands in block `i` of a buffer that holds the `i` blocks read before it. */
  method Deposit(buf: array<Byte>, i: nat, ofz: nat, lbaNbytes: nat, data: seq<Byte>, ghost cpl: nat -> Completion, ghost base: nat)
    requires ofz == i * lbaNbytes && ofz + lbaNbytes <= buf.Length
    requires data == cpl(base + i).data && |data| == lbaNbytes
    requires buf[..ofz] == Gather(cpl, base, i)
    modifies buf
    ensures (i + 1) * lbaNbytes == ofz + lbaNbytes
    ensures buf[..ofz + lbaNbytes] == Gather(cpl, base, i + 1)
  {
    Transfer(buf, ofz, data);
    GatherNext(cpl, base, i, lbaNbytes, buf[..]);
  }

  /** A per-block read loop into `buf`: read `i` lands in block `i` of the buffer. It
      stops at the first read that fails; when none fails the buffer holds every block
      read, in order. */
  method ReadBlocks(buf: array<Byte>, name: BufferName, slba: nat, n: nat, lbaNbytes: nat, cpl: nat -> Completion, base: nat)
    returns (err: int, cmds: seq<Cmd>)
    requires BlockSized(cpl, lbaNbytes)
    requires buf.Length == n * lbaNbytes
    modifies buf
    ensures Outcome(err, cmds) == PhaseOutcome(BlockPlan(ReadOp, slba, n, lbaNbytes, name), cpl, base)
    ensures err == 0 ==> buf[..] == Gather(cpl, base, n)
  {
    ghost var plan := BlockPlan(ReadOp, slba, n, lbaNbytes, name);
    cmds := [];
    var i := 0;
    while i < n
      invariant i <= n
      invariant cmds == plan[..i]
      invariant forall k :: 0 <= k < i ==> StepSucceeds(plan, cpl, base, k)
      invariant buf[..i * lbaNbytes] == Gather(cpl, base, i)
    {
      var ofz := i * lbaNbytes;
      var c := cpl(base + i);
      var cmd := Read(slba + i, 0, Payload(name, ofz, lbaNbytes));
      assert cmd == plan[i];
      cmds := cmds + [cmd];
      PrefixNext(plan, i);
      if c.err != 0 || c.status != 0 {
        PhaseStopsAt(plan, cpl, base, i);
        return if c.err != 0 then c.err else -EIO, cmds;
      }
      assert StepSucceeds(plan, cpl, base, i);
      SlicesOrdered(i, n, lbaNbytes);
      Deposit(buf, i, ofz, lbaNbytes, c.data, cpl, base);
      i := i + 1;
    }
    PhaseCompletes(plan, cpl, base);
    assert buf[..] == buf[..n * lbaNbytes];
    return 0, cmds;
  }
}
