/** The explicit-open test of zoned namespaces (tests/znd_explicit_open.c): it picks
    an empty sequential-write-required zone from a zone report, resets it, opens it
    explicitly with a zone descriptor extension, and checks in a fresh report that
    the zone is explicitly opened and carries that extension.

    A run asks for the first report at position 0 (`dev.report(0)`), sends the reset
    and the open at positions 1 and 2 (`dev.cpl(1)`, `dev.cpl(2)`) and asks for the
    second report at position 3 (`dev.report(3)`). */
module ExplicitOpen {
  import opened Nvme

  /** The size of a zone descriptor extension: `zdes` counts 64-byte units. As `zdes`
      is one byte, the product never wraps in 32 bits. */
  function ZdeSize(zdes: U8): (n: U32)
    ensures n % 64 == 0 && n / 64 == zdes
    ensures n == 0 <==> zdes == 0
  {
    zdes * 64
  }

  /** A zone the test can use: empty, sequential-write-required, with a non-zero
      capacity, and, when the SLBA option was given, starting at `lba`, the tool's
      `lba` argument (the option itself sets `slba`, which the scan never reads). */
  predicate Usable(d: ZoneDescr, lba: nat, slbaGiven: bool)
  {
    (!slbaGiven || d.zslba == lba) && d.zs == Empty && d.zt == SeqWriteRequired && d.zcap != 0
  }

  /** The lowest index of a usable zone, or `|entries|` when there is none. */
  function FirstUsable(entries: seq<ZoneEntry>, lba: nat, slbaGiven: bool): (r: nat)
    ensures r <= |entries|
    ensures forall i :: 0 <= i < r ==> !Usable(entries[i].descr, lba, slbaGiven)
    ensures r < |entries| ==> Usable(entries[r].descr, lba, slbaGiven)
    decreases |entries|
  {
    if |entries| == 0 then 0
    else if Usable(entries[0].descr, lba, slbaGiven) then 0
    else
      var rest := FirstUsable(entries[1..], lba, slbaGiven);
      assert forall i :: 1 <= i < 1 + rest ==> entries[i] == entries[1..][i - 1];
      1 + rest
  }

  /** The zone the scan settles on, as `(zslba, zidx)`: the first usable zone, or,
      when there is none, the initial `(lba, 0)`. */
  function Scan(before: Report, lba: nat, slbaGiven: bool): (nat, nat)
  {
    var r := FirstUsable(before.entries, lba, slbaGiven);
    if r < |before.entries| then (before.entries[r].descr.zslba, r) else (lba, 0)
  }

  /** The scan loop over the first report; it stops at the first usable zone. */
  method ScanZones(before: Report, lba: nat, slbaGiven: bool) returns (zslba: nat, zidx: nat)
    ensures (zslba, zidx) == Scan(before, lba, slbaGiven)
  {
    zslba, zidx := lba, 0;
    var idx := 0;
    while idx < |before.entries|
      invariant idx <= |before.entries|
      invariant idx <= FirstUsable(before.entries, lba, slbaGiven)
    {
      var descr := before.entries[idx].descr;
      if slbaGiven && lba != descr.zslba {
        idx := idx + 1;
        continue;
      }
      if descr.zs == Empty && descr.zt == SeqWriteRequired && descr.zcap != 0 {
        zslba, zidx := descr.zslba, idx;
        break;
      }
      idx := idx + 1;
    }
  }

  /** The first `|zde|` bytes of the extension `ext` are `zde`; a shorter extension
      counts as different. */
  predicate ExtHolds(ext: seq<Byte>, zde: seq<Byte>)
  {
    |zde| <= |ext| && ext[..|zde|] == zde
  }

  /** The verification chain on the zone's entry in the second report: the first
      check that fails returns -EIO. */
  function VerifyOpened(entry: ZoneEntry, zde: seq<Byte>): (r: int)
    ensures r == 0 <==> ExtHolds(entry.ext, zde) && entry.descr.zdev && entry.descr.zs == ExplicitlyOpened
    ensures r != 0 ==> r == -EIO
  {
    if !ExtHolds(entry.ext, zde) then -EIO
    else if !entry.descr.zdev then -EIO
    else if entry.descr.zs != ExplicitlyOpened then -EIO
    else 0
  }

  /** When both reports succeed, the second one has an entry at the index the scan
      of the first settles on. */
  predicate ReportsCover(dev: Device, lba: nat, slbaGiven: bool)
  {
    dev.report(0).Reported? && dev.report(3).Reported? ==>
      Scan(dev.report(0).report, lba, slbaGiven).1 < |dev.report(3).report.entries|
  }

  /** The reset then the open of zone `zslba`; only the open carries the extension. */
  function Mgmt(zslba: nat, zde: seq<Byte>): seq<Cmd>
  {
    [ZoneMgmtSend(zslba, Reset, None), ZoneMgmtSend(zslba, Open, Some(zde))]
  }

  /** What the test returns and sends, given the LBA format's `zdes`, the fill
      pattern `fill(n)` of an `n`-byte buffer, the initial `lba` and whether an SLBA
      was given. A failed report returns the negated errno it leaves behind. */
  function OpenOutcome(zdes: U8, fill: nat -> seq<Byte>, lba: nat, slbaGiven: bool, dev: Device): Outcome
    requires ReportsCover(dev, lba, slbaGiven)
  {
    var n := ZdeSize(zdes);
    if n == 0 then Outcome(-EINVAL, [])
    else match dev.report(0)
      case ReportFailed(e) => Outcome(-e, [ZoneReport])
      case Reported(before) =>
        var (zslba, zidx) := Scan(before, lba, slbaGiven);
        if zslba == 0 then Outcome(-ENOSPC, [ZoneReport])
        else
          var mgmt := Mgmt(zslba, fill(n));
          var o := PhaseOutcome(mgmt, dev.cpl, 1);
          if o.ret != 0 then Outcome(o.ret, [ZoneReport] + o.issued)
          else match dev.report(3)
            case ReportFailed(e) => Outcome(-e, [ZoneReport] + mgmt + [ZoneReport])
            case Reported(after) =>
              Outcome(VerifyOpened(after.entries[zidx], fill(n)), [ZoneReport] + mgmt + [ZoneReport])
  }

  /** `test_open_zdptr`. */
  method TestOpenZdptr(zdes: U8, fill: nat -> seq<Byte>, lba: nat, slbaGiven: bool, dev: Device)
    returns (err: int, issued: seq<Cmd>)
    requires ReportsCover(dev, lba, slbaGiven)
    ensures Outcome(err, issued) == OpenOutcome(zdes, fill, lba, slbaGiven, dev)
  {
    var zdeNbytes := ZdeSize(zdes);
    if zdeNbytes == 0 {
      return -EINVAL, [];
    }
    var zde := fill(zdeNbytes);
    issued := [ZoneReport];
    var reply := dev.report(0);
    if reply.ReportFailed? {
      return -reply.errno, issued;
    }
    var zslba, zidx := ScanZones(reply.report, lba, slbaGiven);
    if zslba == 0 {
      return -ENOSPC, issued;
    }
    err, issued := ResetThenOpen(zslba, zde, dev);
    if err != 0 {
      return err, [ZoneReport] + issued;
    }
    issued := [ZoneReport] + issued + [ZoneReport];
    var after := dev.report(3);
    if after.ReportFailed? {
      return -after.errno, issued;
    }
    err := VerifyOpened(after.report.entries[zidx], zde);
  }

  /** The reset, then, when it succeeded, the explicit open with the extension. */
  method ResetThenOpen(zslba: nat, zde: seq<Byte>, dev: Device) returns (err: int, issued: seq<Cmd>)
    ensures Outcome(err, issued) == PhaseOutcome(Mgmt(zslba, zde), dev.cpl, 1)
  {
    ghost var mgmt := Mgmt(zslba, zde);
    var c := dev.cpl(1);
    issued := [ZoneMgmtSend(zslba, Reset, None)];
    if c.err != 0 || c.status != 0 {
      FirstFailureIs(mgmt, dev.cpl, 1, 0);
      return if c.err != 0 then c.err else -EIO, issued;
    }
    assert StepSucceeds(mgmt, dev.cpl, 1, 0);
    c := dev.cpl(2);
    issued := issued + [ZoneMgmtSend(zslba, Open, Some(zde))];
    if c.err != 0 || c.status != 0 {
      FirstFailureIs(mgmt, dev.cpl, 1, 1);
      return if c.err != 0 then c.err else -EIO, issued;
    }
    assert StepSucceeds(mgmt, dev.cpl, 1, 1);
    FirstFailureIs(mgmt, dev.cpl, 1, 2);
    return 0, issued;
  }

  /** A zero-sized extension is refused before anything is sent. */
  lemma ZeroExtensionRefused(fill: nat -> seq<Byte>, lba: nat, slbaGiven: bool, dev: Device)
    requires ReportsCover(dev, lba, slbaGiven)
    ensures OpenOutcome(0, fill, lba, slbaGiven, dev) == Outcome(-EINVAL, [])
  {
  }

  /** The scan settles on the lowest-indexed usable zone when there is one, and
      otherwise keeps `zslba = lba` and `zidx = 0`. */
  lemma ScanSelectsLowestUsable(before: Report, lba: nat, slbaGiven: bool)
    ensures var (zslba, zidx) := Scan(before, lba, slbaGiven);
      var es := before.entries;
      ((exists i :: 0 <= i < |es| && Usable(es[i].descr, lba, slbaGiven)) ==>
        zidx < |es| && Usable(es[zidx].descr, lba, slbaGiven) && zslba == es[zidx].descr.zslba &&
        forall i :: 0 <= i < zidx ==> !Usable(es[i].descr, lba, slbaGiven)) &&
      ((forall i :: 0 <= i < |es| ==> !Usable(es[i].descr, lba, slbaGiven)) ==> zslba == lba && zidx == 0)
  {
    var es := before.entries;
    var r := FirstUsable(es, lba, slbaGiven);
    if i :| 0 <= i < |es| && Usable(es[i].descr, lba, slbaGiven) {
      assert r <= i;
    }
  }

  /** The LBA-zero quirk: a usable zone that starts at LBA 0 is taken for "no zone
      found", so the run ends with -ENOSPC after the first report. */
  lemma ZoneAtLbaZeroIsNoSpace(zdes: U8, fill: nat -> seq<Byte>, lba: nat, slbaGiven: bool, dev: Device, i: nat)
    requires ReportsCover(dev, lba, slbaGiven) && zdes != 0 && dev.report(0).Reported?
    requires i < |dev.report(0).report.entries|
    requires Usable(dev.report(0).report.entries[i].descr, lba, slbaGiven)
    requires dev.report(0).report.entries[i].descr.zslba == 0
    requires forall k :: 0 <= k < i ==> !Usable(dev.report(0).report.entries[k].descr, lba, slbaGiven)
    ensures OpenOutcome(zdes, fill, lba, slbaGiven, dev) == Outcome(-ENOSPC, [ZoneReport])
  {
    var es := dev.report(0).report.entries;
    var r := FirstUsable(es, lba, slbaGiven);
    assert r <= i;
  }

  /** With no usable zone and a non-zero initial `lba`, the test does not stop: it
      resets and opens the zone at `lba` and verifies entry 0 of the second report. */
  lemma UnmatchedLbaProceeds(zdes: U8, fill: nat -> seq<Byte>, lba: nat, slbaGiven: bool, dev: Device)
    requires ReportsCover(dev, lba, slbaGiven) && zdes != 0 && dev.report(0).Reported? && lba != 0
    requires forall k :: 0 <= k < |dev.report(0).report.entries| ==>
      !Usable(dev.report(0).report.entries[k].descr, lba, slbaGiven)
    requires !StepFails(ZoneMgmtSend(lba, Reset, None), dev.cpl(1))
    ensures var o := OpenOutcome(zdes, fill, lba, slbaGiven, dev);
      |o.issued| >= 3 && o.issued[1] == ZoneMgmtSend(lba, Reset, None) &&
      o.issued[2] == ZoneMgmtSend(lba, Open, Some(fill(ZdeSize(zdes)))) &&
      (!StepFails(o.issued[2], dev.cpl(2)) && dev.report(3).Reported? ==>
        o.ret == VerifyOpened(dev.report(3).report.entries[0], fill(ZdeSize(zdes))))
  {
    ScanSelectsLowestUsable(dev.report(0).report, lba, slbaGiven);
    var mgmt := Mgmt(lba, fill(ZdeSize(zdes)));
    assert StepSucceeds(mgmt, dev.cpl, 1, 0);
    if StepFails(mgmt[1], dev.cpl(2)) {
      FirstFailureIs(mgmt, dev.cpl, 1, 1);
    } else {
      assert StepSucceeds(mgmt, dev.cpl, 1, 1);
      FirstFailureIs(mgmt, dev.cpl, 1, 2);
    }
  }

  /** Once a zone is chosen, the reset is sent to it first, without an extension; the
      open, carrying the extension, follows only when the reset succeeded; the second
      report is asked for only when both succeeded. A failure with a zero error but a
      non-zero status returns -EIO. */
  lemma ResetThenOpenStops(zdes: U8, fill: nat -> seq<Byte>, lba: nat, slbaGiven: bool, dev: Device)
    requires ReportsCover(dev, lba, slbaGiven) && zdes != 0 && dev.report(0).Reported?
    requires Scan(dev.report(0).report, lba, slbaGiven).0 != 0
    ensures var o := OpenOutcome(zdes, fill, lba, slbaGiven, dev);
      var zslba := Scan(dev.report(0).report, lba, slbaGiven).0;
      var reset := ZoneMgmtSend(zslba, Reset, None);
      var open := ZoneMgmtSend(zslba, Open, Some(fill(ZdeSize(zdes))));
      (StepFails(reset, dev.cpl(1)) ==>
        o == Outcome(StepError(reset, dev.cpl(1)), [ZoneReport, reset]) &&
        (dev.cpl(1).err == 0 ==> o.ret == -EIO)) &&
      (!StepFails(reset, dev.cpl(1)) && StepFails(open, dev.cpl(2)) ==>
        o == Outcome(StepError(open, dev.cpl(2)), [ZoneReport, reset, open]) &&
        (dev.cpl(2).err == 0 ==> o.ret == -EIO)) &&
      (!StepFails(reset, dev.cpl(1)) && !StepFails(open, dev.cpl(2)) ==>
        o.issued == [ZoneReport, reset, open, ZoneReport])
  {
    var zslba := Scan(dev.report(0).report, lba, slbaGiven).0;
    var mgmt := Mgmt(zslba, fill(ZdeSize(zdes)));
    if StepFails(mgmt[0], dev.cpl(1)) {
      FirstFailureIs(mgmt, dev.cpl, 1, 0);
    } else if StepFails(mgmt[1], dev.cpl(2)) {
      assert StepSucceeds(mgmt, dev.cpl, 1, 0);
      FirstFailureIs(mgmt, dev.cpl, 1, 1);
    } else {
      assert StepSucceeds(mgmt, dev.cpl, 1, 0);
      assert StepSucceeds(mgmt, dev.cpl, 1, 1);
      FirstFailureIs(mgmt, dev.cpl, 1, 2);
    }
  }

  /** After a successful reset and open, the verdict comes from the second report
      alone: 0 exactly when the chosen zone's entry there carries the extension, has
      its "extension valid" attribute set and is explicitly opened, -EIO otherwise. */
  lemma VerdictFromFreshReport(zdes: U8, fill: nat -> seq<Byte>, lba: nat, slbaGiven: bool, dev: Device)
    requires ReportsCover(dev, lba, slbaGiven) && zdes != 0 && dev.report(0).Reported? && dev.report(3).Reported?
    requires Scan(dev.report(0).report, lba, slbaGiven).0 != 0
    requires !StepFails(ZoneMgmtSend(Scan(dev.report(0).report, lba, slbaGiven).0, Reset, None), dev.cpl(1))
    requires !StepFails(ZoneMgmtSend(Scan(dev.report(0).report, lba, slbaGiven).0, Open, Some(fill(ZdeSize(zdes)))), dev.cpl(2))
    ensures var o := OpenOutcome(zdes, fill, lba, slbaGiven, dev);
      var zidx := Scan(dev.report(0).report, lba, slbaGiven).1;
      var entry := dev.report(3).report.entries[zidx];
      zidx < |dev.report(3).report.entries| &&
      (o.ret == 0 <==> ExtHolds(entry.ext, fill(ZdeSize(zdes))) && entry.descr.zdev && entry.descr.zs == ExplicitlyOpened) &&
      (o.ret != 0 ==> o.ret == -EIO)
  {
    ResetThenOpenStops(zdes, fill, lba, slbaGiven, dev);
    var mgmt := Mgmt(Scan(dev.report(0).report, lba, slbaGiven).0, fill(ZdeSize(zdes)));
    assert StepSucceeds(mgmt, dev.cpl, 1, 0);
    assert StepSucceeds(mgmt, dev.cpl, 1, 1);
    FirstFailureIs(mgmt, dev.cpl, 1, 2);
  }

  /** The first report only chooses the zone: two devices whose first reports lead
      the scan to the same zone, and which answer everything else alike, give the
      same outcome, whatever else their first reports say about that zone. */
  lemma FirstReportOnlyChoosesZone(zdes: U8, fill: nat -> seq<Byte>, lba: nat, slbaGiven: bool, dev: Device, dev': Device)
    requires ReportsCover(dev, lba, slbaGiven) && ReportsCover(dev', lba, slbaGiven)
    requires dev.report(0).Reported? && dev'.report(0).Reported?
    requires Scan(dev.report(0).report, lba, slbaGiven) == Scan(dev'.report(0).report, lba, slbaGiven)
    requires dev.cpl == dev'.cpl && dev.report(3) == dev'.report(3)
    ensures OpenOutcome(zdes, fill, lba, slbaGiven, dev) == OpenOutcome(zdes, fill, lba, slbaGiven, dev')
  {
  }
}
