/** The ESP-device counter of `DashboardPage.on_detection_finished` in both
    front-ends.  The basic page judges a row by its chip text alone; the Pro
    page also needs the record's status to be "detected". */
module Dashboard {
  import opened Text
  import opened Probe
  import opened Detect

  /** Basic: upper(chip) mentions "ESP" and lower(chip) mentions neither
      "failed" nor "timeout". */
  predicate CountedBasic(chip: string) {
    Contains(Upper(chip), "ESP") && !Contains(Lower(chip), "failed") && !Contains(Lower(chip), "timeout")
  }

  /** Pro: status "detected" and upper(chip) mentions "ESP". */
  predicate CountedPro(d: Detection) {
    d.status == Detected && Contains(Upper(d.board.chip), "ESP")
  }

  function EspCountBasic(boards: seq<Board>): (n: nat)
    ensures n <= |boards|
    ensures n == 0 <==> forall i :: 0 <= i < |boards| ==> !CountedBasic(boards[i].chip)
  {
    if boards == [] then 0
    else
      var n := |boards| - 1;
      EspCountBasic(boards[..n]) + (if CountedBasic(boards[n].chip) then 1 else 0)
  }

  function EspCountPro(ds: seq<Detection>): (n: nat)
    ensures n <= |ds|
    ensures n == 0 <==> forall i :: 0 <= i < |ds| ==> !CountedPro(ds[i])
  {
    if ds == [] then 0
    else
      var n := |ds| - 1;
      EspCountPro(ds[..n]) + (if CountedPro(ds[n]) then 1 else 0)
  }

  // ---------------------------------------------------------------------
  // Which chip texts count
  // ---------------------------------------------------------------------

  /** A failed probe's row never counts. */
  lemma FailedNotCounted()
    ensures !CountedBasic(FailedChip)
  {
    var l := Lower(FailedChip);
    assert l[20..26] == "failed";
    assert OccursAt(l, "failed", 20);
    ContainsIff(l, "failed");
  }

  /** A timed-out probe's row never counts. */
  lemma TimeoutNotCounted()
    ensures !CountedBasic(TimeoutChip)
  {
    var l := Lower(TimeoutChip);
    assert l[10..17] == "timeout";
    assert OccursAt(l, "timeout", 10);
    ContainsIff(l, "timeout");
  }

  /** A board whose family was not recognised never counts. */
  lemma UnknownNotCounted()
    ensures !Contains(Upper(Defaults.chip), "ESP")
  {
    var u := Upper(Defaults.chip);
    assert forall k :: 0 <= k < |u| ==> u[k] != 'E';
    NotContainsWithoutHead(u, "ESP");
  }

  /** Every family name counts. */
  lemma NameCounted(f: Family)
    ensures CountedBasic(Name(f))
  {
    var r := Name(f);
    assert forall k :: 0 <= k < |r| ==> r[k] !in "fFtT";
    var l := Lower(r);
    assert forall k :: 0 <= k < |l| ==> l[k] != 'f' && l[k] != 't';
    NotContainsWithoutHead(l, "failed");
    NotContainsWithoutHead(l, "timeout");
  }

  /** The records a probe can produce. */
  predicate WellFormed(d: Detection) {
    match d.status
    case Detected => KnownChip(d.board.chip)
    case Failed => d.board.chip == FailedChip
    case Timeout => d.board.chip == TimeoutChip
  }

  /** On any record a probe produces, the two pages agree on whether it is
      an ESP device. */
  lemma CountedAgree(d: Detection)
    requires WellFormed(d)
    ensures CountedPro(d) <==> CountedBasic(d.board.chip)
  {
    match d.status
    case Detected =>
      if d.board.chip == Defaults.chip {
        UnknownNotCounted();
      } else {
        var f :| d.board.chip == Name(f);
        NameCounted(f);
      }
    case Failed => FailedNotCounted();
    case Timeout => TimeoutNotCounted();
  }

  lemma DetectionWellFormed(c: Classifier, p: Port, o: ProbeOutcome)
    requires !o.Crashed?
    ensures WellFormed(DetectionOf(c, p, o).value)
  {
    ProbeOutcomes(c, p, o);
    if o.Exited? && o.code == 0 {
      ScanChipKnown(c, SplitLines(o.stdout + o.stderr));
    }
  }

  lemma {:induction false} RecordsWellFormed(c: Classifier, ports: seq<Port>, probes: seq<ProbeOutcome>)
    requires |probes| == |ports|
    ensures forall i :: 0 <= i < |Records(c, ports, probes)| ==> WellFormed(Records(c, ports, probes)[i])
  {
    if ports != [] {
      var n := |ports| - 1;
      RecordsWellFormed(c, ports[..n], probes[..n]);
      if !probes[n].Crashed? {
        DetectionWellFormed(c, ports[n], probes[n]);
      }
    }
  }

  lemma {:induction false} CountsAgree(ds: seq<Detection>)
    requires forall i :: 0 <= i < |ds| ==> WellFormed(ds[i])
    ensures EspCountPro(ds) == EspCountBasic(Boards(ds))
  {
    if ds != [] {
      var n := |ds| - 1;
      CountsAgree(ds[..n]);
      CountedAgree(ds[n]);
      assert Boards(ds)[..n] == Boards(ds[..n]);
    }
  }

  /** For the same ports and probe outcomes the two dashboards report the
      same number of ESP devices. */
  lemma DashboardsAgree(ports: seq<Port>, probes: seq<ProbeOutcome>)
    requires |probes| == |ports|
    ensures EspCountPro(Records(Flat, ports, probes))
            == EspCountBasic(Boards(Records(Nested, ports, probes)))
  {
    RecordsWellFormed(Flat, ports, probes);
    CountsAgree(Records(Flat, ports, probes));
    BasicIsProWithoutStatus(ports, probes);
  }
}
