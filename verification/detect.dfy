/** `DetectBoardsThread.run` of both front-ends: every serial port is probed
    with `esptool flash_id`, and each probe that ends normally or times out
    contributes one board record, in port order. */
module Detect {
  import opened Wrappers
  import opened Text
  import opened Decimal
  import opened Probe

  /** What `list_ports.comports()` reports for one port. */
  datatype Port = Port(device: string, description: string)

  /** How `subprocess.run(..., timeout=10)` ended for one port: an exit code
      with the captured text, a `TimeoutExpired`, or any other exception. */
  datatype ProbeOutcome =
    | Exited(code: int, stdout: string, stderr: string)
    | TimedOut
    | Crashed

  /** The Pro record's `status` key. */
  datatype Status = Detected | Failed | Timeout

  /** The keys both front-ends store for a board. */
  datatype Board = Board(port: string, description: string, chip: string, mac: string, flash: string)

  /** A Pro record: the board and its status. */
  datatype Detection = Detection(board: Board, status: Status)

  const FailedChip := "Not ESP / Detection failed"
  const TimeoutChip := "Detection timeout"

  /** The interpreter running the esptool module with the device as port and
      the `flash_id` command; the same in both front-ends. */
  function ProbeCommand(python: string, device: string): (r: seq<string>)
    ensures |r| == 6 && r[0] == python && r[4] == device && r[5] == "flash_id"
  {
    [python, "-m", "esptool", "--port", device, "flash_id"]
  }

  /** The record one probe contributes, None for a dropped port. */
  function DetectionOf(c: Classifier, p: Port, o: ProbeOutcome): (r: Option<Detection>)
    ensures r.None? <==> o.Crashed?
    ensures r.Some? ==> r.value.board.port == p.device && r.value.board.description == p.description
  {
    match o
    case Crashed => None
    case TimedOut => Some(Detection(Board(p.device, p.description, TimeoutChip, "N/A", "N/A"), Timeout))
    case Exited(code, out, err) =>
      if code == 0 then
        var info := ProbeInfo(c, out, err);
        Some(Detection(Board(p.device, p.description, info.chip, info.mac, info.flash), Detected))
      else
        Some(Detection(Board(p.device, p.description, FailedChip, "N/A", "N/A"), Failed))
  }

  /** A probe that exits with 0 is detected with what its output reports; a
      non-zero exit or a timeout gives a failure record with "N/A" fields. */
  lemma ProbeOutcomes(c: Classifier, p: Port, o: ProbeOutcome)
    requires !o.Crashed?
    ensures var d := DetectionOf(c, p, o).value;
            && (d.status == Detected <==> o.Exited? && o.code == 0)
            && (d.status == Timeout <==> o.TimedOut?)
            && (d.status == Detected ==> var info := ProbeInfo(c, o.stdout, o.stderr);
                  d.board.chip == info.chip && d.board.mac == info.mac && d.board.flash == info.flash)
            && (d.status != Detected ==>
                  d.board.mac == "N/A" && d.board.flash == "N/A"
                  && d.board.chip == (if o.TimedOut? then TimeoutChip else FailedChip))
  {
  }

  function AsSeq<T>(o: Option<T>): (r: seq<T>)
    ensures |r| == (if o.Some? then 1 else 0)
    ensures o.Some? ==> r[0] == o.value
  {
    match o
    case None => []
    case Some(v) => [v]
  }

  /** The records of a complete scan, port by port. */
  function Records(c: Classifier, ports: seq<Port>, probes: seq<ProbeOutcome>): seq<Detection>
    requires |probes| == |ports|
  {
    if ports == [] then []
    else
      var n := |ports| - 1;
      Records(c, ports[..n], probes[..n]) + AsSeq(DetectionOf(c, ports[n], probes[n]))
  }

  /** The basic records carry no status. */
  function Boards(ds: seq<Detection>): (r: seq<Board>)
    ensures |r| == |ds|
    ensures forall k :: 0 <= k < |ds| ==> r[k] == ds[k].board
  {
    seq(|ds|, k requires 0 <= k < |ds| => ds[k].board)
  }

  /** Number of ports the loop reaches before the running flag, cleared
      before port `stopAt`, ends it. */
  function Reached(n: nat, stopAt: Option<nat>): (m: nat)
    ensures m <= n
    ensures stopAt.None? ==> m == n
    ensures stopAt.Some? ==> m == Min(stopAt.value, n)
  {
    match stopAt
    case None => n
    case Some(k) => if k < n then k else n
  }

  /** A Pro progress message before probing a port, kept as the three values
      its text shows: the device, its 1-based position among all ports, and
      the number of ports. */
  datatype Scanning = Scanning(device: string, position: nat, total: nat)

  // ---------------------------------------------------------------------
  // The two thread loops
  // ---------------------------------------------------------------------

  /** The Pro loop: before each port the flag is checked, a progress text is
      emitted and the probe is started; its outcome yields at most one record. */
  method DetectPro(python: string, ports: seq<Port>, probes: seq<ProbeOutcome>, stopAt: Option<nat>)
    returns (records: seq<Detection>, progress: seq<Scanning>, commands: seq<seq<string>>)
    requires |probes| == |ports|
    ensures var m := Reached(|ports|, stopAt);
            records == Records(Flat, ports[..m], probes[..m])
    ensures |progress| == |commands| == Reached(|ports|, stopAt)
    ensures forall i :: 0 <= i < |progress| ==> progress[i] == Scanning(ports[i].device, i + 1, |ports|)
    ensures forall i :: 0 <= i < |commands| ==> commands[i] == ProbeCommand(python, ports[i].device)
  {
    records, progress, commands := [], [], [];
    var i := 0;
    while i < |ports|
      invariant 0 <= i <= Reached(|ports|, stopAt)
      invariant records == Records(Flat, ports[..i], probes[..i])
      invariant |progress| == |commands| == i
      invariant forall j :: 0 <= j < i ==> progress[j] == Scanning(ports[j].device, j + 1, |ports|)
      invariant forall j :: 0 <= j < i ==> commands[j] == ProbeCommand(python, ports[j].device)
    {
      if stopAt == Some(i) {
        break;
      }
      progress := progress + [Scanning(ports[i].device, i + 1, |ports|)];
      commands := commands + [ProbeCommand(python, ports[i].device)];
      RecordsStep(Flat, ports, probes, i);
      records := records + AsSeq(DetectionOf(Flat, ports[i], probes[i]));
      i := i + 1;
    }
  }

  /** The basic loop: no progress texts, records without status, and the
      nested classifier. */
  method DetectBasic(python: string, ports: seq<Port>, probes: seq<ProbeOutcome>, stopAt: Option<nat>)
    returns (boards: seq<Board>, commands: seq<seq<string>>)
    requires |probes| == |ports|
    ensures var m := Reached(|ports|, stopAt);
            boards == Boards(Records(Nested, ports[..m], probes[..m]))
    ensures |commands| == Reached(|ports|, stopAt)
    ensures forall i :: 0 <= i < |commands| ==> commands[i] == ProbeCommand(python, ports[i].device)
  {
    boards, commands := [], [];
    var i := 0;
    ghost var records: seq<Detection> := [];
    while i < |ports|
      invariant 0 <= i <= Reached(|ports|, stopAt)
      invariant records == Records(Nested, ports[..i], probes[..i])
      invariant boards == Boards(records)
      invariant |commands| == i
      invariant forall j :: 0 <= j < i ==> commands[j] == ProbeCommand(python, ports[j].device)
    {
      if stopAt == Some(i) {
        break;
      }
      commands := commands + [ProbeCommand(python, ports[i].device)];
      RecordsStep(Nested, ports, probes, i);
      var d := DetectionOf(Nested, ports[i], probes[i]);
      records := records + AsSeq(d);
      if d.Some? {
        boards := boards + [d.value.board];
      }
      i := i + 1;
    }
  }

  // ---------------------------------------------------------------------
  // Properties of the scan
  // ---------------------------------------------------------------------

  /** The indices of the ports whose probe did not crash, in order. */
  function Kept(probes: seq<ProbeOutcome>): (r: seq<nat>)
    ensures |r| <= |probes|
    ensures forall j :: 0 <= j < |r| ==> r[j] < |probes| && !probes[r[j]].Crashed?
    ensures forall j, k :: 0 <= j < k < |r| ==> r[j] < r[k]
    ensures forall i :: 0 <= i < |probes| && !probes[i].Crashed? ==> i in r
  {
    if probes == [] then []
    else
      var n := |probes| - 1;
      var init := Kept(probes[..n]);
      if probes[n].Crashed? then init else init + [n]
  }

  /** Record `j` belongs to the `j`-th port whose probe did not crash: at most
      one record per port, in port order, and nothing for a crashed probe. */
  lemma {:induction false} RecordsFollowPorts(c: Classifier, ports: seq<Port>, probes: seq<ProbeOutcome>)
    requires |probes| == |ports|
    ensures var rs := Records(c, ports, probes);
            var ks := Kept(probes);
            |rs| == |ks|
            && forall j :: 0 <= j < |rs| ==> Some(rs[j]) == DetectionOf(c, ports[ks[j]], probes[ks[j]])
  {
    if ports != [] {
      var n := |ports| - 1;
      RecordsFollowPorts(c, ports[..n], probes[..n]);
      var rs0 := Records(c, ports[..n], probes[..n]);
      var ks0 := Kept(probes[..n]);
      var last := AsSeq(DetectionOf(c, ports[n], probes[n]));
      var rs := rs0 + last;
      var ks := Kept(probes);
      assert ks == if probes[n].Crashed? then ks0 else ks0 + [n];
      forall j | 0 <= j < |rs0|
        ensures Some(rs[j]) == DetectionOf(c, ports[ks[j]], probes[ks[j]])
      {
        var k := ks0[j];
        assert ks[j] == k && rs[j] == rs0[j];
        assert ports[..n][k] == ports[k] && probes[..n][k] == probes[k];
      }
    }
  }

  /** Without crashes every port gets its record, at its own index. */
  lemma OnePerPort(c: Classifier, ports: seq<Port>, probes: seq<ProbeOutcome>)
    requires |probes| == |ports|
    requires forall i :: 0 <= i < |probes| ==> !probes[i].Crashed?
    ensures var rs := Records(c, ports, probes);
            |rs| == |ports| && forall i :: 0 <= i < |rs| ==> rs[i].board.port == ports[i].device
  {
    RecordsFollowPorts(c, ports, probes);
    KeptAll(probes);
  }

  /** Without crashes every index is kept, each at its own position. */
  lemma {:induction false} KeptAll(probes: seq<ProbeOutcome>)
    requires forall i :: 0 <= i < |probes| ==> !probes[i].Crashed?
    ensures |Kept(probes)| == |probes|
    ensures forall i :: 0 <= i < |probes| ==> Kept(probes)[i] == i
  {
    if probes != [] {
      KeptAll(probes[..|probes| - 1]);
    }
  }

  /** Scanning is a fold: the records of a longer port list extend those of
      its prefix. */
  lemma {:induction false} RecordsAppend(c: Classifier, p1: seq<Port>, o1: seq<ProbeOutcome>,
                                         p2: seq<Port>, o2: seq<ProbeOutcome>)
    requires |o1| == |p1| && |o2| == |p2|
    ensures Records(c, p1 + p2, o1 + o2) == Records(c, p1, o1) + Records(c, p2, o2)
    decreases |p2|
  {
    if p2 == [] {
      assert p1 + p2 == p1 && o1 + o2 == o1;
    } else {
      var n := |p2| - 1;
      AppendDropLast(p1, p2);
      AppendDropLast(o1, o2);
      RecordsAppend(c, p1, o1, p2[..n], o2[..n]);
      AppendAssoc(Records(c, p1, o1), Records(c, p2[..n], o2[..n]), AsSeq(DetectionOf(c, p2[n], o2[n])));
    }
  }

  /** One more port adds that port's record, if any. */
  lemma RecordsStep(c: Classifier, ports: seq<Port>, probes: seq<ProbeOutcome>, i: nat)
    requires |probes| == |ports| && i < |ports|
    ensures Records(c, ports[..i + 1], probes[..i + 1])
            == Records(c, ports[..i], probes[..i]) + AsSeq(DetectionOf(c, ports[i], probes[i]))
  {
    TakeOneMore(ports, i);
    TakeOneMore(probes, i);
  }

  /** The basic records are the Pro records without their status. */
  lemma {:induction false} BasicIsProWithoutStatus(ports: seq<Port>, probes: seq<ProbeOutcome>)
    requires |probes| == |ports|
    ensures Boards(Records(Nested, ports, probes)) == Boards(Records(Flat, ports, probes))
  {
    if ports != [] {
      var n := |ports| - 1;
      BasicIsProWithoutStatus(ports[..n], probes[..n]);
      if probes[n].Exited? {
        ScannersAgree(SplitLines(probes[n].stdout + probes[n].stderr));
      }
      var a := Records(Nested, ports[..n], probes[..n]);
      var b := Records(Flat, ports[..n], probes[..n]);
      var da := AsSeq(DetectionOf(Nested, ports[n], probes[n]));
      var db := AsSeq(DetectionOf(Flat, ports[n], probes[n]));
      assert Boards(da) == Boards(db);
      BoardsAppend(a, da);
      BoardsAppend(b, db);
    }
  }

  lemma BoardsAppend(a: seq<Detection>, b: seq<Detection>)
    ensures Boards(a + b) == Boards(a) + Boards(b)
  {
  }
}
