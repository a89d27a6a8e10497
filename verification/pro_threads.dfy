/** `FlashThread.run` and `BackupThread.run` of the Pro front-end.  A run is
    a function of whether the firmware file exists, the scripted child
    processes, and the point at which the thread finds its running flag
    cleared (`cancelAt`, counted in output lines read by the thread across
    both children). */
module ProThreads {
  import opened Wrappers
  import opened Text
  import opened Decimal
  import opened Events
  import opened Commands

  datatype FlashRequest = FlashRequest(
    target: Target, firmwarePath: string, address: string, erase: bool, ota: bool, verify: bool)

  /** Texts the thread formats from floating-point values (`file_size / 1024`
      with two decimals, elapsed seconds with two decimals), taken as given. */
  datatype Measured = Measured(sizeKb: string, elapsed: string)

  const ErasingText := "Erasing flash..."
  const EraseFailedMessage := "Failed to erase flash"

  /** An erase output line is forwarded at 10% when it is not blank. */
  function EraseLineEvents(line: string): (r: seq<Event>)
    ensures |r| <= 1
    ensures r == [] <==> Strip(line) == ""
    ensures r != [] ==> r[0] == Progress(10, Strip(line))
  {
    if Strip(line) != "" then [Progress(10, Strip(line))] else []
  }

  function EraseEvents(lines: seq<string>): (r: seq<Event>)
    ensures FinishedCount(r) == 0
    ensures |r| <= |lines|
  {
    if lines == [] then []
    else
      FinishedCountAppend(EraseLineEvents(lines[0]), EraseEvents(lines[1..]));
      EraseLineEvents(lines[0]) + EraseEvents(lines[1..])
  }

  /** The three announcements emitted before the write process starts. */
  function PrepareEvents(req: FlashRequest, m: Measured): (r: seq<Event>)
    ensures |r| == 3
    ensures FinishedCount(r) == 0
  {
    Announced("Preparing flash... File: " + Basename(req.firmwarePath),
              "Size: " + m.sizeKb + " KB",
              "Chip: " + req.target.chip)
  }

  /** Announcements at 15, 20 and 25 percent. */
  function Announced(t1: string, t2: string, t3: string): (r: seq<Event>)
    ensures r == [Progress(15, t1), Progress(20, t2), Progress(25, t3)]
    ensures FinishedCount(r) == 0
  {
    var r := [Progress(15, t1), Progress(20, t2), Progress(25, t3)];
    assert forall i :: 0 <= i < |r| ==> r[i].Progress?;
    r
  }

  /** What follows the write output once the process has exited. */
  function FlashOutcome(exitCode: int, m: Measured): (r: seq<Event>)
    ensures EndsWithOneFinished(r)
    ensures r[|r| - 1].success <==> exitCode == 0
    ensures exitCode == 0 ==> |r| == 2 && r[0] == Progress(100, "Flash completed successfully in " + m.elapsed + "s!")
    ensures exitCode != 0 ==> r == [Finished(false, FlashFailedMessage, None)]
  {
    if exitCode == 0 then
      var done := Progress(100, "Flash completed successfully in " + m.elapsed + "s!");
      ClosedByLast([done], Finished(true, "Firmware flashed successfully in " + m.elapsed + " seconds.", None));
      [done] + [Finished(true, "Firmware flashed successfully in " + m.elapsed + " seconds.", None)]
    else
      [Finished(false, FlashFailedMessage, None)]
  }

  /** What closes a write step read to its end: the outcome of the exit code,
      or the message of the exception that ended it. */
  function WriteClose(m: Measured, write: Script): (r: seq<Event>)
    ensures EndsWithOneFinished(r)
    ensures r[|r| - 1].success <==> write.Ran? && write.exitCode == 0
    ensures write.Raised? ==> r == [Finished(false, write.error, None)]
  {
    match write
    case Ran(_, code) => FlashOutcome(code, m)
    case Raised(_, e) =>
      ClosedByLast([], Finished(false, e, None));
      [Finished(false, e, None)]
  }

  /** What the write step emits after its announcements: the per-line events,
      cut short when the flag check fires, else followed by what closes it. */
  function WriteStepTail(m: Measured, write: Script, cancelAt: Option<nat>): (r: seq<Event>)
    ensures CutAt(cancelAt, |write.lines|) ==> FinishedCount(r) == 0
    ensures !CutAt(cancelAt, |write.lines|) ==> EndsWithOneFinished(r)
  {
    if CutAt(cancelAt, |write.lines|) then StreamEvents(write.lines[..cancelAt.value])
    else
      ClosedAfterProgress(StreamEvents(write.lines), WriteClose(m, write));
      StreamEvents(write.lines) + WriteClose(m, write)
  }

  /** The write step, appended to what the erase step already produced.  It
      closes the run with one `finished` unless the flag check fires inside
      the write output. */
  function WriteStep(req: FlashRequest, m: Measured, write: Script, cancelAt: Option<nat>,
                     before: seq<Event>, launched: seq<seq<string>>): (r: Run)
    requires FinishedCount(before) == 0
    ensures r.commands == launched + [ProWriteCommand(req.target, req.address, req.firmwarePath, req.ota, req.verify)]
    ensures CutAt(cancelAt, |write.lines|) ==> FinishedCount(r.events) == 0
    ensures !CutAt(cancelAt, |write.lines|) ==> EndsWithOneFinished(r.events)
  {
    var started := before + PrepareEvents(req, m);
    var tail := WriteStepTail(m, write, cancelAt);
    var cmd := ProWriteCommand(req.target, req.address, req.firmwarePath, req.ota, req.verify);
    FinishedCountAppend(before, PrepareEvents(req, m));
    FinishedCountAppend(started, tail);
    if CutAt(cancelAt, |write.lines|) then
      Run(started + tail, launched + [cmd])
    else
      TailOfAppend(started, tail);
      Run(started + tail, launched + [cmd])
  }

  /** The `finished` that ends an erase step which does not lead to the
      write: the exception's message, or "Failed to erase flash" for a
      non-zero exit. */
  function EraseClose(erase: Script): (f: Event)
    ensures f.Finished? && !f.success
  {
    match erase
    case Raised(_, e) => Finished(false, e, None)
    case Ran(_, _) => Finished(false, EraseFailedMessage, None)
  }

  /** `FlashThread.run`. */
  function Flash(req: FlashRequest, fileExists: bool, m: Measured,
                 erase: Script, write: Script, cancelAt: Option<nat>): (r: Run)
    ensures !fileExists ==> r == Run([Finished(false, NotFoundMessage(req.firmwarePath), None)], [])
    ensures |r.commands| <= 2
    ensures FinishedCount(r.events) <= 1
    ensures FinishedCount(r.events) == 1 ==> r.events[|r.events| - 1].Finished?
  {
    if !fileExists then
      Run([Finished(false, NotFoundMessage(req.firmwarePath), None)], [])
    else if !req.erase then
      WriteStep(req, m, write, cancelAt, [], [])
    else
      var cmd := EraseCommand(req.target);
      var started := [Progress(0, ErasingText)];
      if CutAt(cancelAt, |erase.lines|) then
        OpenAfterProgress(started, EraseEvents(erase.lines[..cancelAt.value]));
        Run(started + EraseEvents(erase.lines[..cancelAt.value]), [cmd])
      else
        var erased := started + EraseEvents(erase.lines);
        OpenAfterProgress(started, EraseEvents(erase.lines));
        if erase.Ran? && erase.exitCode == 0 then
          WriteStep(req, m, write, After(cancelAt, |erase.lines|), erased, [cmd])
        else
          ClosedByLast(erased, EraseClose(erase));
          Run(erased + [EraseClose(erase)], [cmd])
  }

  // ---------------------------------------------------------------------
  // Properties of a flash run
  // ---------------------------------------------------------------------

  /** The write process is started: the file exists and, when erasing, the
      erase process ran to completion without the flag firing and exited 0. */
  predicate WriteReached(req: FlashRequest, fileExists: bool, erase: Script, cancelAt: Option<nat>) {
    fileExists && (!req.erase || (erase.Ran? && !CutAt(cancelAt, |erase.lines|) && erase.exitCode == 0))
  }

  /** Lines of the erase process the thread reads before the write process starts. */
  function EraseLinesRead(req: FlashRequest, erase: Script): nat {
    if req.erase then |erase.lines| else 0
  }

  /** The thread finds its flag cleared while some child still has lines to give. */
  predicate CancelObserved(req: FlashRequest, fileExists: bool, erase: Script, write: Script, cancelAt: Option<nat>) {
    || (fileExists && req.erase && CutAt(cancelAt, |erase.lines|))
    || (WriteReached(req, fileExists, erase, cancelAt)
        && CutAt(cancelAt, EraseLinesRead(req, erase) + |write.lines|))
  }

  /** The events the erase step emits when it is read to its end. */
  function EraseStepEvents(req: FlashRequest, erase: Script): (r: seq<Event>)
    ensures FinishedCount(r) == 0
  {
    if req.erase then
      OpenAfterProgress([Progress(0, ErasingText)], EraseEvents(erase.lines));
      [Progress(0, ErasingText)] + EraseEvents(erase.lines)
    else []
  }

  function EraseStepCommands(req: FlashRequest): seq<seq<string>> {
    if req.erase then [EraseCommand(req.target)] else []
  }

  /** Once the write step is reached the run is that step, appended to the
      erase transcript, with the cancellation point shifted past the erase
      output. */
  lemma FlashReachesWrite(req: FlashRequest, fileExists: bool, m: Measured,
                          erase: Script, write: Script, cancelAt: Option<nat>)
    requires WriteReached(req, fileExists, erase, cancelAt)
    ensures !CutAt(cancelAt, EraseLinesRead(req, erase))
    ensures Flash(req, fileExists, m, erase, write, cancelAt)
            == WriteStep(req, m, write, After(cancelAt, EraseLinesRead(req, erase)),
                         EraseStepEvents(req, erase), EraseStepCommands(req))
    ensures CutAt(After(cancelAt, EraseLinesRead(req, erase)), |write.lines|)
            <==> CutAt(cancelAt, EraseLinesRead(req, erase) + |write.lines|)
  {
    if !req.erase {
      assert After(cancelAt, 0) == cancelAt;
    }
  }

  /** A run that stops before the write step: cancelled inside the erase
      output with no `finished`, or closed once by a failure. */
  lemma FlashStopsBeforeWrite(req: FlashRequest, fileExists: bool, m: Measured,
                              erase: Script, write: Script, cancelAt: Option<nat>)
    requires !WriteReached(req, fileExists, erase, cancelAt)
    ensures var es := Flash(req, fileExists, m, erase, write, cancelAt).events;
            && (CancelObserved(req, fileExists, erase, write, cancelAt) ==> FinishedCount(es) == 0)
            && (!CancelObserved(req, fileExists, erase, write, cancelAt) ==>
                  EndsWithOneFinished(es) && !es[|es| - 1].success)
  {
    var es := Flash(req, fileExists, m, erase, write, cancelAt).events;
    if !fileExists {
      assert FinishedCount(es) == 1;
    } else if !CutAt(cancelAt, |erase.lines|) {
      var f := EraseClose(erase);
      assert es == EraseStepEvents(req, erase) + [f];
      ClosedByLast(EraseStepEvents(req, erase), f);
    }
  }

  /** A run that is not cancelled emits exactly one `finished`, as its last
      event; a cancelled run emits none. */
  lemma FlashClosesOnce(req: FlashRequest, fileExists: bool, m: Measured,
                        erase: Script, write: Script, cancelAt: Option<nat>)
    ensures var es := Flash(req, fileExists, m, erase, write, cancelAt).events;
            && (!CancelObserved(req, fileExists, erase, write, cancelAt) <==> EndsWithOneFinished(es))
            && (CancelObserved(req, fileExists, erase, write, cancelAt) ==> FinishedCount(es) == 0)
  {
    if WriteReached(req, fileExists, erase, cancelAt) {
      FlashReachesWrite(req, fileExists, m, erase, write, cancelAt);
    } else {
      FlashStopsBeforeWrite(req, fileExists, m, erase, write, cancelAt);
    }
  }

  /** The run reports success exactly when the file exists, the erase step
      (if any) exited 0, the write exited 0 and no cancellation was seen; the
      success is announced by `progress(100, ...)` right before it. */
  lemma FlashSucceedsIff(req: FlashRequest, fileExists: bool, m: Measured,
                         erase: Script, write: Script, cancelAt: Option<nat>)
    ensures var es := Flash(req, fileExists, m, erase, write, cancelAt).events;
            && (EndsInSuccess(es) <==> WriteReached(req, fileExists, erase, cancelAt) && write.Ran?
                                       && write.exitCode == 0 && !CancelObserved(req, fileExists, erase, write, cancelAt))
            && (EndsInSuccess(es) ==> CompletionAnnounced(es))
  {
    if WriteReached(req, fileExists, erase, cancelAt) {
      FlashReachesWrite(req, fileExists, m, erase, write, cancelAt);
      WriteStepOutcome(req, m, write, After(cancelAt, EraseLinesRead(req, erase)),
                       EraseStepEvents(req, erase), EraseStepCommands(req));
    } else {
      FailsBeforeWrite(req, fileExists, m, erase, write, cancelAt);
    }
  }

  /** Before the write step nothing succeeds. */
  lemma FailsBeforeWrite(req: FlashRequest, fileExists: bool, m: Measured,
                         erase: Script, write: Script, cancelAt: Option<nat>)
    requires !WriteReached(req, fileExists, erase, cancelAt)
    ensures var es := Flash(req, fileExists, m, erase, write, cancelAt).events;
            !EndsInSuccess(es)
  {
    var es := Flash(req, fileExists, m, erase, write, cancelAt).events;
    FlashStopsBeforeWrite(req, fileExists, m, erase, write, cancelAt);
    if CancelObserved(req, fileExists, erase, write, cancelAt) && |es| > 0 {
      NoFinishedAtEnd(es);
    }
  }

  /** A sequence without `finished` does not end in one. */
  lemma NoFinishedAtEnd(es: seq<Event>)
    requires FinishedCount(es) == 0 && |es| > 0
    ensures es[|es| - 1].Progress?
  {
    assert es[|es| - 1] in es;
  }

  /** A write read to its end succeeds exactly when it exits 0, and then
      announces 100% right before the success. */
  lemma WriteStepCompleted(req: FlashRequest, m: Measured, write: Script,
                           cancelAt: Option<nat>, before: seq<Event>, launched: seq<seq<string>>)
    requires FinishedCount(before) == 0 && !CutAt(cancelAt, |write.lines|)
    ensures var es := WriteStep(req, m, write, cancelAt, before, launched).events;
            && (EndsInSuccess(es) <==> write.Ran? && write.exitCode == 0)
            && (write.Ran? && write.exitCode == 0 ==> CompletionAnnounced(es))
  {
    var started := before + PrepareEvents(req, m);
    assert WriteStep(req, m, write, cancelAt, before, launched).events == started + WriteStepTail(m, write, cancelAt);
    CompletedTail(started, m, write, cancelAt);
  }

  /** The end of a run whose write output is read to its end is the end of
      what closes the write step. */
  lemma CompletedTail(started: seq<Event>, m: Measured, write: Script, cancelAt: Option<nat>)
    requires !CutAt(cancelAt, |write.lines|)
    ensures var es := started + WriteStepTail(m, write, cancelAt);
            && (EndsInSuccess(es) <==> write.Ran? && write.exitCode == 0)
            && (write.Ran? && write.exitCode == 0 ==> CompletionAnnounced(es))
  {
    var close := WriteClose(m, write);
    var tail := StreamEvents(write.lines) + close;
    var es := started + tail;
    TailOfAppend(StreamEvents(write.lines), close);
    TailOfAppend(started, tail);
    assert es[|es| - 1] == close[|close| - 1];
    if write.Ran? && write.exitCode == 0 {
      assert close == FlashOutcome(write.exitCode, m);
      assert es[|es| - 2] == close[0];
    }
  }

  /** A write cut short by the flag check does not succeed. */
  lemma WriteStepStopped(req: FlashRequest, m: Measured, write: Script, cancelAt: Option<nat>,
                         before: seq<Event>, launched: seq<seq<string>>)
    requires FinishedCount(before) == 0
    requires CutAt(cancelAt, |write.lines|)
    ensures !EndsInSuccess(WriteStep(req, m, write, cancelAt, before, launched).events)
  {
    var es := WriteStep(req, m, write, cancelAt, before, launched).events;
    if |es| > 0 {
      NoFinishedAtEnd(es);
    }
  }

  /** The write step always begins with the three announcements, right after
      what the erase step emitted. */
  lemma WriteStepAnnounces(req: FlashRequest, m: Measured, write: Script, cancelAt: Option<nat>,
                           before: seq<Event>, launched: seq<seq<string>>)
    requires FinishedCount(before) == 0
    ensures var es := WriteStep(req, m, write, cancelAt, before, launched).events;
            |es| >= |before| + 3 && es[..|before| + 3] == before + PrepareEvents(req, m)
  {
    PrefixOfAppend(before + PrepareEvents(req, m), WriteStepTail(m, write, cancelAt));
  }

  lemma PrefixOfAppend(p: seq<Event>, q: seq<Event>)
    ensures (p + q)[..|p|] == p
  {
  }

  /** The write step succeeds exactly when the write exits 0 uncancelled,
      and then `progress(100, ...)` comes right before the success. */
  lemma WriteStepOutcome(req: FlashRequest, m: Measured, write: Script, cancelAt: Option<nat>,
                         before: seq<Event>, launched: seq<seq<string>>)
    requires FinishedCount(before) == 0
    ensures var es := WriteStep(req, m, write, cancelAt, before, launched).events;
            && (EndsInSuccess(es) <==> write.Ran? && write.exitCode == 0 && !CutAt(cancelAt, |write.lines|))
            && (EndsInSuccess(es) ==> CompletionAnnounced(es))
  {
    if CutAt(cancelAt, |write.lines|) {
      WriteStepStopped(req, m, write, cancelAt, before, launched);
    } else {
      WriteStepCompleted(req, m, write, cancelAt, before, launched);
    }
  }

  /** A missing firmware file: one failing `finished` naming the path, and no
      process is started. */
  lemma FlashMissingFile(req: FlashRequest, m: Measured, erase: Script, write: Script, cancelAt: Option<nat>)
    ensures Flash(req, false, m, erase, write, cancelAt)
            == Run([Finished(false, NotFoundMessage(req.firmwarePath), None)], [])
  {
  }

  /** An erase that exits non-zero ends the run with "Failed to erase flash";
      only the erase command was ever started, never a write. */
  lemma EraseFailureStopsFlash(req: FlashRequest, m: Measured, lines: seq<string>, code: int,
                               write: Script, cancelAt: Option<nat>)
    requires req.erase && code != 0 && !CutAt(cancelAt, |lines|)
    ensures var r := Flash(req, true, m, Ran(lines, code), write, cancelAt);
            && r.commands == [EraseCommand(req.target)]
            && ParseWrite(r.commands[0]).None?
            && r.events == [Progress(0, ErasingText)] + EraseEvents(lines)
                           + [Finished(false, EraseFailedMessage, None)]
  {
    EraseIsNotWrite(req.target);
  }

  /** An exception while the erase runs ends the run with its message after
      the erase lines read so far; no write is started. */
  lemma EraseExceptionStopsFlash(req: FlashRequest, m: Measured, lines: seq<string>, e: string,
                                 write: Script, cancelAt: Option<nat>)
    requires req.erase && !CutAt(cancelAt, |lines|)
    ensures var r := Flash(req, true, m, Raised(lines, e), write, cancelAt);
            && r.commands == [EraseCommand(req.target)]
            && r.events == [Progress(0, ErasingText)] + EraseEvents(lines) + [Finished(false, e, None)]
  {
    var erase := Raised(lines, e);
    assert EraseClose(erase) == Finished(false, e, None);
    assert Flash(req, true, m, erase, write, cancelAt)
           == Run([Progress(0, ErasingText)] + EraseEvents(lines) + [EraseClose(erase)], [EraseCommand(req.target)]);
  }

  /** The processes a run starts: the erase command when erasing, then the
      write command exactly when the write step is reached. */
  lemma FlashCommands(req: FlashRequest, fileExists: bool, m: Measured,
                      erase: Script, write: Script, cancelAt: Option<nat>)
    requires fileExists
    ensures Flash(req, fileExists, m, erase, write, cancelAt).commands
            == (if req.erase then [EraseCommand(req.target)] else [])
               + (if WriteReached(req, fileExists, erase, cancelAt)
                  then [ProWriteCommand(req.target, req.address, req.firmwarePath, req.ota, req.verify)]
                  else [])
  {
  }

  /** When the write process runs to its end, with or without an erase before
      it, the run is the erase transcript, the announcements, exactly the
      per-line events of the write output, and the outcome. */
  lemma FlashWriteTranscript(req: FlashRequest, m: Measured, erase: Script, lines: seq<string>,
                             code: int, cancelAt: Option<nat>)
    requires WriteReached(req, true, erase, cancelAt)
    requires !CutAt(cancelAt, EraseLinesRead(req, erase) + |lines|)
    ensures Flash(req, true, m, erase, Ran(lines, code), cancelAt).events
            == EraseStepEvents(req, erase) + PrepareEvents(req, m) + StreamEvents(lines) + FlashOutcome(code, m)
  {
    FlashReachesWrite(req, true, m, erase, Ran(lines, code), cancelAt);
    AppendAssoc(EraseStepEvents(req, erase) + PrepareEvents(req, m), StreamEvents(lines), FlashOutcome(code, m));
  }

  /** A write that exits non-zero before the flag check fires, as one that
      `stop()` terminated after its last line does, ends the run with the
      generic flash failure as its only `finished`. */
  lemma WriteExitFailureReported(req: FlashRequest, m: Measured, erase: Script, lines: seq<string>,
                                 code: int, cancelAt: Option<nat>)
    requires WriteReached(req, true, erase, cancelAt) && code != 0
    requires !CutAt(cancelAt, EraseLinesRead(req, erase) + |lines|)
    ensures var es := Flash(req, true, m, erase, Ran(lines, code), cancelAt).events;
            && EndsWithOneFinished(es)
            && es[|es| - 1] == Finished(false, FlashFailedMessage, None)
  {
    FlashWriteTranscript(req, m, erase, lines, code, cancelAt);
    FlashClosesOnce(req, true, m, erase, Ran(lines, code), cancelAt);
    TailOfAppend(EraseStepEvents(req, erase) + PrepareEvents(req, m) + StreamEvents(lines), FlashOutcome(code, m));
  }

  // ---------------------------------------------------------------------
  // BackupThread.run
  // ---------------------------------------------------------------------

  const BackupDoneText := "Backup completed!"
  const BackupFailedMessage := "Backup failed"

  /** The port as it appears in a backup file name: every ':' becomes '_'. */
  function SafePort(port: string): (r: string)
    ensures |r| == |port| && ':' !in r
  {
    ReplaceChar(port, ':', '_')
  }

  /** `backup_<chip>_<port>_<timestamp>.bin`; the timestamp is the
      `%Y%m%d_%H%M%S` text of the start time. */
  function BackupFileName(chip: string, port: string, timestamp: string): (r: string)
    ensures |r| == 13 + |chip| + |port| + |timestamp|
    ensures r[..7] == "backup_" && r[|r| - 4..] == ".bin"
    ensures r[8 + |chip|..8 + |chip| + |port|] == SafePort(port)
    ensures ':' !in r[8 + |chip|..8 + |chip| + |port|]
  {
    var r := "backup_" + chip + "_" + SafePort(port) + "_" + timestamp + ".bin";
    assert r[8 + |chip|..8 + |chip| + |port|] == SafePort(port);
    r
  }

  /** Two ports whose sanitised forms differ get different backup files for
      the same chip and start second; in particular two distinct ports
      without ':' never collide. */
  lemma BackupNamesDistinct(chip: string, timestamp: string, p1: string, p2: string)
    requires SafePort(p1) != SafePort(p2)
    ensures BackupFileName(chip, p1, timestamp) != BackupFileName(chip, p2, timestamp)
  {
    var n1, n2 := BackupFileName(chip, p1, timestamp), BackupFileName(chip, p2, timestamp);
    if |p1| == |p2| {
      assert n1[8 + |chip|..8 + |chip| + |p1|] != n2[8 + |chip|..8 + |chip| + |p2|];
    }
  }

  lemma SafePortKeepsColonFree(p: string)
    requires ':' !in p
    ensures SafePort(p) == p
  {
  }

  /** Ports differing only in ':' against '_' share one backup file name. */
  lemma BackupNamesCanCollide()
    ensures BackupFileName("ESP32", "COM1:", "20240101_120000")
            == BackupFileName("ESP32", "COM1_", "20240101_120000")
  {
    assert SafePort("COM1:") == SafePort("COM1_");
  }

  /** What follows the read output once the process has exited. */
  function BackupOutcome(exitCode: int, fileName: string, path: string): (r: seq<Event>)
    ensures EndsWithOneFinished(r)
    ensures r[|r| - 1].success <==> exitCode == 0
    ensures exitCode == 0 ==> r == [Progress(100, BackupDoneText), Finished(true, "Backup saved to " + fileName, Some(path))]
    ensures exitCode != 0 ==> r == [Finished(false, BackupFailedMessage, Some(""))]
  {
    if exitCode == 0 then
      ClosedByLast([Progress(100, BackupDoneText)], Finished(true, "Backup saved to " + fileName, Some(path)));
      [Progress(100, BackupDoneText)] + [Finished(true, "Backup saved to " + fileName, Some(path))]
    else
      [Finished(false, BackupFailedMessage, Some(""))]
  }

  /** What closes a read step read to its end: the outcome of the exit code,
      or the exception's message with the empty path. */
  function BackupClose(read: Script, fileName: string, path: string): (r: seq<Event>)
    ensures EndsWithOneFinished(r)
    ensures r[|r| - 1].success <==> read.Ran? && read.exitCode == 0
    ensures read.Raised? ==> r == [Finished(false, read.error, Some(""))]
  {
    match read
    case Ran(_, code) => BackupOutcome(code, fileName, path)
    case Raised(_, e) =>
      ClosedByLast([], Finished(false, e, Some("")));
      [Finished(false, e, Some(""))]
  }

  /** `BackupThread.run`.  `sizeMb` is the `size / 1024 / 1024` text with one
      decimal. */
  function Backup(t: Target, size: int, backupDir: string, timestamp: string, sizeMb: string,
                  read: Script, cancelAt: Option<nat>): (r: Run)
    ensures r.commands == [ProReadCommand(t, size, JoinPath(backupDir, BackupFileName(t.chip, t.port, timestamp)))]
    ensures CutAt(cancelAt, |read.lines|) ==> FinishedCount(r.events) == 0
    ensures !CutAt(cancelAt, |read.lines|) ==> EndsWithOneFinished(r.events)
    ensures !CutAt(cancelAt, |read.lines|) ==> (r.events[|r.events| - 1].success <==> read.Ran? && read.exitCode == 0)
    ensures |r.events| > 0 && r.events[0] == Progress(0, "Starting backup of " + sizeMb + " MB...")
  {
    var fileName := BackupFileName(t.chip, t.port, timestamp);
    var path := JoinPath(backupDir, fileName);
    var cmd := ProReadCommand(t, size, path);
    var started := [Progress(0, "Starting backup of " + sizeMb + " MB...")];
    if CutAt(cancelAt, |read.lines|) then
      OpenAfterProgress(started, StreamEvents(read.lines[..cancelAt.value]));
      Run(started + StreamEvents(read.lines[..cancelAt.value]), [cmd])
    else
      var close := BackupClose(read, fileName, path);
      OpenAfterProgress(started, StreamEvents(read.lines));
      ClosedAfterProgress(started + StreamEvents(read.lines), close);
      TailOfAppend(started + StreamEvents(read.lines), close);
      Run(started + StreamEvents(read.lines) + close, [cmd])
  }

  /** A backup succeeds exactly when the read exits 0 and is not cancelled;
      it then announces 100% and hands over the path of the backup file,
      whose base name is the generated file name when neither chip nor
      port contains '/'.  A failed read hands over the empty path. */
  lemma BackupResult(t: Target, size: int, backupDir: string, timestamp: string, sizeMb: string,
                     lines: seq<string>, code: int)
    ensures var es := Backup(t, size, backupDir, timestamp, sizeMb, Ran(lines, code), None).events;
            var path := JoinPath(backupDir, BackupFileName(t.chip, t.port, timestamp));
            && es[|es| - 1].Finished?
            && (code == 0 ==> es[|es| - 2] == Progress(100, BackupDoneText)
                              && es[|es| - 1] == Finished(true, "Backup saved to " + BackupFileName(t.chip, t.port, timestamp), Some(path)))
            && (code != 0 ==> es[|es| - 1] == Finished(false, BackupFailedMessage, Some("")))
            && es == [es[0]] + StreamEvents(lines) + es[1 + |StreamEvents(lines)|..]
  {
    var fileName := BackupFileName(t.chip, t.port, timestamp);
    var path := JoinPath(backupDir, fileName);
    var started := [Progress(0, "Starting backup of " + sizeMb + " MB...")];
    var out := BackupOutcome(code, fileName, path);
    var es := started + StreamEvents(lines) + out;
    assert es[1 + |StreamEvents(lines)|..] == out;
    assert es[|es| - 1] == out[|out| - 1];
    if code == 0 {
      assert es[|es| - 2] == out[0];
    }
  }

  /** With a chip name and port free of '/', the backup path lies directly in
      the backup directory under the generated name. */
  lemma BackupPathBasename(chip: string, port: string, timestamp: string, backupDir: string)
    requires '/' !in chip && '/' !in port && '/' !in timestamp
    ensures Basename(JoinPath(backupDir, BackupFileName(chip, port, timestamp)))
            == BackupFileName(chip, port, timestamp)
  {
    var name := BackupFileName(chip, port, timestamp);
    assert forall k :: 0 <= k < |port| ==> SafePort(port)[k] != '/';
    assert '/' !in name;
    BasenameOfJoin(backupDir, name);
  }

  /** A port holding '/', as every POSIX device path does, keeps it in the
      file name: the backup is written below a sub-directory of the backup
      directory that the thread never creates, never directly into it. */
  lemma SlashPortEscapesDir(chip: string, port: string, timestamp: string, backupDir: string, k: nat)
    requires k < |port| && port[k] == '/'
    ensures var name := BackupFileName(chip, port, timestamp);
            && name[8 + |chip| + k] == '/'
            && Basename(JoinPath(backupDir, name)) != name
  {
    var name := BackupFileName(chip, port, timestamp);
    assert SafePort(port)[k] == '/';
    assert name[8 + |chip| + k] == SafePort(port)[k];
    assert '/' !in Basename(JoinPath(backupDir, name));
  }

  /** The port made safe for a file name: both ':' and '/' become '_'. */
  function FileSafePort(port: string): (r: string)
    ensures |r| == |port| && ':' !in r && '/' !in r
    ensures forall k :: 0 <= k < |port| ==>
              r[k] == (if port[k] == ':' || port[k] == '/' then '_' else port[k])
  {
    ReplaceChar(ReplaceChar(port, ':', '_'), '/', '_')
  }

  /** The backup file name with the file-safe port. */
  function FixedBackupFileName(chip: string, port: string, timestamp: string): (r: string)
    ensures |r| == 13 + |chip| + |port| + |timestamp|
    ensures r[..7] == "backup_" && r[|r| - 4..] == ".bin"
    ensures r[8 + |chip|..8 + |chip| + |port|] == FileSafePort(port)
    ensures '/' !in chip && '/' !in timestamp ==> '/' !in r
  {
    var r := "backup_" + chip + "_" + FileSafePort(port) + "_" + timestamp + ".bin";
    assert r[8 + |chip|..8 + |chip| + |port|] == FileSafePort(port);
    r
  }

  /** With the file-safe port, the backup lands directly in the backup
      directory under the generated name, whatever the port. */
  lemma FixedBackupPathBasename(chip: string, port: string, timestamp: string, backupDir: string)
    requires '/' !in chip && '/' !in timestamp
    ensures Basename(JoinPath(backupDir, FixedBackupFileName(chip, port, timestamp)))
            == FixedBackupFileName(chip, port, timestamp)
  {
    BasenameOfJoin(backupDir, FixedBackupFileName(chip, port, timestamp));
  }

  /** The fix changes nothing for ports without '/'. */
  lemma FixedNameKeepsSlashFreePorts(chip: string, port: string, timestamp: string)
    requires '/' !in port
    ensures FixedBackupFileName(chip, port, timestamp) == BackupFileName(chip, port, timestamp)
  {
    assert FileSafePort(port) == SafePort(port);
  }
}
