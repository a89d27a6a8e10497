/** `FlashThread.run` and `BackupThread.run` of the basic front-end.  These
    threads have no running flag: a run is a function of the file system
    answers and the scripted child process alone. */
module BasicThreads {
  import opened Wrappers
  import opened Text
  import opened Events
  import opened Commands

  /** What the flash page hands the thread; the basic front-end has no
      verify option. */
  datatype FlashRequest = FlashRequest(
    target: Target, firmwarePath: string, address: string, erase: bool, ota: bool)

  const FlashDoneText := "Flash completed successfully!"
  const FlashSuccessMessage := "Firmware flashed successfully."

  function WriteCommand(req: FlashRequest): seq<string> {
    BasicWriteCommand(req.target, req.address, req.firmwarePath, req.erase, req.ota)
  }

  /** The four announcements emitted before the write process starts; the
      last one shows the whole command line joined by blanks. */
  function Announcements(req: FlashRequest): (r: seq<Event>)
    ensures |r| == 4 && FinishedCount(r) == 0
    ensures forall i :: 0 <= i < 4 ==> r[i].Progress? && r[i].percent == 5 * i
    ensures r[3].text == "Command: " + JoinWith(" ", WriteCommand(req))
  {
    Stepped([ "Preparing flash... File: " + Basename(req.firmwarePath),
              "Full path: " + req.firmwarePath,
              "Chip: " + req.target.chip,
              "Command: " + JoinWith(" ", WriteCommand(req)) ])
  }

  /** Progress texts announced at 0, 5, 10, ... percent. */
  function Stepped(texts: seq<string>): (r: seq<Event>)
    ensures |r| == |texts|
    ensures forall i :: 0 <= i < |texts| ==> r[i] == Progress(5 * i, texts[i])
  {
    seq(|texts|, i requires 0 <= i < |texts| => Progress(5 * i, texts[i]))
  }

  /** What follows the write output once the process has exited. */
  function FlashOutcome(exitCode: int): (r: seq<Event>)
    ensures EndsWithOneFinished(r)
    ensures EndsInSuccess(r) <==> exitCode == 0
    ensures exitCode == 0 ==> CompletionAnnounced(r)
  {
    if exitCode == 0 then
      ClosedByLast([Progress(100, FlashDoneText)], Finished(true, FlashSuccessMessage, None));
      [Progress(100, FlashDoneText)] + [Finished(true, FlashSuccessMessage, None)]
    else
      [Finished(false, FlashFailedMessage, None)]
  }

  /** What the write step emits after the announcements: the per-line
      events of the output read, then the outcome on exit or the message of
      the exception that ended the run. */
  function WriteTail(write: Script): (r: seq<Event>)
    ensures EndsWithOneFinished(r)
    ensures EndsInSuccess(r) <==> write.Ran? && write.exitCode == 0
    ensures write.Ran? && write.exitCode == 0 ==> CompletionAnnounced(r)
    ensures write.Raised? ==> r == StreamEvents(write.lines) + [Finished(false, write.error, None)]
  {
    var close := WriteClose(write);
    ClosedAfterProgress(StreamEvents(write.lines), close);
    TailOfAppend(StreamEvents(write.lines), close);
    StreamEvents(write.lines) + close
  }

  function WriteClose(write: Script): (r: seq<Event>)
    ensures EndsWithOneFinished(r)
    ensures EndsInSuccess(r) <==> write.Ran? && write.exitCode == 0
    ensures write.Ran? && write.exitCode == 0 ==> CompletionAnnounced(r)
  {
    match write
    case Ran(_, code) => FlashOutcome(code)
    case Raised(_, e) =>
      ClosedByLast([], Finished(false, e, None));
      [Finished(false, e, None)]
  }

  /** `FlashThread.run`: a missing file is reported without starting
      anything; otherwise the single write process runs to its end. */
  function Flash(req: FlashRequest, fileExists: bool, write: Script): (r: Run)
    ensures !fileExists ==> r == Run([Finished(false, NotFoundMessage(req.firmwarePath), None)], [])
    ensures fileExists ==> r.commands == [WriteCommand(req)]
    ensures EndsWithOneFinished(r.events)
    ensures EndsInSuccess(r.events) <==> fileExists && write.Ran? && write.exitCode == 0
    ensures EndsInSuccess(r.events) ==> CompletionAnnounced(r.events)
  {
    if !fileExists then
      ClosedByLast([], Finished(false, NotFoundMessage(req.firmwarePath), None));
      Run([Finished(false, NotFoundMessage(req.firmwarePath), None)], [])
    else
      var tail := WriteTail(write);
      ClosedAfterProgress(Announcements(req), tail);
      TailOfAppend(Announcements(req), tail);
      Run(Announcements(req) + tail, [WriteCommand(req)])
  }

  /** The started process is asked for exactly what the page requested:
      `--erase-all` iff erasing, the OTA options iff OTA, never `--verify`. */
  lemma FlashCommandMeaning(req: FlashRequest, write: Script)
    ensures var r := Flash(req, true, write);
            |r.commands| == 1
            && ParseWrite(r.commands[0])
               == Some(WriteRequest(req.target, req.erase, req.ota, false, req.address, req.firmwarePath))
  {
    BasicWriteCommandMeaning(req.target, req.address, req.firmwarePath, req.erase, req.ota);
  }

  /** The command line shown to the user starts with the interpreter and
      ends with the firmware path. */
  lemma ShownCommandEndsWithPath(req: FlashRequest)
    ensures var shown := Announcements(req)[3].text;
            var p := req.firmwarePath;
            && |shown| >= |"Command: "| + |req.target.python| + 1 + |p|
            && shown[|"Command: "|..|"Command: "| + |req.target.python|] == req.target.python
            && shown[|shown| - |p| - 1..] == " " + p
  {
    var cmd := WriteCommand(req);
    JoinWithEnds(" ", cmd);
    PrefixKeepsEnds("Command: ", JoinWith(" ", cmd), req.target.python, " " + req.firmwarePath);
  }

  /** Putting text in front keeps what a string starts and ends with. */
  lemma PrefixKeepsEnds(pre: string, s: string, first: string, last: string)
    requires |s| >= |first| + |last|
    requires s[..|first|] == first && s[|s| - |last|..] == last
    ensures var t := pre + s;
            && |t| >= |pre| + |first| + |last|
            && t[|pre|..|pre| + |first|] == first
            && t[|t| - |last|..] == last
  {
    var t := pre + s;
    assert t[|pre|..|pre| + |first|] == s[..|first|];
    assert t[|t| - |last|..] == s[|s| - |last|..];
  }

  /** With a launched process, its output contributes exactly the per-line
      events, between the announcements and the outcome. */
  lemma FlashTranscript(req: FlashRequest, lines: seq<string>, code: int)
    ensures Flash(req, true, Ran(lines, code)).events
            == Announcements(req) + StreamEvents(lines) + FlashOutcome(code)
  {
    AppendAssoc(Announcements(req), StreamEvents(lines), FlashOutcome(code));
  }

  // ---------------------------------------------------------------------
  // BackupThread.run
  // ---------------------------------------------------------------------

  const BackupStartText := "Starting backup..."
  const BackupDoneText := "Backup finished."
  const BackupSuccessMessage := "Backup successful."
  const BackupFailedMessage := "Error during backup."

  /** `os.path.join(output_dir, f"backup_{timestamp}.bin")`. */
  function BackupFile(outputDir: string, timestamp: string): string {
    JoinPath(outputDir, "backup_" + timestamp + ".bin")
  }

  /** Every output line of the read process is forwarded at 50%, stripped;
      this thread looks for no percentage marker. */
  function ReadLineEvents(lines: seq<string>): (r: seq<Event>)
    ensures |r| == |lines| && FinishedCount(r) == 0
    ensures forall i :: 0 <= i < |lines| ==> r[i] == Progress(50, Strip(lines[i]))
  {
    var r := seq(|lines|, i requires 0 <= i < |lines| => Progress(50, Strip(lines[i])));
    assert forall i :: 0 <= i < |r| ==> r[i].Progress?;
    r
  }

  /** What follows the read output once the process has exited: the path of
      the backup on success, the empty string on failure. */
  function BackupOutcome(exitCode: int, file: string): (r: seq<Event>)
    ensures EndsWithOneFinished(r)
    ensures EndsInSuccess(r) <==> exitCode == 0
    ensures r[|r| - 1].artifact == Some(if exitCode == 0 then file else "")
  {
    if exitCode == 0 then
      ClosedByLast([Progress(100, BackupDoneText)], Finished(true, BackupSuccessMessage, Some(file)));
      [Progress(100, BackupDoneText)] + [Finished(true, BackupSuccessMessage, Some(file))]
    else
      [Finished(false, BackupFailedMessage, Some(""))]
  }

  /** What closes a read step: the outcome on exit, or the exception's
      message with the empty path. */
  function BackupClose(read: Script, file: string): (r: seq<Event>)
    ensures EndsWithOneFinished(r)
    ensures EndsInSuccess(r) <==> read.Ran? && read.exitCode == 0
    ensures r[|r| - 1].artifact == Some(if EndsInSuccess(r) then file else "")
  {
    match read
    case Ran(_, code) => BackupOutcome(code, file)
    case Raised(_, e) =>
      ClosedByLast([], Finished(false, e, Some("")));
      [Finished(false, e, Some(""))]
  }

  /** `BackupThread.run`.  `dirError` is the exception `os.makedirs` raised,
      if any; `timestamp` is the `%Y%m%d_%H%M%S` text of the start time. */
  function Backup(port: string, baud: int, size: int, outputDir: string, timestamp: string,
                  dirError: Option<string>, read: Script): (r: Run)
    ensures dirError.Some? ==> r == Run([Finished(false, dirError.value, Some(""))], [])
    ensures dirError.None? ==> r.commands == [BasicReadCommand(port, baud, size, BackupFile(outputDir, timestamp))]
    ensures EndsWithOneFinished(r.events)
    ensures EndsInSuccess(r.events) <==> dirError.None? && read.Ran? && read.exitCode == 0
    ensures r.events[|r.events| - 1].artifact
            == Some(if EndsInSuccess(r.events) then BackupFile(outputDir, timestamp) else "")
  {
    if dirError.Some? then
      ClosedByLast([], Finished(false, dirError.value, Some("")));
      Run([Finished(false, dirError.value, Some(""))], [])
    else
      var file := BackupFile(outputDir, timestamp);
      var close := BackupClose(read, file);
      ClosedAfterProgress(ReadLineEvents(read.lines), close);
      TailOfAppend(ReadLineEvents(read.lines), close);
      BackupRun(port, baud, size, file, ReadLineEvents(read.lines) + close)
  }

  /** The announcement, then the tail, and the one read command. */
  function BackupRun(port: string, baud: int, size: int, file: string, tail: seq<Event>): (r: Run)
    requires EndsWithOneFinished(tail)
    ensures EndsWithOneFinished(r.events)
    ensures r.events[|r.events| - 1] == tail[|tail| - 1]
    ensures r.commands == [BasicReadCommand(port, baud, size, file)]
  {
    ClosedAfterProgress([Progress(0, BackupStartText)], tail);
    TailOfAppend([Progress(0, BackupStartText)], tail);
    Run([Progress(0, BackupStartText)] + tail, [BasicReadCommand(port, baud, size, file)])
  }

  /** A completed read yields one event per output line, whatever the line
      says: percentage markers are not interpreted here. */
  lemma BackupTranscript(port: string, baud: int, size: int, outputDir: string, timestamp: string,
                         lines: seq<string>, code: int)
    ensures var es := Backup(port, baud, size, outputDir, timestamp, None, Ran(lines, code)).events;
            && |es| == |lines| + (if code == 0 then 3 else 2)
            && es[0] == Progress(0, BackupStartText)
            && forall i :: 0 <= i < |lines| ==> es[i + 1] == Progress(50, Strip(lines[i]))
  {
    var file := BackupFile(outputDir, timestamp);
    var out := BackupOutcome(code, file);
    var es := [Progress(0, BackupStartText)] + (ReadLineEvents(lines) + out);
    assert Backup(port, baud, size, outputDir, timestamp, None, Ran(lines, code)).events == es;
    forall i | 0 <= i < |lines|
      ensures es[i + 1] == Progress(50, Strip(lines[i]))
    {
      assert es[i + 1] == ReadLineEvents(lines)[i];
    }
  }

  /** With a timestamp free of '/', the backup lands directly in the output
      directory as `backup_<timestamp>.bin`. */
  lemma BackupFileBasename(outputDir: string, timestamp: string)
    requires '/' !in timestamp
    ensures Basename(BackupFile(outputDir, timestamp)) == "backup_" + timestamp + ".bin"
  {
    var name := "backup_" + timestamp + ".bin";
    assert forall k :: 0 <= k < |name| ==> name[k] != '/';
    BasenameOfJoin(outputDir, name);
  }
}
