# ESP Flasher — a Dafny model of the device-operation core

ESP Flasher is a PySide6 desktop front-end for `esptool`. It ships in two
variants: a basic one (`ESPFlasher/ESP_Flasher.py`) and a Pro one
(`ESP_Flasher/Pro/ESP_Flasher_Pro.py`). Most of each file is Qt widgetry.
The engineering lives in a few places:

- the background threads that probe serial ports for ESP chips
  (`DetectBoardsThread`);
- the threads that drive `esptool` for flashing and backup (`FlashThread`,
  `BackupThread`), turning its output lines into `progress` and `finished`
  signals;
- the dashboard counter over the detection records;
- the flash history (`HistoryManager.add_entry`);
- the payload the serial page builds when the user presses "send".

This project models that core for both variants side by side, as pure
functions.

- **Child processes are scripts.** A launched `esptool` process is the list
  of lines it prints and its exit code. Or it is the lines read before an
  exception ended the run, with that exception's message: one from `Popen`
  itself (no lines), from reading the output, or from `wait()`
  (`Events.Script`).
- **Threads are functions.** A thread run maps its inputs and scripts to
  the signals it emits, in order, and the argument vectors it started
  (`Events.Run`).
- **Cancellation is a position.** The Pro threads check `_is_running`
  before every output line. Cancellation is modelled as the index of the
  line before which the flag is found cleared (`cancelAt`), counted across
  every line the thread reads.
- **Probes are outcomes.** A detection probe is one of three cases: an exit
  code with captured text, a timeout, or any other exception
  (`Detect.ProbeOutcome`).

Module layout follows the program:

- **`Text`**: the Python string operations the code relies on: `strip`,
  `split(sep)[-1]`, `replace`, `splitlines`, `' '.join`, POSIX
  `os.path.basename` and `os.path.join`.
- **`Decimal`**: `str(int)` and `int(digits)`.
- **`Percent`**: `re.search(r'\((\d+)\s*%\)', line)` and its capture group.
- **`Events`**: the signals, scripted processes, per-line progress events
  and cancellation points.
- **`Commands`**: the esptool argument vectors, plus a reader that recovers
  what a write vector asks for.
- **`ProThreads`** and **`BasicThreads`**: `FlashThread.run` and
  `BackupThread.run` of each variant.
- **`Probe`**: the `flash_id` output scanner, in both its flat (Pro) and
  nested (basic) classifier shapes.
- **`Detect`**: the two `DetectBoardsThread.run` loops.
- **`Dashboard`**: the ESP-device counters of `on_detection_finished`.
- **`History`**: `HistoryManager.add_entry`.
- **`SerialSend`**: `send_data`, `bytes.fromhex`, UTF-8 encoding and the
  Pro hex view of received data.

Four behaviours of the code are easy to miss:

- **Progress can go down.** Every output line is announced at a fixed 50%
  before any marker value it carries. A plain line after a line whose
  marker reported more than 50 therefore drops back to 50
  (`Events.ProgressCanDecrease`).
- **The last line wins.** The detection scanner overwrites its fields, so
  the last matching line of each kind decides the chip, the MAC and the
  flash size (`Probe.ChipIsLastMarker`, `Probe.MacIsLast`,
  `Probe.FlashIsLast`).
- **A run whose flag check fires sends no result.** A Pro thread that finds
  its running flag cleared before an output line returns without
  `finished` (`ProThreads.FlashClosesOnce`). `stop()` also terminates the
  process. If the output then ends before the next flag check, the run is
  a process that exits non-zero, and the thread reports the generic flash
  failure (`ProThreads.WriteExitFailureReported`).
- **Every line is announced at 50% before its marker value.** The lines
  `(50 %)` and then `(100 %)` yield four progress events: 50, 50, 50, 100.
  A successful write then adds its own 100% completion event
  (`Events.StreamEventsAt`, `ProThreads.FlashWriteTranscript`).

## Model

| member | source | states |
|---|---|---|
| Text.Strip | ESP_Flasher/Pro/ESP_Flasher_Pro.py:390 | `line.strip()` is a contiguous slice of the line; everything it cuts off at either end is whitespace, and it neither starts nor ends with whitespace |
| Text.StripIdempotent | ESP_Flasher/Pro/ESP_Flasher_Pro.py:390 | a stripped status line is unchanged by stripping again |
| Text.StripEmptyIff | ESP_Flasher/Pro/ESP_Flasher_Pro.py:361 | the erase filter `if line.strip()` rejects exactly the all-whitespace lines |
| Text.AfterLast | ESP_Flasher/Pro/ESP_Flasher_Pro.py:525 | `split(sep)[-1]` is a suffix of the line holding no separator; it is the whole line when there is no separator, and otherwise it directly follows an occurrence of the separator |
| Text.AfterLastSingle | ESP_Flasher/Pro/ESP_Flasher_Pro.py:525 | with one separator whose first character appears nowhere else, the last piece is exactly the text after it |
| Text.SplitLines | ESP_Flasher/Pro/ESP_Flasher_Pro.py:508 | no line produced by `splitlines()` contains a line boundary, and there are no lines exactly when the text is empty |
| Text.SplitJoinLines | ESP_Flasher/Pro/ESP_Flasher_Pro.py:508 | `splitlines()` recovers the lines of text printed line by line, empty lines included |
| Text.ReplaceChar | ESP_Flasher/Pro/ESP_Flasher_Pro.py:438 | `replace(a, b)` keeps the length, changes exactly the occurrences of `a`, and leaves no `a` behind |
| Text.RemoveChar | ESP_Flasher/Pro/ESP_Flasher_Pro.py:2604 | `replace(c, '')` leaves no `c` and is the identity on text without `c`; it keeps every other character as often as it occurs, drops a one-character text that is `c` and keeps any other one. With `Text.RemoveCharAppend` this fixes the result, in order, for every text |
| Text.RemoveCharAppend | ESP_Flasher/Pro/ESP_Flasher_Pro.py:2604 | removing a character distributes over concatenation |
| Text.JoinWithEnds | ESPFlasher/ESP_Flasher.py:363 | `' '.join(parts)` of two or more parts starts with the first part and ends with the separator and the last part |
| Text.Basename | ESP_Flasher/Pro/ESP_Flasher_Pro.py:378 | `os.path.basename` is the suffix of the path after its last '/' and holds no '/' |
| Text.BasenameOfJoin | ESP_Flasher/Pro/ESP_Flasher_Pro.py:439 | `os.path.join(dir, name)` of a name without '/' has basename `name`, whatever the directory |
| Decimal.NatToDec | ESP_Flasher/Pro/ESP_Flasher_Pro.py:353 | `str(n)` is a non-empty digit string without a leading zero |
| Decimal.IntToDec | ESP_Flasher/Pro/ESP_Flasher_Pro.py:353 | `str(n)` starts with '-' exactly for negative numbers and with a digit otherwise |
| Decimal.ParseNatToDec | ESP_Flasher/Pro/ESP_Flasher_Pro.py:394 | `int(str(n)) == n` for the digits of a natural number |
| Decimal.ParseIntToDec | ESP_Flasher/Pro/ESP_Flasher_Pro.py:353 | the baud-rate text on the command line reads back as the baud rate |
| Decimal.IntToDecInjective | ESP_Flasher/Pro/ESP_Flasher_Pro.py:353 | different integers get different decimal texts |
| Percent.MatchIsMaximal | ESP_Flasher/Pro/ESP_Flasher_Pro.py:392 | a match of `\((\d+)\s*%\)` at an index fixes the lengths of its digit and blank runs |
| Percent.PercentAtMatches | ESP_Flasher/Pro/ESP_Flasher_Pro.py:392 | the matcher finds a value at an index exactly when the pattern matches there |
| Percent.FirstMatch | ESP_Flasher/Pro/ESP_Flasher_Pro.py:392 | the match found is the leftmost one at or after the start index, and None means no match anywhere after it |
| Percent.ExtractPercent | ESP_Flasher/Pro/ESP_Flasher_Pro.py:392-394 | `re.search` fails exactly when the line has no marker; otherwise the value is the number spelled by the leftmost match's digits, unclamped |
| Percent.MarkerReportsValue | ESP_Flasher/Pro/ESP_Flasher_Pro.py:392-394 | a line `pre(<n><blanks>%)post` with no '(' in `pre` reports exactly `n` |
| Events.FinishedCount | ESP_Flasher/Pro/ESP_Flasher_Pro.py:343-410 | the number of `finished` emissions is zero exactly when every event is a progress event |
| Events.After | ESP_Flasher/Pro/ESP_Flasher_Pro.py:357-387 | a cancellation point not reached in the erase output reappears in the write output, shifted by the erase lines read |
| Events.LineEvents | ESP_Flasher/Pro/ESP_Flasher_Pro.py:388-395 | an empty line emits nothing; any other line emits `progress(50, stripped)`, followed by `progress(n, stripped)` exactly when it carries a `(n%)` marker |
| Events.StreamEvents | ESP_Flasher/Pro/ESP_Flasher_Pro.py:384-395 | the output loop emits progress events only, at most two per line |
| Events.StreamEventsAppend | ESP_Flasher/Pro/ESP_Flasher_Pro.py:384-395 | events are emitted line by line: a longer transcript extends the events of its prefix |
| Events.StreamEventsCount | ESP_Flasher/Pro/ESP_Flasher_Pro.py:388-390 | a count bound: a transcript of `n` non-empty lines yields at least `n` events (and at most `2n`, by `Events.StreamEvents`) |
| Events.StreamEventsAt | ESP_Flasher/Pro/ESP_Flasher_Pro.py:384-395 | line `i` is announced right after the events of the lines before it: at 50% with its stripped text when non-empty, then at its marker's value when it carries one |
| Events.StreamEventsSplit | ESP_Flasher/Pro/ESP_Flasher_Pro.py:384-395 | the events of a transcript are those of the lines before line `i`, then those of line `i`, then those of the lines after it |
| Events.ProgressCanDecrease | ESP_Flasher/Pro/ESP_Flasher_Pro.py:390-395 | a marked line reporting `n` followed by a plain line yields 50, `n`, 50: the progress value is not monotonic |
| Events.MarkedThenPlain | ESP_Flasher/Pro/ESP_Flasher_Pro.py:390-395 | a marked line followed by an unmarked one yields exactly three events valued 50, the marker's value, 50 |
| Commands.Prefix | ESP_Flasher/Pro/ESP_Flasher_Pro.py:353 | every Pro vector starts with the interpreter, chip and port in their positions and a baud text that reads back as the baud rate |
| Commands.EraseCommand | ESP_Flasher/Pro/ESP_Flasher_Pro.py:353-354 | the erase vector is the prefix followed by `erase_flash` |
| Commands.ProWriteCommand | ESP_Flasher/Pro/ESP_Flasher_Pro.py:368-376 | the Pro write vector has `write_flash -z` after the prefix and ends with address and path; its length grows by 4 for OTA and by 1 for verify |
| Commands.BasicWriteCommand | ESPFlasher/ESP_Flasher.py:352-358 | the basic write vector has `write_flash` after the prefix and ends with address and path; its length grows by 1 for erase and by 4 for OTA |
| Commands.ProReadCommand | ESP_Flasher/Pro/ESP_Flasher_Pro.py:441-442 | the Pro backup vector reads from offset 0x0 into the path, with a size text that reads back as the size |
| Commands.BasicReadCommand | ESPFlasher/ESP_Flasher.py:413-414 | the basic backup vector calls bare `esptool` on the port, with baud and size texts that read back as their numbers |
| Commands.ParseWriteShape | ESP_Flasher/Pro/ESP_Flasher_Pro.py:368-376 | any vector of the common write shape reads back as its target, options, address and path |
| Commands.ProWriteCommandMeaning | ESP_Flasher/Pro/ESP_Flasher_Pro.py:368-376 | the Pro write vector asks esptool for exactly the request: no `--erase-all`, the OTA options iff `ota`, `--verify` iff `verify` |
| Commands.BasicWriteCommandMeaning | ESPFlasher/ESP_Flasher.py:352-358 | the basic write vector asks for `--erase-all` iff erasing, the OTA options iff OTA, and never `--verify` |
| Commands.WriteCommandsAgree | ESPFlasher/ESP_Flasher.py:352-358 | with neither erase nor verify, both variants build the same write vector |
| Commands.EraseIsNotWrite | ESP_Flasher/Pro/ESP_Flasher_Pro.py:353-354 | the erase vector never reads as a write request |
| ProThreads.EraseLineEvents | ESP_Flasher/Pro/ESP_Flasher_Pro.py:361-362 | an erase line is forwarded at 10%, stripped, exactly when it is not blank |
| ProThreads.EraseEvents | ESP_Flasher/Pro/ESP_Flasher_Pro.py:357-362 | the erase output yields at most one progress event per line and no `finished` |
| ProThreads.PrepareEvents | ESP_Flasher/Pro/ESP_Flasher_Pro.py:378-380 | three announcements before the write process starts, none of them a `finished` |
| ProThreads.FlashOutcome | ESP_Flasher/Pro/ESP_Flasher_Pro.py:402-408 | after the write exits, one `finished` closes the run; it succeeds iff the exit code is 0, and success is preceded by `progress(100, ...)` |
| ProThreads.WriteClose | ESP_Flasher/Pro/ESP_Flasher_Pro.py:402-410 | a write read to its end closes with one `finished`, successful iff it exited 0; an exception closes it with the exception's message |
| ProThreads.WriteStepTail | ESP_Flasher/Pro/ESP_Flasher_Pro.py:382-410 | the write output closes with one `finished` unless the flag check fires inside it, in which case nothing closes it |
| ProThreads.WriteStep | ESP_Flasher/Pro/ESP_Flasher_Pro.py:368-410 | the write step starts exactly the write vector after what was launched before, and closes the run once unless cancelled inside the write output |
| ProThreads.EraseClose | ESP_Flasher/Pro/ESP_Flasher_Pro.py:363-366 | an erase step that does not lead to the write closes with a failing `finished`: the exception's message, or "Failed to erase flash" |
| ProThreads.Flash | ESP_Flasher/Pro/ESP_Flasher_Pro.py:343-410 | a missing file gives one failing `finished` and starts nothing; otherwise at most two processes, at most one `finished`, and that one last |
| ProThreads.FlashReachesWrite | ESP_Flasher/Pro/ESP_Flasher_Pro.py:352-376 | once the erase step (if any) completes with exit 0, the run is the write step after the erase transcript, with the cancellation point shifted past the erase output |
| ProThreads.FlashStopsBeforeWrite | ESP_Flasher/Pro/ESP_Flasher_Pro.py:345-366 | a run that stops before the write emits no `finished` if cancelled in the erase output, and otherwise exactly one failing `finished`, last |
| ProThreads.FlashClosesOnce | ESP_Flasher/Pro/ESP_Flasher_Pro.py:343-410 | a flash run ends with exactly one `finished` iff no cancellation is observed; a cancelled run emits none |
| ProThreads.FlashSucceedsIff | ESP_Flasher/Pro/ESP_Flasher_Pro.py:343-410 | a flash run succeeds iff the file exists, the erase (if any) exits 0, the write exits 0 and no cancellation is observed; success is announced by `progress(100, ...)` right before it |
| ProThreads.FailsBeforeWrite | ESP_Flasher/Pro/ESP_Flasher_Pro.py:345-366 | no run that stops before the write step ends in success |
| ProThreads.WriteStepCompleted | ESP_Flasher/Pro/ESP_Flasher_Pro.py:402-410 | a write read to its end succeeds iff it exits 0 rather than raising, announcing 100% right before |
| ProThreads.CompletedTail | ESP_Flasher/Pro/ESP_Flasher_Pro.py:402-410 | whatever came before, a run whose write output is read to its end ends in success iff the write exits 0, with 100% right before |
| ProThreads.WriteStepStopped | ESP_Flasher/Pro/ESP_Flasher_Pro.py:384-387 | a write whose flag check fires inside its output does not succeed |
| ProThreads.WriteStepAnnounces | ESP_Flasher/Pro/ESP_Flasher_Pro.py:378-380 | the write step always begins with the three announcements (15, 20, 25%) right after the erase transcript |
| ProThreads.WriteStepOutcome | ESP_Flasher/Pro/ESP_Flasher_Pro.py:382-408 | the write step succeeds iff the write runs uncancelled and exits 0, with 100% announced right before |
| ProThreads.FlashMissingFile | ESP_Flasher/Pro/ESP_Flasher_Pro.py:345-347 | a missing firmware file yields only a failing `finished` naming the path, and no process is started |
| ProThreads.EraseFailureStopsFlash | ESP_Flasher/Pro/ESP_Flasher_Pro.py:352-366 | an erase exiting non-zero ends the run with "Failed to erase flash"; the only process started is the erase, never a write |
| ProThreads.EraseExceptionStopsFlash | ESP_Flasher/Pro/ESP_Flasher_Pro.py:352-366 | an exception during the erase ends the run with its message after the erase lines read; no write is started |
| ProThreads.FlashCommands | ESP_Flasher/Pro/ESP_Flasher_Pro.py:352-376 | the processes started are the erase vector when erasing, then the write vector exactly when the write step is reached |
| ProThreads.FlashWriteTranscript | ESP_Flasher/Pro/ESP_Flasher_Pro.py:352-408 | a write run to its end, with or without an erase before it, yields exactly the erase transcript, the three announcements, the per-line events of the write output and the outcome |
| ProThreads.WriteExitFailureReported | ESP_Flasher/Pro/ESP_Flasher_Pro.py:402-408 | a write that exits non-zero before the flag check fires, as one terminated by `stop()` after its last line does, ends the run with the generic flash failure as its only `finished` |
| ProThreads.SafePort | ESP_Flasher/Pro/ESP_Flasher_Pro.py:438 | the port text in a backup name has the port's length and no ':' |
| ProThreads.BackupFileName | ESP_Flasher/Pro/ESP_Flasher_Pro.py:437-438 | the name is `backup_` … `.bin`, with the colon-free port at its fixed position after the chip |
| ProThreads.BackupNamesDistinct | ESP_Flasher/Pro/ESP_Flasher_Pro.py:438 | ports whose sanitised forms differ never share a backup file name for the same chip and second |
| ProThreads.SafePortKeepsColonFree | ESP_Flasher/Pro/ESP_Flasher_Pro.py:438 | a port without ':' appears unchanged in the name |
| ProThreads.BackupNamesCanCollide | ESP_Flasher/Pro/ESP_Flasher_Pro.py:438 | `COM1:` and `COM1_` share one backup file name |
| ProThreads.BackupOutcome | ESP_Flasher/Pro/ESP_Flasher_Pro.py:460-465 | after the read exits, one `finished` closes the run: success with the file name and path iff exit 0, else "Backup failed" with an empty path |
| ProThreads.BackupClose | ESP_Flasher/Pro/ESP_Flasher_Pro.py:460-467 | a read read to its end closes with one `finished`, successful iff it exited 0; an exception closes it with its message and an empty path |
| ProThreads.Backup | ESP_Flasher/Pro/ESP_Flasher_Pro.py:435-467 | a backup starts exactly the read vector into the generated path, opens with the size announcement, and closes once, successfully iff the read exits 0, unless cancelled inside the read output |
| ProThreads.BackupResult | ESP_Flasher/Pro/ESP_Flasher_Pro.py:448-465 | an uncancelled backup passes every read line through the line handler, then announces 100% and hands over the path on exit 0, or fails with an empty path |
| ProThreads.BackupPathBasename | ESP_Flasher/Pro/ESP_Flasher_Pro.py:437-439 | only for port names without '/', such as Windows `COM` ports (every POSIX device path has one, see Findings): with chip and timestamp also free of '/', the backup lands directly in the backup directory under the generated name |
| ProThreads.SlashPortEscapesDir | ESP_Flasher/Pro/ESP_Flasher_Pro.py:438-439 | a port containing '/' keeps it in the file name, so the backup path's base name is never the generated name: the file goes below a sub-directory of the backup directory |
| ProThreads.FileSafePort | ESP_Flasher/Pro/ESP_Flasher_Pro.py:438 | the corrected sanitiser keeps the length, turns both ':' and '/' into '_', and leaves every other character |
| ProThreads.FixedBackupFileName | ESP_Flasher/Pro/ESP_Flasher_Pro.py:438 | the corrected name has the shape of the original, with the file-safe port at the same position, and holds no '/' when chip and timestamp hold none |
| ProThreads.FixedBackupPathBasename | ESP_Flasher/Pro/ESP_Flasher_Pro.py:437-439 | with the corrected name, the backup lands directly in the backup directory for every port |
| ProThreads.FixedNameKeepsSlashFreePorts | ESP_Flasher/Pro/ESP_Flasher_Pro.py:438 | for ports without '/' the corrected name is the original one |
| BasicThreads.Announcements | ESPFlasher/ESP_Flasher.py:360-363 | four announcements at 0, 5, 10, 15%, the last showing the whole write command joined by blanks, and no `finished` |
| BasicThreads.Stepped | ESPFlasher/ESP_Flasher.py:360-363 | announcement `i` carries text `i` at 5·i% |
| BasicThreads.FlashOutcome | ESPFlasher/ESP_Flasher.py:382-387 | one `finished` closes the run, succeeding iff exit 0, with 100% announced right before a success |
| BasicThreads.WriteClose | ESPFlasher/ESP_Flasher.py:382-389 | one `finished` closes the write, succeeding iff it exited 0 rather than raising, with 100% right before a success |
| BasicThreads.WriteTail | ESPFlasher/ESP_Flasher.py:365-389 | the write output always closes once, succeeding iff the process exited 0; an exception closes it with its message after the events of the lines read |
| BasicThreads.Flash | ESPFlasher/ESP_Flasher.py:346-389 | a missing file starts nothing; otherwise exactly the write vector is started; every run closes with exactly one `finished`, successful iff the file exists and the write exits 0 |
| BasicThreads.FlashCommandMeaning | ESPFlasher/ESP_Flasher.py:352-358 | the started process is asked for `--erase-all` iff erasing, the OTA options iff OTA, never `--verify`, with the requested address and path |
| BasicThreads.ShownCommandEndsWithPath | ESPFlasher/ESP_Flasher.py:363 | the shown command line starts with the interpreter and ends with a blank and the firmware path |
| BasicThreads.FlashTranscript | ESPFlasher/ESP_Flasher.py:360-387 | a launched write contributes exactly its per-line events, between the announcements and the outcome |
| BasicThreads.ReadLineEvents | ESPFlasher/ESP_Flasher.py:417-418 | every read line, blank or marked, becomes exactly one `progress(50, stripped)` |
| BasicThreads.BackupOutcome | ESPFlasher/ESP_Flasher.py:419-424 | one `finished` closes the run, succeeding iff exit 0 and carrying the backup path on success, an empty path otherwise |
| BasicThreads.BackupClose | ESPFlasher/ESP_Flasher.py:419-426 | one `finished` closes the read, succeeding iff it exited 0 rather than raising, carrying the backup path on success and an empty path otherwise |
| BasicThreads.Backup | ESPFlasher/ESP_Flasher.py:407-426 | a `makedirs` failure starts nothing; otherwise exactly the read vector is started; every run closes once, succeeding iff the read exits 0, handing over the path only on success |
| BasicThreads.BackupTranscript | ESPFlasher/ESP_Flasher.py:415-418 | a completed read yields the start announcement and then one 50% event per output line, with no marker interpretation |
| BasicThreads.BackupFileBasename | ESPFlasher/ESP_Flasher.py:410-411 | the backup lands directly in the output directory as `backup_<timestamp>.bin` |
| Probe.Name | ESP_Flasher/Pro/ESP_Flasher_Pro.py:510-523 | every family name stored as chip text mentions "ESP" in upper case |
| Probe.NameUpper | ESP_Flasher/Pro/ESP_Flasher_Pro.py:510-523 | family names are their own upper case |
| Probe.ClassifiersAgree | ESPFlasher/ESP_Flasher.py:279-294 | the nested basic classifier gives every line the same family as the flat Pro chain |
| Probe.LineChange | ESP_Flasher/Pro/ESP_Flasher_Pro.py:508-527 | a line sets the chip iff it is a marker naming a family, the MAC iff it is a non-marker "MAC:" line, the flash size iff it is neither and mentions "Detected flash size:"; the value is the stripped last piece after the key |
| Probe.Changes | ESP_Flasher/Pro/ESP_Flasher_Pro.py:508-527 | the loop body is applied to each line independently |
| Probe.ScanChipKnown | ESP_Flasher/Pro/ESP_Flasher_Pro.py:504-523 | the reported chip is always "Unknown" or one of the seven family names |
| Probe.ChipIsLastMarker | ESP_Flasher/Pro/ESP_Flasher_Pro.py:508-523 | the chip is the family of the last marker line naming one: later lines overwrite earlier ones |
| Probe.ChipUnknownWithoutMarker | ESP_Flasher/Pro/ESP_Flasher_Pro.py:504-523 | without a marker line naming a family, the chip stays "Unknown" |
| Probe.MacIsLast | ESP_Flasher/Pro/ESP_Flasher_Pro.py:524-525 | the MAC is the stripped text after the last "MAC:" of the last line that sets it |
| Probe.MacDefault | ESP_Flasher/Pro/ESP_Flasher_Pro.py:505-525 | without a line that sets it, the MAC stays "N/A" |
| Probe.FlashIsLast | ESP_Flasher/Pro/ESP_Flasher_Pro.py:526-527 | the flash size is the stripped text after the last key of the last line that sets it |
| Probe.FlashDefault | ESP_Flasher/Pro/ESP_Flasher_Pro.py:506-527 | without a line that sets it, the flash size stays "N/A" |
| Probe.ScannersAgree | ESPFlasher/ESP_Flasher.py:278-298 | on any output the basic scanner reports the same chip, MAC and flash size as the Pro scanner |
| Probe.MacLineReadBack | ESP_Flasher/Pro/ESP_Flasher_Pro.py:524-525 | a line `…MAC: <value>` sets the MAC to the stripped value |
| Detect.ProbeCommand | ESP_Flasher/Pro/ESP_Flasher_Pro.py:498-501 | the probe runs `flash_id` through the interpreter against the port's device |
| Detect.DetectionOf | ESP_Flasher/Pro/ESP_Flasher_Pro.py:497-556 | a probe yields no record exactly when it raised an unexpected exception; any record carries the port's device and description |
| Detect.ProbeOutcomes | ESP_Flasher/Pro/ESP_Flasher_Pro.py:502-554 | status "detected" iff exit 0, then with the scanned chip, MAC and flash; "timeout" iff timed out; otherwise "N/A" fields and the failure or timeout chip text |
| Detect.Reached | ESP_Flasher/Pro/ESP_Flasher_Pro.py:491-493 | the loop probes every port, or only those before the one where the flag is found cleared |
| Detect.DetectPro | ESP_Flasher/Pro/ESP_Flasher_Pro.py:487-558 | the Pro loop emits the records of the ports it reaches, one "Scanning" progress per port with its 1-based position and total, and one probe command per port |
| Detect.DetectBasic | ESPFlasher/ESP_Flasher.py:261-325 | the basic loop emits the status-free records of the ports it reaches, classified by the nested scanner, and one probe command per port |
| Detect.Kept | ESP_Flasher/Pro/ESP_Flasher_Pro.py:555-556 | the ports kept are exactly those whose probe did not crash, in increasing order |
| Detect.RecordsFollowPorts | ESP_Flasher/Pro/ESP_Flasher_Pro.py:491-556 | record `j` is the record of the `j`-th port whose probe did not crash: one per port, in port order |
| Detect.OnePerPort | ESP_Flasher/Pro/ESP_Flasher_Pro.py:491-556 | without crashes every port gets a record at its own index |
| Detect.RecordsAppend | ESP_Flasher/Pro/ESP_Flasher_Pro.py:491-556 | the records of a longer port list extend those of its prefix |
| Detect.Boards | ESPFlasher/ESP_Flasher.py:300-322 | the basic records are the Pro records' boards, one for one |
| Detect.BasicIsProWithoutStatus | ESPFlasher/ESP_Flasher.py:300-322 | for the same ports and outcomes the basic records equal the Pro records without their status |
| Dashboard.EspCountBasic | ESPFlasher/ESP_Flasher.py:599-605 | the basic count is at most the number of rows and is zero iff no chip text counts |
| Dashboard.EspCountPro | ESP_Flasher/Pro/ESP_Flasher_Pro.py:1133-1143 | the Pro count is at most the number of rows and is zero iff no record is detected with an ESP chip |
| Dashboard.FailedNotCounted | ESPFlasher/ESP_Flasher.py:603 | a failed probe's row is never counted |
| Dashboard.TimeoutNotCounted | ESPFlasher/ESP_Flasher.py:603 | a timed-out probe's row is never counted |
| Dashboard.UnknownNotCounted | ESP_Flasher/Pro/ESP_Flasher_Pro.py:1140 | a board whose family was not recognised is never counted |
| Dashboard.NameCounted | ESPFlasher/ESP_Flasher.py:603 | every family name counts |
| Dashboard.CountedAgree | ESP_Flasher/Pro/ESP_Flasher_Pro.py:1140 | on any record a probe can produce, the two pages agree on whether it is an ESP device |
| Dashboard.DetectionWellFormed | ESP_Flasher/Pro/ESP_Flasher_Pro.py:502-554 | a probe's record pairs its status with a matching chip text |
| Dashboard.RecordsWellFormed | ESP_Flasher/Pro/ESP_Flasher_Pro.py:491-556 | every record of a scan is well formed |
| Dashboard.CountsAgree | ESP_Flasher/Pro/ESP_Flasher_Pro.py:1131-1143 | over well-formed records the Pro count equals the basic count of their boards |
| Dashboard.DashboardsAgree | ESP_Flasher/Pro/ESP_Flasher_Pro.py:1131-1143 | for the same ports and probe outcomes both dashboards report the same number of ESP devices |
| History.Take | ESP_Flasher/Pro/ESP_Flasher_Pro.py:702 | `s[:k]` is the first `min(len, k)` entries |
| History.AddEntryBasic | ESPFlasher/ESP_Flasher.py:546-550 | the new entry is first, followed by the old list, capped at 100 entries |
| History.AddEntryPro | ESP_Flasher/Pro/ESP_Flasher_Pro.py:699-703 | the new entry is first, followed by the old list, capped at 100 entries |
| History.AddEntriesAgree | ESP_Flasher/Pro/ESP_Flasher_Pro.py:699-703 | both variants keep the same list |
| History.NewestFirst | ESPFlasher/ESP_Flasher.py:546-549 | after adding `a` then `b`, the list starts `b, a`, then the old list |
| History.FullStaysFull | ESPFlasher/ESP_Flasher.py:547-549 | a full list stays at 100 and the oldest entry drops out |
| History.AddAll | ESPFlasher/ESP_Flasher.py:546-549 | adding entries one by one equals putting them, newest first, in front of the old list and keeping the first 100 |
| History.TakeCons | ESPFlasher/ESP_Flasher.py:546-549 | adding to a capped list equals capping the longer list |
| SerialSend.Utf8Char | ESP_Flasher/Pro/ESP_Flasher_Pro.py:2601 | a character encodes to one byte, its code point, below 0x80; to 2, 3 or 4 bytes below 0x800, 0x10000 and above; the lead byte lies in 0xC0-0xDF, 0xE0-0xEF or 0xF0-0xF7 by length, every later byte is a continuation byte 0x80-0xBF, and the six-bit groups they carry spell the code point |
| SerialSend.Utf8Two | ESP_Flasher/Pro/ESP_Flasher_Pro.py:2601 | a code point in 0x80-0x7FF encodes as a 0xC0-0xDF lead and one continuation byte spelling it |
| SerialSend.Utf8Three | ESP_Flasher/Pro/ESP_Flasher_Pro.py:2601 | a code point in 0x800-0xFFFF encodes as a 0xE0-0xEF lead and two continuation bytes spelling it |
| SerialSend.Utf8Four | ESP_Flasher/Pro/ESP_Flasher_Pro.py:2601 | a code point from 0x10000 on encodes as a 0xF0-0xF7 lead and three continuation bytes spelling it |
| SerialSend.Utf8 | ESP_Flasher/Pro/ESP_Flasher_Pro.py:2601 | the encoding takes between one and four bytes per character |
| SerialSend.Utf8Ascii | ESP_Flasher/Pro/ESP_Flasher_Pro.py:2601 | ASCII text encodes byte for byte |
| SerialSend.Utf8Append | ESP_Flasher/Pro/ESP_Flasher_Pro.py:2601 | the encoding of text plus line ending is the two encodings in sequence |
| SerialSend.FromHex | ESP_Flasher/Pro/ESP_Flasher_Pro.py:2606 | `bytes.fromhex` yields at most one byte per two characters |
| SerialSend.FromHexRejects | ESP_Flasher/Pro/ESP_Flasher_Pro.py:2606 | any character that is neither whitespace nor a hex digit makes `bytes.fromhex` raise |
| SerialSend.HexPair | ESP_Flasher/Pro/ESP_Flasher_Pro.py:2569 | `f'{b:02X}'` is two hex digits reading back as `b` |
| SerialSend.HexRun | ESP_Flasher/Pro/ESP_Flasher_Pro.py:2606 | the pairs run together parse back to the bytes |
| SerialSend.HexViewWithoutBlanks | ESP_Flasher/Pro/ESP_Flasher_Pro.py:2569 | removing the blanks of the hex view leaves the pairs run together |
| SerialSend.NoCommaInView | ESP_Flasher/Pro/ESP_Flasher_Pro.py:2604 | removing blanks and then commas from the hex view leaves the pairs run together |
| SerialSend.EndingsCorrespond | ESPFlasher/ESP_Flasher.py:1124-1126 | the two combos list the same four line endings, mapped index to index by fixed permutations |
| SerialSend.SendWith | ESP_Flasher/Pro/ESP_Flasher_Pro.py:2588-2612 | a warning iff not connected; nothing iff connected with empty text; ASCII mode sends the UTF-8 of text plus ending; a hex warning iff the HEX text does not parse, else the parsed bytes followed by the UTF-8 of the ending |
| SerialSend.ProSend | ESP_Flasher/Pro/ESP_Flasher_Pro.py:2593-2612 | the same cases with the Pro endings (none, LF, CR, CRLF); HEX mode parses the text with blanks and commas removed, and its warning reads "Invalid HEX format." |
| SerialSend.BasicSend | ESPFlasher/ESP_Flasher.py:1116-1140 | the same cases with the basic endings (LF, CRLF, CR, none); HEX mode parses the text with only blanks removed, and its warning names the expected hex-pair format |
| SerialSend.ProHexViewRoundTrip | ESP_Flasher/Pro/ESP_Flasher_Pro.py:2569-2608 | sending the Pro hex view of some bytes in HEX mode with no line ending writes exactly those bytes |
| SerialSend.BasicHexViewRoundTrip | ESPFlasher/ESP_Flasher.py:1132-1136 | the same round trip holds through the basic page, whose "no ending" entry is index 3 |
| SerialSend.BasicCommaRefused | ESPFlasher/ESP_Flasher.py:1132-1140 | the basic page keeps commas, so any HEX text containing a comma is refused |
| SerialSend.HexMatchesAscii | ESP_Flasher/Pro/ESP_Flasher_Pro.py:2600-2608 | sending the hex view of a text's UTF-8 bytes writes the same bytes as sending the text in ASCII mode, for every line ending |
| SerialSend.AsciiPayload | ESP_Flasher/Pro/ESP_Flasher_Pro.py:2601 | ASCII text with an ASCII ending goes out one byte per character, each its code point |

## Findings

| source | as written | input that shows it | evidently intended | confidence | as-written member | corrected member |
|---|---|---|---|---|---|---|
| ESP_Flasher/Pro/ESP_Flasher_Pro.py:438-439 | only ':' in the port is replaced before the port goes into the backup file name, so a '/' stays and `os.path.join` reads it as a directory separator | port `/dev/ttyUSB0`: the path becomes `<backup_dir>/backup_<chip>_/dev/ttyUSB0_<timestamp>.bin`, below a directory `backup_<chip>_/dev` that nothing creates | the backup file lies directly in the backup directory, whatever the port | medium; not executed | ProThreads.SlashPortEscapesDir | ProThreads.FixedBackupPathBasename |

`ProThreads.Backup` keeps the name as written, since it models the read
command the program actually starts. The corrected name
(`ProThreads.FixedBackupFileName`) is proved to agree with it on every port
without '/' (`ProThreads.FixedNameKeepsSlashFreePorts`).

## Left out

- Qt widgets, styling, dialogs and page layout are not modelled. Only the
  decision logic behind them is: the counters, the send payload and the
  history list.
- Signal delivery across threads is not modelled. The emissions of one run
  are a sequence in emission order.
- The serial monitor thread (`SerialMonitorThread`) is not modelled,
  because it is pure I/O: polling, the write mutex and port opening. From
  the serial page, only the payload `send_data` writes and the hex view of
  received bytes are modelled.
- Floating-point texts are parameters, since Dafny has no Python float
  formatting. These are the firmware size in KB, the elapsed seconds, and
  the backup size in MB.
- ProThreads.Flash: the `speed` signal (throughput from elapsed time) is
  not emitted in the model, because it depends on the clock.
- The clock and `datetime.now()` are parameters. The backup timestamp is
  the given `%Y%m%d_%H%M%S` text.
- File-system answers are parameters: `os.path.exists`,
  `os.path.getsize` and the exception `os.makedirs` may raise (`dirError`).
  Nothing is read or written.
- The MD5, JSON settings, projects, batch flash, firmware compare and
  backup restore features are outside the device-operation core and are
  not modelled.
- Process termination on cancel or timeout and the 10-second probe timeout
  are outcomes here (`Detect.ProbeOutcome`, the cancellation point), not
  mechanisms.
- Text.Strip: whitespace is the ASCII part of Python's `str.isspace`.
  Non-ASCII Unicode whitespace is not modelled, because the tool output it
  is applied to is ASCII.
- Text.Upper: `str.upper()` folds ASCII letters only, and so does
  `Text.Lower` for `str.lower()`. Unicode case mapping is not modelled,
  because esptool's output and the chip names are ASCII.
- Percent.ExtractPercent: `\d` and `\s` are the ASCII digits and
  whitespace. Python's Unicode classes also accept other scripts' digits,
  which esptool does not print.
- Text.Basename: `os.path.basename` and `os.path.join` follow POSIX rules.
  The Windows `APPDATA` paths with '\\' and drive letters are not
  modelled.
- SerialSend.ProSend: the line-ending combo index is required to be 0..3,
  the four entries the combo offers. An out-of-range index cannot arise
  from the widget.
- SerialSend.BasicSend: the same 0..3 restriction applies.
- The Pro transmit byte counter (`tx_bytes`), the console echo colouring
  and the status-bar texts are not modelled. The echo text is part of the
  send outcome only.
- The dashboard row colours and the status-bar message of the detection
  page are not modelled. Only the ESP count they are based on is.

