/** The esptool argument vectors the threads hand to `Popen`.  `python`
    stands for `sys.executable`. */
module Commands {
  import opened Wrappers
  import opened Decimal

  /** Where a command is aimed: interpreter, chip family argument, serial
      device and baud rate. */
  datatype Target = Target(python: string, chip: string, port: string, baud: int)

  /** The prefix every Pro command starts with: the interpreter running the
      esptool module, then the chip, port and decimal baud-rate options. */
  function Prefix(t: Target): (r: seq<string>)
    ensures |r| == 9
    ensures r[0] == t.python && r[4] == t.chip && r[6] == t.port
    ensures ParseInt(r[8]) == Some(t.baud)
  {
    ParseIntToDec(t.baud);
    [t.python, "-m", "esptool", "--chip", t.chip, "--port", t.port, "--baud", IntToDec(t.baud)]
  }

  const OtaArgs: seq<string> := ["--flash_mode", "dio", "--flash_size", "detect"]

  /** The Pro pre-erase command: the prefix and `erase_flash`. */
  function EraseCommand(t: Target): (r: seq<string>)
    ensures |r| == 10 && r[..9] == Prefix(t) && r[9] == "erase_flash"
  {
    Prefix(t) + ["erase_flash"]
  }

  /** The Pro write command: `write_flash -z`, the OTA pair of options,
      `--verify`, then address and image path. */
  function ProWriteCommand(t: Target, address: string, path: string, ota: bool, verify: bool): (r: seq<string>)
    ensures |r| == 13 + (if ota then 4 else 0) + (if verify then 1 else 0)
    ensures r[..9] == Prefix(t) && r[9] == "write_flash" && r[10] == "-z"
    ensures r[|r| - 2] == address && r[|r| - 1] == path
  {
    Prefix(t) + ["write_flash", "-z"]
      + (if ota then OtaArgs else [])
      + (if verify then ["--verify"] else [])
      + [address, path]
  }

  /** The basic write command: `write_flash`, `--erase-all` when erasing,
      `-z`, the OTA options, then address and image path; never `--verify`. */
  function BasicWriteCommand(t: Target, address: string, path: string, erase: bool, ota: bool): (r: seq<string>)
    ensures |r| == 13 + (if erase then 1 else 0) + (if ota then 4 else 0)
    ensures r[..9] == Prefix(t) && r[0] == t.python && r[9] == "write_flash"
    ensures r[|r| - 2] == address && r[|r| - 1] == path
  {
    Prefix(t) + ["write_flash"]
      + (if erase then ["--erase-all"] else [])
      + ["-z"]
      + (if ota then OtaArgs else [])
      + [address, path]
  }

  /** The Pro backup command: read `size` bytes from offset 0 into `path`. */
  function ProReadCommand(t: Target, size: int, path: string): (r: seq<string>)
    ensures |r| == 13 && r[..9] == Prefix(t)
    ensures r[9..] == ["read_flash", "0x0", IntToDec(size), path]
    ensures ParseInt(r[11]) == Some(size)
  {
    ParseIntToDec(size);
    Prefix(t) + ["read_flash", "0x0", IntToDec(size), path]
  }

  /** The basic backup command: the bare `esptool` entry point, no chip. */
  function BasicReadCommand(port: string, baud: int, size: int, file: string): (r: seq<string>)
    ensures |r| == 9 && r[0] == "esptool" && r[2] == port
    ensures r[5..] == ["read_flash", "0x0", IntToDec(size), file]
    ensures ParseInt(r[4]) == Some(baud) && ParseInt(r[7]) == Some(size)
  {
    ParseIntToDec(baud);
    ParseIntToDec(size);
    ["esptool", "--port", port, "--baud", IntToDec(baud), "read_flash", "0x0", IntToDec(size), file]
  }

  // ---------------------------------------------------------------------
  // Reading a write command back: what esptool is asked to do
  // ---------------------------------------------------------------------

  /** The meaning of a `write_flash` invocation. */
  datatype WriteRequest = WriteRequest(
    target: Target, eraseAll: bool, ota: bool, verify: bool, address: string, path: string)

  /** Options between `write_flash` and the address, in the order both
      front-ends emit them: `--erase-all`? `-z` OTA-options? `--verify`? */
  function ParseWriteOptions(opts: seq<string>): Option<(bool, bool, bool)> {
    var erase := |opts| > 0 && opts[0] == "--erase-all";
    var o1 := if erase then opts[1..] else opts;
    if |o1| == 0 || o1[0] != "-z" then None
    else
      var o2 := o1[1..];
      var ota := |o2| >= 4 && o2[..4] == OtaArgs;
      var o3 := if ota then o2[4..] else o2;
      if o3 == [] then Some((erase, ota, false))
      else if o3 == ["--verify"] then Some((erase, ota, true))
      else None
  }

  /** Interprets an argument vector of the shape the threads build. */
  function ParseWrite(cmd: seq<string>): Option<WriteRequest> {
    if |cmd| < 13 || cmd[1] != "-m" || cmd[2] != "esptool" || cmd[3] != "--chip"
      || cmd[5] != "--port" || cmd[7] != "--baud" || cmd[9] != "write_flash"
    then None
    else
      match (ParseInt(cmd[8]), ParseWriteOptions(cmd[10..|cmd| - 2]))
      case (Some(baud), Some((erase, ota, verify))) =>
        Some(WriteRequest(Target(cmd[0], cmd[4], cmd[6], baud), erase, ota, verify,
                          cmd[|cmd| - 2], cmd[|cmd| - 1]))
      case _ => None
  }

  /** Any vector of the common shape reads back as its target, options,
      address and path. */
  lemma ParseWriteShape(t: Target, opts: seq<string>, address: string, path: string)
    requires ParseWriteOptions(opts).Some?
    ensures var o := ParseWriteOptions(opts).value;
            ParseWrite(Prefix(t) + ["write_flash"] + opts + [address, path])
            == Some(WriteRequest(t, o.0, o.1, o.2, address, path))
  {
    var cmd := Prefix(t) + ["write_flash"] + opts + [address, path];
    assert |opts| > 0;
    assert cmd[..9] == Prefix(t) && cmd[9] == "write_flash";
    assert cmd[10..|cmd| - 2] == opts;
    assert cmd[|cmd| - 2] == address && cmd[|cmd| - 1] == path;
  }

  /** The Pro option list: `-z`, the OTA options, `--verify`. */
  lemma ProOptions(ota: bool, verify: bool)
    ensures ParseWriteOptions(["-z"] + (if ota then OtaArgs else []) + (if verify then ["--verify"] else []))
            == Some((false, ota, verify))
  {
    var opts := ["-z"] + (if ota then OtaArgs else []) + (if verify then ["--verify"] else []);
    assert opts[1..] == (if ota then OtaArgs else []) + (if verify then ["--verify"] else []);
  }

  /** The basic option list: `--erase-all`, `-z`, the OTA options. */
  lemma BasicOptions(erase: bool, ota: bool)
    ensures ParseWriteOptions((if erase then ["--erase-all"] else []) + ["-z"] + (if ota then OtaArgs else []))
            == Some((erase, ota, false))
  {
    var opts := (if erase then ["--erase-all"] else []) + ["-z"] + (if ota then OtaArgs else []);
    if erase {
      assert opts[1..] == ["-z"] + (if ota then OtaArgs else []);
    }
  }

  /** The Pro write vector says exactly what was requested: no `--erase-all`,
      the OTA options iff `ota`, `--verify` iff `verify`. */
  lemma ProWriteCommandMeaning(t: Target, address: string, path: string, ota: bool, verify: bool)
    ensures ParseWrite(ProWriteCommand(t, address, path, ota, verify))
            == Some(WriteRequest(t, false, ota, verify, address, path))
  {
    var opts := ["-z"] + (if ota then OtaArgs else []) + (if verify then ["--verify"] else []);
    assert ProWriteCommand(t, address, path, ota, verify) == Prefix(t) + ["write_flash"] + opts + [address, path];
    ProOptions(ota, verify);
    ParseWriteShape(t, opts, address, path);
  }

  /** The basic write vector: `--erase-all` iff `erase`, the OTA options iff
      `ota`, and never `--verify`. */
  lemma BasicWriteCommandMeaning(t: Target, address: string, path: string, erase: bool, ota: bool)
    ensures ParseWrite(BasicWriteCommand(t, address, path, erase, ota))
            == Some(WriteRequest(t, erase, ota, false, address, path))
  {
    var opts := (if erase then ["--erase-all"] else []) + ["-z"] + (if ota then OtaArgs else []);
    assert BasicWriteCommand(t, address, path, erase, ota) == Prefix(t) + ["write_flash"] + opts + [address, path];
    BasicOptions(erase, ota);
    ParseWriteShape(t, opts, address, path);
  }

  /** Without erase and verify the two front-ends build the same write vector. */
  lemma WriteCommandsAgree(t: Target, address: string, path: string, ota: bool)
    ensures BasicWriteCommand(t, address, path, false, ota) == ProWriteCommand(t, address, path, ota, false)
  {
  }

  /** An erase vector is never mistaken for a write. */
  lemma EraseIsNotWrite(t: Target)
    ensures ParseWrite(EraseCommand(t)).None?
  {
  }
}
