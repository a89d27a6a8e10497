/** The `flash_id` output scanner both `DetectBoardsThread.run` versions
    apply to the lines of one probe: chip family, MAC address and flash size. */
module Probe {
  import opened Wrappers
  import opened Text

  datatype Family = Esp32S2 | Esp32S3 | Esp32C3 | Esp32C6 | Esp32H2 | Esp32 | Esp8266

  /** The chip text stored in a board record. */
  function Name(f: Family): (r: string)
    ensures Contains(Upper(r), "ESP")
  {
    var r := match f
      case Esp32S2 => "ESP32-S2"
      case Esp32S3 => "ESP32-S3"
      case Esp32C3 => "ESP32-C3"
      case Esp32C6 => "ESP32-C6"
      case Esp32H2 => "ESP32-H2"
      case Esp32 => "ESP32"
      case Esp8266 => "ESP8266";
    NameUpper(r);
    r
  }

  /** Upper-case names are their own upper case and start with "ESP". */
  lemma NameUpper(r: string)
    requires |r| >= 3 && r[..3] == "ESP"
    requires forall k :: 0 <= k < |r| ==> !('a' <= r[k] <= 'z')
    ensures Upper(r) == r && Contains(r, "ESP")
  {
    assert OccursAt(r, "ESP", 0);
  }

  /** A line that may set the chip: it mentions "Chip is" or "Detecting chip type". */
  predicate IsMarker(line: string) {
    Contains(line, "Chip is") || Contains(line, "Detecting chip type")
  }

  /** The two classifier shapes of the source: the Pro flat chain and the
      basic nested test. */
  datatype Classifier = Flat | Nested

  /** Pro chain on `line.upper()`: S2, S3, C3, C6, H2, then plain ESP32, then
      ESP8266; None when the line names none of them. */
  function ClassifyFlat(line: string): Option<Family> {
    var u := Upper(line);
    if Contains(u, "ESP32-S2") then Some(Esp32S2)
    else if Contains(u, "ESP32-S3") then Some(Esp32S3)
    else if Contains(u, "ESP32-C3") then Some(Esp32C3)
    else if Contains(u, "ESP32-C6") then Some(Esp32C6)
    else if Contains(u, "ESP32-H2") then Some(Esp32H2)
    else if Contains(u, "ESP32") then Some(Esp32)
    else if Contains(u, "ESP8266") then Some(Esp8266)
    else None
  }

  /** Basic nesting: first "ESP32", inside it the variants with plain ESP32
      as fallback; otherwise "ESP8266". */
  function ClassifyNested(line: string): Option<Family> {
    var u := Upper(line);
    if Contains(u, "ESP32") then
      if Contains(u, "ESP32-S2") then Some(Esp32S2)
      else if Contains(u, "ESP32-S3") then Some(Esp32S3)
      else if Contains(u, "ESP32-C3") then Some(Esp32C3)
      else if Contains(u, "ESP32-C6") then Some(Esp32C6)
      else if Contains(u, "ESP32-H2") then Some(Esp32H2)
      else Some(Esp32)
    else if Contains(u, "ESP8266") then Some(Esp8266)
    else None
  }

  function Classify(c: Classifier, line: string): Option<Family> {
    match c
    case Flat => ClassifyFlat(line)
    case Nested => ClassifyNested(line)
  }

  /** Both shapes give every line the same family: each variant name starts
      with "ESP32", so the outer test of the nested shape never hides one. */
  lemma ClassifiersAgree(line: string)
    ensures ClassifyFlat(line) == ClassifyNested(line)
  {
    var u := Upper(line);
    if Contains(u, "ESP32-S2") { ContainsPrefix(u, "ESP32-S2", "ESP32"); }
    if Contains(u, "ESP32-S3") { ContainsPrefix(u, "ESP32-S3", "ESP32"); }
    if Contains(u, "ESP32-C3") { ContainsPrefix(u, "ESP32-C3", "ESP32"); }
    if Contains(u, "ESP32-C6") { ContainsPrefix(u, "ESP32-C6", "ESP32"); }
    if Contains(u, "ESP32-H2") { ContainsPrefix(u, "ESP32-H2", "ESP32"); }
  }

  /** What one probe reports. */
  datatype Info = Info(chip: string, mac: string, flash: string)

  const Defaults := Info("Unknown", "N/A", "N/A")
  const MacKey := "MAC:"
  const FlashKey := "Detected flash size:"

  /** A non-marker line that mentions "MAC:" sets the MAC address. */
  predicate SetsMac(line: string) {
    !IsMarker(line) && Contains(line, MacKey)
  }

  /** A line that is neither a marker nor a MAC line and mentions
      "Detected flash size:" sets the flash size. */
  predicate SetsFlash(line: string) {
    !IsMarker(line) && !Contains(line, MacKey) && Contains(line, FlashKey)
  }

  /** A marker line that names a family. */
  predicate SetsChip(c: Classifier, line: string) {
    IsMarker(line) && Classify(c, line).Some?
  }

  /** What one output line does to the probe record. */
  datatype Change = Keep | ChipTo(chip: string) | MacTo(mac: string) | FlashTo(flash: string)

  /** The body of the scan loop over `output.splitlines()`: a marker line
      naming a family sets the chip, otherwise a "MAC:" line sets the MAC,
      otherwise a "Detected flash size:" line sets the flash size. */
  function LineChange(c: Classifier, line: string): (r: Change)
    ensures r.ChipTo? <==> SetsChip(c, line)
    ensures r.ChipTo? ==> r.chip == Name(Classify(c, line).value)
    ensures r.MacTo? <==> SetsMac(line)
    ensures r.MacTo? ==> r.mac == Strip(AfterLast(line, MacKey))
    ensures r.FlashTo? <==> SetsFlash(line)
    ensures r.FlashTo? ==> r.flash == Strip(AfterLast(line, FlashKey))
  {
    if IsMarker(line) then
      match Classify(c, line)
      case None => Keep
      case Some(f) => ChipTo(Name(f))
    else if Contains(line, MacKey) then MacTo(Strip(AfterLast(line, MacKey)))
    else if Contains(line, FlashKey) then FlashTo(Strip(AfterLast(line, FlashKey)))
    else Keep
  }

  function Apply(acc: Info, ch: Change): Info {
    match ch
    case Keep => acc
    case ChipTo(v) => acc.(chip := v)
    case MacTo(v) => acc.(mac := v)
    case FlashTo(v) => acc.(flash := v)
  }

  /** The changes of a sequence of lines, line by line. */
  function Changes(c: Classifier, lines: seq<string>): (r: seq<Change>)
    ensures |r| == |lines|
    ensures forall k :: 0 <= k < |lines| ==> r[k] == LineChange(c, lines[k])
  {
    seq(|lines|, k requires 0 <= k < |lines| => LineChange(c, lines[k]))
  }

  /** The record after applying the changes in order, from the defaults. */
  function Fold(chs: seq<Change>): Info {
    if chs == [] then Defaults
    else Apply(Fold(chs[..|chs| - 1]), chs[|chs| - 1])
  }

  /** The scan over all lines. */
  function Scan(c: Classifier, lines: seq<string>): Info {
    Fold(Changes(c, lines))
  }

  /** The lines of one successful probe: `(stdout + stderr).splitlines()`. */
  function ProbeInfo(c: Classifier, stdout: string, stderr: string): Info {
    Scan(c, SplitLines(stdout + stderr))
  }

  // ---------------------------------------------------------------------
  // Last change wins, field by field
  // ---------------------------------------------------------------------

  lemma {:induction false} FoldChipLast(chs: seq<Change>, i: nat)
    requires i < |chs| && chs[i].ChipTo?
    requires forall j :: i < j < |chs| ==> !chs[j].ChipTo?
    ensures Fold(chs).chip == chs[i].chip
  {
    var n := |chs| - 1;
    if i < n {
      var init := chs[..n];
      assert init[i] == chs[i];
      FoldChipLast(init, i);
    }
  }

  lemma {:induction false} FoldChipNone(chs: seq<Change>)
    requires forall j :: 0 <= j < |chs| ==> !chs[j].ChipTo?
    ensures Fold(chs).chip == Defaults.chip
  {
    if chs != [] {
      FoldChipNone(chs[..|chs| - 1]);
    }
  }

  lemma {:induction false} FoldMacLast(chs: seq<Change>, i: nat)
    requires i < |chs| && chs[i].MacTo?
    requires forall j :: i < j < |chs| ==> !chs[j].MacTo?
    ensures Fold(chs).mac == chs[i].mac
  {
    var n := |chs| - 1;
    if i < n {
      var init := chs[..n];
      assert init[i] == chs[i];
      FoldMacLast(init, i);
    }
  }

  lemma {:induction false} FoldMacNone(chs: seq<Change>)
    requires forall j :: 0 <= j < |chs| ==> !chs[j].MacTo?
    ensures Fold(chs).mac == Defaults.mac
  {
    if chs != [] {
      FoldMacNone(chs[..|chs| - 1]);
    }
  }

  lemma {:induction false} FoldFlashLast(chs: seq<Change>, i: nat)
    requires i < |chs| && chs[i].FlashTo?
    requires forall j :: i < j < |chs| ==> !chs[j].FlashTo?
    ensures Fold(chs).flash == chs[i].flash
  {
    var n := |chs| - 1;
    if i < n {
      var init := chs[..n];
      assert init[i] == chs[i];
      FoldFlashLast(init, i);
    }
  }

  lemma {:induction false} FoldFlashNone(chs: seq<Change>)
    requires forall j :: 0 <= j < |chs| ==> !chs[j].FlashTo?
    ensures Fold(chs).flash == Defaults.flash
  {
    if chs != [] {
      FoldFlashNone(chs[..|chs| - 1]);
    }
  }

  /** A chip text a scan can report: the default or a family name. */
  predicate KnownChip(s: string) {
    s == Defaults.chip || exists f: Family :: s == Name(f)
  }

  lemma {:induction false} FoldChipKnown(chs: seq<Change>)
    requires forall j :: 0 <= j < |chs| && chs[j].ChipTo? ==> KnownChip(chs[j].chip)
    ensures KnownChip(Fold(chs).chip)
  {
    if chs != [] {
      FoldChipKnown(chs[..|chs| - 1]);
    }
  }

  /** Whatever the output, the reported chip is "Unknown" or one of the seven
      family names. */
  lemma ScanChipKnown(c: Classifier, lines: seq<string>)
    ensures KnownChip(Scan(c, lines).chip)
  {
    var chs := Changes(c, lines);
    forall j | 0 <= j < |chs| && chs[j].ChipTo?
      ensures KnownChip(chs[j].chip)
    {
      assert chs[j].chip == Name(Classify(c, lines[j]).value);
    }
    FoldChipKnown(chs);
  }

  /** The chip is the family of the last marker line that names one. */
  lemma ChipIsLastMarker(c: Classifier, lines: seq<string>, i: nat)
    requires i < |lines| && SetsChip(c, lines[i])
    requires forall j :: i < j < |lines| ==> !SetsChip(c, lines[j])
    ensures Scan(c, lines).chip == Name(Classify(c, lines[i]).value)
  {
    FoldChipLast(Changes(c, lines), i);
  }

  /** Without a marker line naming a family, the chip stays "Unknown". */
  lemma ChipUnknownWithoutMarker(c: Classifier, lines: seq<string>)
    requires forall j :: 0 <= j < |lines| ==> !SetsChip(c, lines[j])
    ensures Scan(c, lines).chip == "Unknown"
  {
    FoldChipNone(Changes(c, lines));
  }

  /** The MAC is the stripped text after the last "MAC:" of the last line
      that sets it. */
  lemma MacIsLast(c: Classifier, lines: seq<string>, i: nat)
    requires i < |lines| && SetsMac(lines[i])
    requires forall j :: i < j < |lines| ==> !SetsMac(lines[j])
    ensures Scan(c, lines).mac == Strip(AfterLast(lines[i], MacKey))
  {
    FoldMacLast(Changes(c, lines), i);
  }

  /** Without a line that sets it, the MAC stays "N/A". */
  lemma MacDefault(c: Classifier, lines: seq<string>)
    requires forall j :: 0 <= j < |lines| ==> !SetsMac(lines[j])
    ensures Scan(c, lines).mac == "N/A"
  {
    FoldMacNone(Changes(c, lines));
  }

  /** The flash size is the stripped text after the last "Detected flash
      size:" of the last line that sets it. */
  lemma FlashIsLast(c: Classifier, lines: seq<string>, i: nat)
    requires i < |lines| && SetsFlash(lines[i])
    requires forall j :: i < j < |lines| ==> !SetsFlash(lines[j])
    ensures Scan(c, lines).flash == Strip(AfterLast(lines[i], FlashKey))
  {
    FoldFlashLast(Changes(c, lines), i);
  }

  /** Without a line that sets it, the flash size stays "N/A". */
  lemma FlashDefault(c: Classifier, lines: seq<string>)
    requires forall j :: 0 <= j < |lines| ==> !SetsFlash(lines[j])
    ensures Scan(c, lines).flash == "N/A"
  {
    FoldFlashNone(Changes(c, lines));
  }

  /** The two scanners report the same chip, MAC and flash size on any output. */
  lemma ScannersAgree(lines: seq<string>)
    ensures Scan(Flat, lines) == Scan(Nested, lines)
  {
    forall k | 0 <= k < |lines|
      ensures LineChange(Flat, lines[k]) == LineChange(Nested, lines[k])
    {
      ClassifiersAgree(lines[k]);
    }
    assert Changes(Flat, lines) == Changes(Nested, lines);
  }

  /** A typical esptool MAC line, `MAC: <value>`, reads back its value. */
  lemma MacLineReadBack(c: Classifier, pre: string, value: string)
    requires 'M' !in pre && 'M' !in value
    requires !IsMarker(pre + MacKey + value)
    ensures LineChange(c, pre + MacKey + value) == MacTo(Strip(value))
  {
    var line := pre + MacKey + value;
    AfterLastSingle(pre, MacKey, value);
    assert OccursAt(line, MacKey, |pre|);
    ContainsIff(line, MacKey);
  }
}
