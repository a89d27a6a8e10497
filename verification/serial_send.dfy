/** The payload `SerialPage.send_data` hands to the serial thread, and the
    hex rendering of received data, in both front-ends. */
module SerialSend {
  import opened Wrappers
  import opened Text

  newtype byte = x: int | 0 <= x < 256

  // ---------------------------------------------------------------------
  // str.encode('utf-8')
  // ---------------------------------------------------------------------

  /** The UTF-8 bytes of one Unicode scalar value. */
  function Utf8Char(c: char): (r: seq<byte>)
    ensures 1 <= |r| <= 4
    ensures (c as int < 0x80) <==> |r| == 1
    ensures c as int < 0x80 ==> r == [c as int as byte]
    ensures |r| == 2 <==> 0x80 <= c as int < 0x800
    ensures |r| == 3 <==> 0x800 <= c as int < 0x10000
    ensures |r| == 4 <==> 0x10000 <= c as int
    ensures forall k :: 1 <= k < |r| ==> Continuation(r[k])
    ensures |r| == 2 ==> 0xC0 <= r[0] < 0xE0
                         && (r[0] as int - 0xC0) * 64 + (r[1] as int - 0x80) == c as int
    ensures |r| == 3 ==> 0xE0 <= r[0] < 0xF0
                         && ((r[0] as int - 0xE0) * 64 + (r[1] as int - 0x80)) * 64
                            + (r[2] as int - 0x80) == c as int
    ensures |r| == 4 ==> 0xF0 <= r[0] < 0xF8
                         && (((r[0] as int - 0xF0) * 64 + (r[1] as int - 0x80)) * 64
                             + (r[2] as int - 0x80)) * 64 + (r[3] as int - 0x80) == c as int
  {
    var n := c as int;
    if n < 0x80 then [n as byte]
    else if n < 0x800 then Utf8Two(n)
    else if n < 0x10000 then Utf8Three(n)
    else Utf8Four(n)
  }

  /** A continuation byte carrying six bits of a code point. */
  predicate Continuation(b: byte) {
    0x80 <= b < 0xC0
  }

  function Utf8Two(n: int): (r: seq<byte>)
    requires 0x80 <= n < 0x800
    ensures |r| == 2 && 0xC0 <= r[0] < 0xE0 && Continuation(r[1])
    ensures (r[0] as int - 0xC0) * 64 + (r[1] as int - 0x80) == n
  {
    [(0xC0 + n / 64) as byte, (0x80 + n % 64) as byte]
  }

  function Utf8Three(n: int): (r: seq<byte>)
    requires 0x800 <= n < 0x10000
    ensures |r| == 3 && 0xE0 <= r[0] < 0xF0 && Continuation(r[1]) && Continuation(r[2])
    ensures ((r[0] as int - 0xE0) * 64 + (r[1] as int - 0x80)) * 64 + (r[2] as int - 0x80) == n
  {
    SixBitGroups(n);
    [(0xE0 + n / 4096) as byte, (0x80 + (n / 64) % 64) as byte, (0x80 + n % 64) as byte]
  }

  function Utf8Four(n: int): (r: seq<byte>)
    requires 0x10000 <= n < 0x110000
    ensures |r| == 4 && 0xF0 <= r[0] < 0xF8
    ensures Continuation(r[1]) && Continuation(r[2]) && Continuation(r[3])
    ensures (((r[0] as int - 0xF0) * 64 + (r[1] as int - 0x80)) * 64 + (r[2] as int - 0x80)) * 64
            + (r[3] as int - 0x80) == n
  {
    SixBitGroups(n);
    [(0xF0 + n / 262144) as byte, (0x80 + (n / 4096) % 64) as byte,
     (0x80 + (n / 64) % 64) as byte, (0x80 + n % 64) as byte]
  }

  /** Cutting a code point into six-bit groups loses nothing. */
  lemma SixBitGroups(n: nat)
    ensures n == (n / 64) * 64 + n % 64
    ensures n / 64 == (n / 4096) * 64 + (n / 64) % 64
    ensures n / 4096 == (n / 262144) * 64 + (n / 4096) % 64
  {
    assert n / 4096 == (n / 64) / 64;
    assert n / 262144 == (n / 4096) / 64;
  }

  function Utf8(s: string): (r: seq<byte>)
    ensures |s| <= |r| <= 4 * |s|
  {
    if s == [] then [] else Utf8Char(s[0]) + Utf8(s[1..])
  }

  predicate IsAscii(s: string) {
    forall k :: 0 <= k < |s| ==> s[k] as int < 0x80
  }

  /** ASCII text encodes to its own code points, one byte per character. */
  lemma {:induction false} Utf8Ascii(s: string)
    requires IsAscii(s)
    ensures |Utf8(s)| == |s|
    ensures forall k :: 0 <= k < |s| ==> Utf8(s)[k] == s[k] as int as byte
  {
    if s != [] {
      Utf8Ascii(s[1..]);
    }
  }

  lemma {:induction false} Utf8Append(a: string, b: string)
    ensures Utf8(a + b) == Utf8(a) + Utf8(b)
  {
    if a == [] {
      assert a + b == b;
    } else {
      assert (a + b)[1..] == a[1..] + b;
      Utf8Append(a[1..], b);
      AppendAssoc(Utf8Char(a[0]), Utf8(a[1..]), Utf8(b));
    }
  }

  // ---------------------------------------------------------------------
  // bytes.fromhex and the hex view
  // ---------------------------------------------------------------------

  /** The whitespace `bytes.fromhex` skips between pairs: C's isspace. */
  predicate HexSpace(c: char) {
    c == ' ' || '\t' <= c <= '\r'
  }

  predicate IsHexDigit(c: char) {
    '0' <= c <= '9' || 'a' <= c <= 'f' || 'A' <= c <= 'F'
  }

  function HexValue(c: char): (v: nat)
    requires IsHexDigit(c)
    ensures v < 16
  {
    if '0' <= c <= '9' then c as int - '0' as int
    else if 'a' <= c <= 'f' then c as int - 'a' as int + 10
    else c as int - 'A' as int + 10
  }

  /** `bytes.fromhex(s)`: pairs of hex digits, optionally separated by
      whitespace (but never split by it); None where Python raises. */
  function FromHex(s: string): (r: Option<seq<byte>>)
    ensures r.Some? ==> 2 * |r.value| <= |s|
    decreases |s|
  {
    if s == [] then Some([])
    else if HexSpace(s[0]) then FromHex(s[1..])
    else if |s| < 2 || !IsHexDigit(s[0]) || !IsHexDigit(s[1]) then None
    else
      match FromHex(s[2..])
      case None => None
      case Some(rest) => Some([(16 * HexValue(s[0]) + HexValue(s[1])) as byte] + rest)
  }

  /** A character that is neither whitespace nor a hex digit makes the text
      invalid, wherever it stands. */
  lemma {:induction false} FromHexRejects(s: string, k: nat)
    requires k < |s| && !HexSpace(s[k]) && !IsHexDigit(s[k])
    ensures FromHex(s).None?
    decreases |s|
  {
    if HexSpace(s[0]) {
      FromHexRejects(s[1..], k - 1);
    } else if |s| >= 2 && IsHexDigit(s[0]) && IsHexDigit(s[1]) {
      FromHexRejects(s[2..], k - 2);
    }
  }

  /** The upper-case hex digit of a value below 16. */
  function HexDigit(d: nat): (c: char)
    requires d < 16
    ensures IsHexDigit(c) && HexValue(c) == d
  {
    if d < 10 then ('0' as int + d) as char else ('A' as int + d - 10) as char
  }

  /** `f'{b:02X}'`. */
  function HexPair(b: byte): (r: string)
    ensures |r| == 2 && IsHexDigit(r[0]) && IsHexDigit(r[1])
    ensures 16 * HexValue(r[0]) + HexValue(r[1]) == b as int
  {
    [HexDigit(b as int / 16), HexDigit(b as int % 16)]
  }

  /** `' '.join(f'{b:02X}' for b in data)`, the Pro hex view of received
      data. */
  function HexView(data: seq<byte>): string {
    JoinWith(" ", HexPairs(data))
  }

  function HexPairs(data: seq<byte>): (r: seq<string>)
    ensures |r| == |data|
    ensures forall k :: 0 <= k < |data| ==> r[k] == HexPair(data[k])
  {
    seq(|data|, k requires 0 <= k < |data| => HexPair(data[k]))
  }

  /** The pairs run together. */
  function HexRun(data: seq<byte>): (r: string)
    ensures FromHex(r) == Some(data)
  {
    if data == [] then ""
    else
      var p := HexPair(data[0]);
      var r := p + HexRun(data[1..]);
      assert r[0] == p[0] && r[1] == p[1] && !HexSpace(r[0]);
      assert r[2..] == HexRun(data[1..]);
      assert data == [(16 * HexValue(r[0]) + HexValue(r[1])) as byte] + data[1..];
      r
  }

  /** Removing the separators of the hex view leaves the pairs run together. */
  lemma {:induction false} HexViewWithoutBlanks(data: seq<byte>)
    ensures RemoveChar(HexView(data), ' ') == HexRun(data)
  {
    if |data| == 1 {
      NoBlankInPair(data[0]);
      assert HexRun(data) == HexPair(data[0]) + "";
    } else if |data| > 1 {
      var p, rest := HexPair(data[0]), HexView(data[1..]);
      var ps := HexPairs(data);
      assert ps[1..] == HexPairs(data[1..]);
      assert HexView(data) == p + " " + rest;
      HexViewWithoutBlanks(data[1..]);
      NoBlankInPair(data[0]);
      RemoveCharAppend(p + " ", rest, ' ');
      RemoveCharAppend(p, " ", ' ');
      assert RemoveChar(" ", ' ') == [];
      assert RemoveChar(p + " ", ' ') == p;
      assert HexRun(data) == p + HexRun(data[1..]);
    }
  }

  lemma NoBlankInPair(b: byte)
    ensures RemoveChar(HexPair(b), ' ') == HexPair(b)
  {
    var p := HexPair(b);
    assert p[0] != ' ' && p[1] != ' ';
  }

  /** Commas are removed too when the view contains none. */
  lemma NoCommaInView(data: seq<byte>)
    ensures RemoveChar(RemoveChar(HexView(data), ' '), ',') == HexRun(data)
  {
    HexViewWithoutBlanks(data);
    NoCommaInRun(data);
  }

  lemma {:induction false} NoCommaInRun(data: seq<byte>)
    ensures ',' !in HexRun(data)
  {
    if data != [] {
      NoCommaInRun(data[1..]);
      var p := HexPair(data[0]);
      assert p[0] != ',' && p[1] != ',';
    }
  }

  // ---------------------------------------------------------------------
  // send_data
  // ---------------------------------------------------------------------

  /** The Pro line-ending combo: none, line feed, carriage return, then
      carriage return and line feed. */
  function ProEnding(index: nat): string
    requires index < 4
  {
    ["", "\n", "\r", "\r\n"][index]
  }

  /** The basic line-ending combo: line feed, carriage return and line feed,
      carriage return, then none. */
  function BasicEnding(index: nat): string
    requires index < 4
  {
    ["\n", "\r\n", "\r", ""][index]
  }

  /** The two combos list the same endings in a different order. */
  lemma EndingsCorrespond(index: nat)
    requires index < 4
    ensures BasicEnding(index) == ProEnding([1, 3, 2, 0][index])
    ensures ProEnding(index) == BasicEnding([3, 0, 2, 1][index])
  {
  }

  datatype Mode = Ascii | Hex

  /** What pressing "send" does: a warning when no port is open, nothing for
      empty text, a warning for text that is not hex in HEX mode, otherwise
      the bytes written and the text echoed to the console. */
  datatype SendOutcome =
    | NotConnected
    | NothingToSend
    | InvalidHex(message: string)
    | Sent(data: seq<byte>, echo: string)

  /** The shared shape: `ending` is the chosen line ending and `hexText` the
      text left after the front-end removed its separators. */
  function SendWith(connected: bool, text: string, mode: Mode, ending: string,
                    hexText: string, invalidMessage: string): (r: SendOutcome)
    ensures !connected <==> r == NotConnected
    ensures connected && text == [] <==> r == NothingToSend
    ensures r.Sent? && mode == Ascii ==> r.data == Utf8(text + ending)
    ensures r.InvalidHex? <==> connected && text != [] && mode == Hex && FromHex(hexText).None?
    ensures r.InvalidHex? ==> r.message == invalidMessage
    ensures r.Sent? && mode == Hex ==> FromHex(hexText).Some? && r.data == FromHex(hexText).value + Utf8(ending)
  {
    if !connected then NotConnected
    else if text == [] then NothingToSend
    else
      match mode
      case Ascii => Sent(Utf8(text + ending), ">> " + text + ending)
      case Hex =>
        match FromHex(hexText)
        case None => InvalidHex(invalidMessage)
        case Some(bytes) =>
          Sent(if ending != [] then bytes + Utf8(ending) else bytes, ">> HEX: " + text + "\n")
  }

  /** The Pro `send_data`: HEX mode drops blanks and commas. */
  function ProSend(connected: bool, text: string, mode: Mode, endingIndex: nat): (r: SendOutcome)
    requires endingIndex < 4
    ensures !connected <==> r == NotConnected
    ensures connected && text == [] <==> r == NothingToSend
    ensures r.InvalidHex? <==> connected && text != [] && mode == Hex
                               && FromHex(RemoveChar(RemoveChar(text, ' '), ',')).None?
    ensures r.InvalidHex? ==> r.message == "Invalid HEX format."
    ensures r.Sent? && mode == Ascii ==> r.data == Utf8(text + ProEnding(endingIndex))
    ensures r.Sent? && mode == Hex ==> var h := FromHex(RemoveChar(RemoveChar(text, ' '), ','));
                                       h.Some? && r.data == h.value + Utf8(ProEnding(endingIndex))
  {
    SendWith(connected, text, mode, ProEnding(endingIndex),
             RemoveChar(RemoveChar(text, ' '), ','), "Invalid HEX format.")
  }

  /** The basic `send_data`: HEX mode drops blanks only. */
  function BasicSend(connected: bool, text: string, mode: Mode, endingIndex: nat): (r: SendOutcome)
    requires endingIndex < 4
    ensures !connected <==> r == NotConnected
    ensures connected && text == [] <==> r == NothingToSend
    ensures r.InvalidHex? <==> connected && text != [] && mode == Hex && FromHex(RemoveChar(text, ' ')).None?
    ensures r.InvalidHex? ==> r.message == "Invalid HEX format. Use hex pairs (e.g. 41 42 43)."
    ensures r.Sent? && mode == Ascii ==> r.data == Utf8(text + BasicEnding(endingIndex))
    ensures r.Sent? && mode == Hex ==> var h := FromHex(RemoveChar(text, ' '));
                                       h.Some? && r.data == h.value + Utf8(BasicEnding(endingIndex))
  {
    SendWith(connected, text, mode, BasicEnding(endingIndex),
             RemoveChar(text, ' '), "Invalid HEX format. Use hex pairs (e.g. 41 42 43).")
  }

  // ---------------------------------------------------------------------
  // Properties
  // ---------------------------------------------------------------------

  /** Sending the Pro hex view of some bytes in HEX mode with no line ending
      writes exactly those bytes. */
  lemma ProHexViewRoundTrip(data: seq<byte>)
    requires data != []
    ensures var r := ProSend(true, HexView(data), Hex, 0);
            r.Sent? && r.data == data
  {
    NoCommaInView(data);
    assert HexView(data) != [];
  }

  /** The same through the basic page, whose "no ending" entry is index 3. */
  lemma BasicHexViewRoundTrip(data: seq<byte>)
    requires data != []
    ensures var r := BasicSend(true, HexView(data), Hex, 3);
            r.Sent? && r.data == data
  {
    HexViewWithoutBlanks(data);
    assert HexView(data) != [];
  }

  /** The basic page keeps commas, and a comma is not hex: any text with a
      comma is refused in HEX mode. */
  lemma BasicCommaRefused(text: string, endingIndex: nat, k: nat)
    requires endingIndex < 4 && k < |text| && text[k] == ','
    ensures BasicSend(true, text, Hex, endingIndex).InvalidHex?
  {
    var t := RemoveChar(text, ' ');
    var j := CommaKept(text, k);
    FromHexRejects(t, j);
  }

  /** A comma survives the removal of blanks. */
  lemma {:induction false} CommaKept(s: string, k: nat) returns (j: nat)
    requires k < |s| && s[k] == ','
    ensures j < |RemoveChar(s, ' ')| && RemoveChar(s, ' ')[j] == ','
  {
    if k == 0 {
      j := 0;
    } else {
      var j' := CommaKept(s[1..], k - 1);
      j := if s[0] == ' ' then j' else j' + 1;
    }
  }

  /** In HEX mode, sending the hex view of some text's UTF-8 bytes writes the
      same bytes as sending the text itself in ASCII mode. */
  lemma HexMatchesAscii(text: string, endingIndex: nat)
    requires text != [] && endingIndex < 4
    ensures var h := ProSend(true, HexView(Utf8(text)), Hex, endingIndex);
            var a := ProSend(true, text, Ascii, endingIndex);
            h.Sent? && a.Sent? && h.data == a.data
  {
    var data := Utf8(text);
    NoCommaInView(data);
    assert HexView(data) != [];
    Utf8Append(text, ProEnding(endingIndex));
  }

  /** ASCII text with an ASCII ending goes out byte for byte. */
  lemma AsciiPayload(text: string, endingIndex: nat)
    requires text != [] && IsAscii(text) && endingIndex < 4
    ensures var r := ProSend(true, text, Ascii, endingIndex);
            var e := ProEnding(endingIndex);
            |r.data| == |text| + |e|
            && forall k :: 0 <= k < |text| ==> r.data[k] == text[k] as int as byte
  {
    var e := ProEnding(endingIndex);
    assert IsAscii(text + e);
    Utf8Ascii(text + e);
  }
}
