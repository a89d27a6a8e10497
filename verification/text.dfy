/** Python string primitives the flasher relies on, restricted to what the
    two front-ends actually call: `in`, `strip()`, `split(sep)[-1]`,
    `replace(c, d)`, ASCII `upper()`/`lower()`, `splitlines()`, `' '.join`,
    and POSIX `os.path.basename` / `os.path.join`. */
module Text {
  import opened Wrappers

  // ---------------------------------------------------------------------
  // Character classes
  // ---------------------------------------------------------------------

  /** `str.isspace()` on the ASCII range: tab, LF, VT, FF, CR, the four
      information separators 0x1C-0x1F, and space.  This is the set that
      `str.strip()` removes and that the regex class `\s` matches there. */
  predicate IsSpace(c: char) {
    var n := c as int;
    n == 32 || (9 <= n <= 13) || (28 <= n <= 31)
  }

  predicate IsDigit(c: char) {
    '0' <= c <= '9'
  }

  /** The line boundaries recognised by `str.splitlines()`. */
  predicate IsLineBreak(c: char) {
    var n := c as int;
    n == 10 || n == 11 || n == 12 || n == 13 || n == 28 || n == 29 || n == 30
      || n == 0x85 || n == 0x2028 || n == 0x2029
  }

  function UpperChar(c: char): char {
    if 'a' <= c <= 'z' then (c as int - 32) as char else c
  }

  function LowerChar(c: char): char {
    if 'A' <= c <= 'Z' then (c as int + 32) as char else c
  }

  /** `s.upper()` for ASCII letters; every other character is kept. */
  function Upper(s: string): (r: string)
    ensures |r| == |s|
    ensures forall k :: 0 <= k < |s| ==> r[k] == UpperChar(s[k])
  {
    seq(|s|, k requires 0 <= k < |s| => UpperChar(s[k]))
  }

  /** `s.lower()` for ASCII letters; every other character is kept. */
  function Lower(s: string): (r: string)
    ensures |r| == |s|
    ensures forall k :: 0 <= k < |s| ==> r[k] == LowerChar(s[k])
  {
    seq(|s|, k requires 0 <= k < |s| => LowerChar(s[k]))
  }

  // ---------------------------------------------------------------------
  // Substring search: Python's `t in s`
  // ---------------------------------------------------------------------

  /** `t` occurs in `s` starting at index `j`. */
  predicate OccursAt(s: string, t: string, j: int) {
    0 <= j && j + |t| <= |s| && s[j..j + |t|] == t
  }

  /** Index of the first occurrence of `t` in `s`, as `str.find` minus its -1. */
  function IndexOf(s: string, t: string): (r: Option<nat>)
    ensures r.Some? ==> OccursAt(s, t, r.value)
    ensures r.Some? ==> forall j :: 0 <= j < r.value ==> !OccursAt(s, t, j)
    ensures r.None? ==> forall j :: !OccursAt(s, t, j)
    decreases |s|
  {
    if |s| < |t| then None
    else if s[..|t|] == t then Some(0)
    else
      OccursShift(s, t);
      match IndexOf(s[1..], t)
      case None => None
      case Some(i) => Some(i + 1)
  }

  /** Occurrences in `s[1..]` are the occurrences in `s` after index 0. */
  lemma OccursShift(s: string, t: string)
    requires |s| > 0
    ensures forall j :: 1 <= j ==> (OccursAt(s, t, j) <==> OccursAt(s[1..], t, j - 1))
  {
    forall j | 1 <= j
      ensures OccursAt(s, t, j) <==> OccursAt(s[1..], t, j - 1)
    {
      if OccursAt(s[1..], t, j - 1) {
        OccursInSuffix(s, t, 1, j - 1, j);
      }
      if j + |t| <= |s| {
        var a, b := s[j..j + |t|], s[1..][j - 1..j - 1 + |t|];
        assert forall k :: 0 <= k < |t| ==> a[k] == b[k];
        assert a == b;
      }
    }
  }

  /** An occurrence inside the suffix `s[m..]` is an occurrence in `s`. */
  lemma OccursInSuffix(s: string, t: string, m: nat, j: int, k: int)
    requires m <= |s| && OccursAt(s[m..], t, j) && k == m + j
    ensures OccursAt(s, t, k)
  {
    assert s[k..k + |t|] == s[m..][j..j + |t|];
  }

  /** Python's `t in s`. */
  predicate Contains(s: string, t: string) {
    IndexOf(s, t).Some?
  }

  lemma ContainsIff(s: string, t: string)
    ensures Contains(s, t) <==> exists j :: OccursAt(s, t, j)
  {
    if Contains(s, t) {
      assert OccursAt(s, t, IndexOf(s, t).value);
    }
  }

  /** An occurrence of `t` is also an occurrence of every prefix of `t`:
      a line containing "ESP32-S2" contains "ESP32". */
  lemma ContainsPrefix(s: string, t: string, p: string)
    requires Contains(s, t)
    requires |p| <= |t| && t[..|p|] == p
    ensures Contains(s, p)
  {
    var j := IndexOf(s, t).value;
    assert s[j..j + |p|] == s[j..j + |t|][..|p|];
    assert OccursAt(s, p, j);
  }

  /** A string lacking the first character of `t` cannot contain `t`. */
  lemma NotContainsWithoutHead(s: string, t: string)
    requires |t| > 0 && t[0] !in s
    ensures !Contains(s, t)
  {
    forall j
      ensures !OccursAt(s, t, j)
    {
      if 0 <= j && j + |t| <= |s| {
        assert s[j..j + |t|][0] == s[j];
      }
    }
  }

  // ---------------------------------------------------------------------
  // strip()
  // ---------------------------------------------------------------------

  /** Number of whitespace characters at the front of `s`. */
  function LeftSpaces(s: string): (n: nat)
    ensures n <= |s|
    ensures forall k :: 0 <= k < n ==> IsSpace(s[k])
    ensures n < |s| ==> !IsSpace(s[n])
  {
    if |s| > 0 && IsSpace(s[0]) then 1 + LeftSpaces(s[1..]) else 0
  }

  /** Number of whitespace characters at the end of `s`. */
  function RightSpaces(s: string): (n: nat)
    ensures n <= |s|
    ensures forall k :: |s| - n <= k < |s| ==> IsSpace(s[k])
    ensures n < |s| ==> !IsSpace(s[|s| - 1 - n])
  {
    if |s| > 0 && IsSpace(s[|s| - 1]) then 1 + RightSpaces(s[..|s| - 1]) else 0
  }

  /** Number of whitespace characters `strip()` removes from the front. */
  function StripStart(s: string): nat {
    LeftSpaces(s)
  }

  /** `s.strip()`: the longest slice of `s` that neither starts nor ends
      with whitespace; everything cut off at either end is whitespace. */
  function Strip(s: string): (r: string)
    ensures StripStart(s) + |r| <= |s|
    ensures r == s[StripStart(s)..StripStart(s) + |r|]
    ensures forall k :: 0 <= k < StripStart(s) ==> IsSpace(s[k])
    ensures forall k :: StripStart(s) + |r| <= k < |s| ==> IsSpace(s[k])
    ensures |r| > 0 ==> !IsSpace(r[0]) && !IsSpace(r[|r| - 1])
  {
    var i := LeftSpaces(s);
    if i == |s| then ""
    else
      var j := |s| - RightSpaces(s);
      assert i < j;
      s[i..j]
  }

  /** Stripping is idempotent: a status line forwarded twice does not shrink. */
  lemma StripIdempotent(s: string)
    ensures Strip(Strip(s)) == Strip(s)
  {
    var r := Strip(s);
    if |r| > 0 {
      assert LeftSpaces(r) == 0;
      assert RightSpaces(r) == 0;
    }
  }

  /** A string that is all whitespace strips to nothing, and only such a string. */
  lemma StripEmptyIff(s: string)
    ensures Strip(s) == "" <==> forall k :: 0 <= k < |s| ==> IsSpace(s[k])
  {
  }

  // ---------------------------------------------------------------------
  // split(sep)[-1]
  // ---------------------------------------------------------------------

  /** Where the last piece of `s.split(sep)` starts: just after the last of
      the non-overlapping occurrences found left to right, or 0. */
  function LastCut(s: string, sep: string): (c: nat)
    requires |sep| > 0
    ensures c <= |s|
    decreases |s|
  {
    match IndexOf(s, sep)
    case None => 0
    case Some(i) => i + |sep| + LastCut(s[i + |sep|..], sep)
  }

  /** The last piece holds no separator. */
  lemma {:induction false} LastCutRest(s: string, sep: string)
    requires |sep| > 0
    ensures !Contains(s[LastCut(s, sep)..], sep)
    decreases |s|
  {
    match IndexOf(s, sep)
    case None =>
    case Some(i) =>
      var m := i + |sep|;
      LastCutRest(s[m..], sep);
      assert s[m..][LastCut(s[m..], sep)..] == s[LastCut(s, sep)..];
  }

  /** When `s` holds a separator, one ends right where the last piece starts. */
  lemma {:induction false} LastCutSep(s: string, sep: string)
    requires |sep| > 0 && Contains(s, sep)
    ensures |sep| <= LastCut(s, sep) && OccursAt(s, sep, LastCut(s, sep) - |sep|)
    decreases |s|
  {
    var i := IndexOf(s, sep).value;
    var m := i + |sep|;
    var c := LastCut(s[m..], sep);
    var k := LastCut(s, sep) - |sep|;
    assert k == m + c - |sep|;
    if Contains(s[m..], sep) {
      LastCutSep(s[m..], sep);
      OccursInSuffix(s, sep, m, c - |sep|, k);
    } else {
      assert i == k;
    }
  }

  /** `s.split(sep)[-1]`: split left to right at non-overlapping occurrences
      of `sep` and keep the last piece. */
  function AfterLast(s: string, sep: string): (r: string)
    requires |sep| > 0
    ensures |r| <= |s| && r == s[|s| - |r|..]
    ensures !Contains(r, sep)
    ensures !Contains(s, sep) ==> r == s
    ensures Contains(s, sep) ==> |r| + |sep| <= |s| && OccursAt(s, sep, |s| - |r| - |sep|)
  {
    LastCutRest(s, sep);
    if Contains(s, sep) then LastCutSep(s, sep); s[LastCut(s, sep)..]
    else s[LastCut(s, sep)..]
  }

  /** A separator whose first character appears neither before it nor after
      it: the last piece is exactly the text after it. */
  lemma AfterLastSingle(pre: string, sep: string, v: string)
    requires |sep| > 0 && sep[0] !in pre && sep[0] !in v
    ensures AfterLast(pre + sep + v, sep) == v
  {
    var s := pre + sep + v;
    var m := |pre| + |sep|;
    assert s[|pre|..m] == sep;
    assert OccursAt(s, sep, |pre|);
    forall j | 0 <= j < |pre|
      ensures !OccursAt(s, sep, j)
    {
      if j + |sep| <= |s| {
        assert s[j..j + |sep|][0] == pre[j];
      }
    }
    assert IndexOf(s, sep) == Some(|pre|);
    assert s[m..] == v;
    NotContainsWithoutHead(v, sep);
    assert LastCut(s, sep) == m;
  }

  // ---------------------------------------------------------------------
  // replace(a, b) for single characters
  // ---------------------------------------------------------------------

  function ReplaceChar(s: string, a: char, b: char): (r: string)
    ensures |r| == |s|
    ensures forall k :: 0 <= k < |s| ==> r[k] == if s[k] == a then b else s[k]
    ensures a != b ==> a !in r
  {
    seq(|s|, k requires 0 <= k < |s| => if s[k] == a then b else s[k])
  }

  /** Every occurrence of a character removed: `s.replace(c, '')`. */
  function RemoveChar(s: string, c: char): (r: string)
    ensures c !in r
    ensures |r| <= |s|
    ensures c !in s ==> r == s
    ensures multiset(r) == multiset(s)[c := 0]
    ensures |s| == 1 ==> r == (if s[0] == c then [] else s)
  {
    if s == [] then []
    else if s[0] == c then
      assert s == [s[0]] + s[1..];
      RemoveChar(s[1..], c)
    else
      assert s == [s[0]] + s[1..];
      [s[0]] + RemoveChar(s[1..], c)
  }

  lemma RemoveCharAppend(a: string, b: string, c: char)
    ensures RemoveChar(a + b, c) == RemoveChar(a, c) + RemoveChar(b, c)
  {
    if a != [] {
      assert (a + b)[1..] == a[1..] + b;
      RemoveCharAppend(a[1..], b, c);
    } else {
      assert a + b == b;
    }
  }

  // ---------------------------------------------------------------------
  // splitlines()
  // ---------------------------------------------------------------------

  /** Index of the first line boundary in `s`, if any. */
  function FirstBreak(s: string): (r: Option<nat>)
    ensures r.Some? ==> r.value < |s| && IsLineBreak(s[r.value])
    ensures r.Some? ==> forall k :: 0 <= k < r.value ==> !IsLineBreak(s[k])
    ensures r.None? ==> forall k :: 0 <= k < |s| ==> !IsLineBreak(s[k])
  {
    if s == [] then None
    else if IsLineBreak(s[0]) then Some(0)
    else match FirstBreak(s[1..])
      case None => None
      case Some(i) => Some(i + 1)
  }

  predicate NoBreaks(s: string) {
    forall k :: 0 <= k < |s| ==> !IsLineBreak(s[k])
  }

  /** `s.splitlines()`: lines without their terminators; "\r\n" is one
      boundary; a final terminator does not open an empty last line. */
  function SplitLines(s: string): (r: seq<string>)
    ensures forall i :: 0 <= i < |r| ==> NoBreaks(r[i])
    ensures s == [] <==> r == []
    decreases |s|
  {
    if s == [] then []
    else match FirstBreak(s)
      case None => [s]
      case Some(i) =>
        var next := if s[i] == '\r' && i + 1 < |s| && s[i + 1] == '\n' then i + 2 else i + 1;
        [s[..i]] + SplitLines(s[next..])
  }

  /** Each line followed by "\n": the text a process prints line by line. */
  function JoinLines(lines: seq<string>): string {
    if lines == [] then "" else lines[0] + "\n" + JoinLines(lines[1..])
  }

  /** `splitlines` undoes line-by-line printing, empty lines included. */
  lemma {:induction false} SplitJoinLines(lines: seq<string>)
    requires forall i :: 0 <= i < |lines| ==> NoBreaks(lines[i])
    ensures SplitLines(JoinLines(lines)) == lines
  {
    if lines != [] {
      var l := lines[0];
      var s := JoinLines(lines);
      assert s == l + "\n" + JoinLines(lines[1..]);
      assert FirstBreak(s) == Some(|l|) by {
        assert s == l + ("\n" + JoinLines(lines[1..]));
        FirstBreakAt(l, "\n" + JoinLines(lines[1..]));
      }
      assert s[..|l|] == l;
      assert s[|l| + 1..] == JoinLines(lines[1..]);
      SplitJoinLines(lines[1..]);
    }
  }

  lemma FirstBreakAt(l: string, rest: string)
    requires NoBreaks(l)
    requires |rest| > 0 && IsLineBreak(rest[0])
    ensures FirstBreak(l + rest) == Some(|l|)
  {
    var r := FirstBreak(l + rest);
    assert IsLineBreak((l + rest)[|l|]);
  }

  // ---------------------------------------------------------------------
  // ' '.join and POSIX paths
  // ---------------------------------------------------------------------

  /** `sep.join(parts)`. */
  function JoinWith(sep: string, parts: seq<string>): (r: string)
    ensures parts == [] ==> r == ""
    ensures |parts| == 1 ==> r == parts[0]
  {
    if parts == [] then ""
    else if |parts| == 1 then parts[0]
    else parts[0] + sep + JoinWith(sep, parts[1..])
  }

  /** The joined text starts with the first part and ends with the
      separator and the last part. */
  lemma {:induction false} JoinWithEnds(sep: string, parts: seq<string>)
    requires |parts| >= 2
    ensures var r := JoinWith(sep, parts);
            && |r| >= |parts[0]| + |sep| + |parts[|parts| - 1]|
            && r[..|parts[0]|] == parts[0]
            && r[|r| - |sep| - |parts[|parts| - 1]|..] == sep + parts[|parts| - 1]
  {
    var r := JoinWith(sep, parts);
    var rest := JoinWith(sep, parts[1..]);
    var last := parts[|parts| - 1];
    var n := |sep| + |last|;
    assert r == parts[0] + sep + rest;
    if |parts| == 2 {
      assert rest == last;
      assert r[|r| - n..] == sep + last;
    } else {
      JoinWithEnds(sep, parts[1..]);
      assert parts[1..][|parts[1..]| - 1] == last;
      assert r[|r| - n..] == rest[|rest| - n..];
    }
  }

  /** Index just after the last '/' in `p`, or 0 when there is none. */
  function AfterLastSlash(p: string): (r: nat)
    ensures r <= |p|
    ensures r > 0 ==> p[r - 1] == '/'
    ensures forall k :: r <= k < |p| ==> p[k] != '/'
  {
    if p == [] then 0
    else if p[|p| - 1] == '/' then |p|
    else AfterLastSlash(p[..|p| - 1])
  }

  /** `os.path.basename(p)` on POSIX: the text after the last '/'. */
  function Basename(p: string): (r: string)
    ensures '/' !in r
    ensures |r| <= |p| && p[|p| - |r|..] == r
    ensures |r| < |p| ==> p[|p| - |r| - 1] == '/'
  {
    p[AfterLastSlash(p)..]
  }

  /** `os.path.join(dir, name)` on POSIX. */
  function JoinPath(dir: string, name: string): string {
    if |name| > 0 && name[0] == '/' then name
    else if dir == [] || dir[|dir| - 1] == '/' then dir + name
    else dir + "/" + name
  }

  /** Characters appended without a '/' leave the last '/' where it was. */
  lemma AfterLastSlashAppend(x: string, y: string)
    requires '/' !in y
    ensures AfterLastSlash(x + y) == AfterLastSlash(x)
    decreases |y|
  {
    if y != [] {
      var xy := x + y;
      assert xy[|xy| - 1] == y[|y| - 1];
      assert xy[..|xy| - 1] == x + y[..|y| - 1];
      AfterLastSlashAppend(x, y[..|y| - 1]);
    } else {
      assert x + y == x;
    }
  }

  /** Joining a relative file name without '/' under a directory yields a
      path whose basename is that file name. */
  lemma BasenameOfJoin(dir: string, name: string)
    requires '/' !in name
    ensures Basename(JoinPath(dir, name)) == name
  {
    if dir == [] {
      AfterLastSlashAppend([], name);
      assert [] + name == name;
    } else if dir[|dir| - 1] == '/' {
      AfterLastSlashAppend(dir, name);
    } else {
      AfterLastSlashAppend(dir + "/", name);
      assert dir + "/" + name == (dir + "/") + name;
    }
  }
}
