/** The percentage extractor both front-ends apply to every line of tool
    output: `re.search(r'\((\d+)\s*%\)', line)` followed by
    `int(match.group(1))`.  Digits and whitespace are the ASCII ones. */
module Percent {
  import opened Wrappers
  import opened Text
  import opened Decimal

  /** The pattern matches at index `i` with `d` digits and `w` blanks:
      `(`, one or more digits, blanks, `%`, `)`. */
  ghost predicate MatchAt(s: string, i: int, d: nat, w: nat) {
    && 0 <= i && i + d + w + 3 <= |s|
    && s[i] == '('
    && d >= 1
    && (forall k :: i + 1 <= k < i + 1 + d ==> IsDigit(s[k]))
    && (forall k :: i + 1 + d <= k < i + 1 + d + w ==> IsSpace(s[k]))
    && s[i + 1 + d + w] == '%'
    && s[i + 2 + d + w] == ')'
  }

  /** The pattern matches at index `i`, whatever the run lengths. */
  ghost predicate Matches(s: string, i: int) {
    exists d: nat, w: nat :: MatchAt(s, i, d, w)
  }

  /** The pattern matches somewhere in `s`: `re.search` succeeds. */
  ghost predicate HasMarker(s: string) {
    exists i :: Matches(s, i)
  }

  /** Length of the maximal run of digits starting at `i`. */
  function DigitRun(s: string, i: nat): (d: nat)
    requires i <= |s|
    ensures i + d <= |s|
    ensures forall k :: i <= k < i + d ==> IsDigit(s[k])
    ensures i + d < |s| ==> !IsDigit(s[i + d])
    decreases |s| - i
  {
    if i < |s| && IsDigit(s[i]) then 1 + DigitRun(s, i + 1) else 0
  }

  /** Length of the maximal run of whitespace starting at `i`. */
  function SpaceRun(s: string, i: nat): (w: nat)
    requires i <= |s|
    ensures i + w <= |s|
    ensures forall k :: i <= k < i + w ==> IsSpace(s[k])
    ensures i + w < |s| ==> !IsSpace(s[i + w])
    decreases |s| - i
  {
    if i < |s| && IsSpace(s[i]) then 1 + SpaceRun(s, i + 1) else 0
  }

  lemma {:induction false} DigitRunIs(s: string, i: nat, d: nat)
    requires i + d <= |s|
    requires forall k :: i <= k < i + d ==> IsDigit(s[k])
    requires i + d < |s| ==> !IsDigit(s[i + d])
    ensures DigitRun(s, i) == d
    decreases d
  {
    if d > 0 {
      DigitRunIs(s, i + 1, d - 1);
    }
  }

  lemma {:induction false} SpaceRunIs(s: string, i: nat, w: nat)
    requires i + w <= |s|
    requires forall k :: i <= k < i + w ==> IsSpace(s[k])
    requires i + w < |s| ==> !IsSpace(s[i + w])
    ensures SpaceRun(s, i) == w
    decreases w
  {
    if w > 0 {
      SpaceRunIs(s, i + 1, w - 1);
    }
  }

  /** Digits, blanks and '%' are disjoint, so a match fixes both run lengths. */
  lemma MatchIsMaximal(s: string, i: int, d: nat, w: nat)
    requires MatchAt(s, i, d, w)
    ensures DigitRun(s, i + 1) == d
    ensures SpaceRun(s, i + 1 + d) == w
  {
    var j := i + 1 + d;
    assert !IsDigit(s[j]) by {
      if w > 0 { assert IsSpace(s[j]); } else { assert s[j] == '%'; }
    }
    DigitRunIs(s, i + 1, d);
    SpaceRunIs(s, j, w);
  }

  /** The value captured by a match at `i`, or None when none starts there. */
  function PercentAt(s: string, i: nat): Option<nat>
    requires i < |s|
  {
    var d := DigitRun(s, i + 1);
    var k := i + 1 + d + SpaceRun(s, i + 1 + d);
    if s[i] == '(' && d >= 1 && k + 1 < |s| && s[k] == '%' && s[k + 1] == ')' then
      Some(ParseDigits(s[i + 1..i + 1 + d]))
    else
      None
  }

  /** A value is captured at `i` exactly when the pattern matches there. */
  lemma PercentAtMatches(s: string, i: nat)
    requires i < |s|
    ensures PercentAt(s, i).Some? <==> Matches(s, i)
  {
    var d := DigitRun(s, i + 1);
    var w := SpaceRun(s, i + 1 + d);
    if PercentAt(s, i).Some? {
      assert MatchAt(s, i, d, w);
    }
    if Matches(s, i) {
      var d', w' :| MatchAt(s, i, d', w');
      PercentAtValue(s, i, d', w');
    }
  }

  /** The captured value is the number the match's digits spell. */
  lemma PercentAtValue(s: string, i: nat, d: nat, w: nat)
    requires MatchAt(s, i, d, w)
    ensures PercentAt(s, i) == Some(ParseDigits(s[i + 1..i + 1 + d]))
  {
    MatchIsMaximal(s, i, d, w);
  }

  /** Leftmost index `>= i` where the pattern matches. */
  function FirstMatch(s: string, i: nat): (r: Option<nat>)
    requires i <= |s|
    ensures r.Some? ==> i <= r.value < |s| && Matches(s, r.value)
    ensures r.Some? ==> forall j :: i <= j < r.value ==> !Matches(s, j)
    ensures r.None? ==> forall j :: i <= j ==> !Matches(s, j)
    decreases |s| - i
  {
    if i == |s| then None
    else
      PercentAtMatches(s, i);
      if PercentAt(s, i).Some? then Some(i)
      else FirstMatch(s, i + 1)
  }

  /** `re.search(r'\((\d+)\s*%\)', s)` and `int(group(1))`: the number
      inside the leftmost match, not clamped to 0..100. */
  function ExtractPercent(s: string): (r: Option<nat>)
    ensures r.None? <==> !HasMarker(s)
    ensures forall i, d: nat, w: nat ::
              MatchAt(s, i, d, w) && (forall j :: 0 <= j < i ==> !Matches(s, j)) ==>
                r == Some(ParseDigits(s[i + 1..i + 1 + d]))
  {
    LeftmostValue(s);
    match FirstMatch(s, 0)
    case None => None
    case Some(i) => PercentAtMatches(s, i); PercentAt(s, i)
  }

  /** The leftmost match is the one `FirstMatch` finds, and `PercentAt`
      reads its value. */
  lemma LeftmostValue(s: string)
    ensures forall i, d: nat, w: nat ::
              MatchAt(s, i, d, w) && (forall j :: 0 <= j < i ==> !Matches(s, j)) ==>
                FirstMatch(s, 0) == Some(i) && PercentAt(s, i) == Some(ParseDigits(s[i + 1..i + 1 + d]))
  {
    forall i, d: nat, w: nat | MatchAt(s, i, d, w) && (forall j :: 0 <= j < i ==> !Matches(s, j))
      ensures FirstMatch(s, 0) == Some(i) && PercentAt(s, i) == Some(ParseDigits(s[i + 1..i + 1 + d]))
    {
      assert Matches(s, i);
      PercentAtValue(s, i, d, w);
    }
  }

  /** A line with no '(' before `(<n><blanks>%)` reports exactly `n`,
      whatever follows the marker. */
  lemma MarkerReportsValue(pre: string, n: nat, blanks: string, post: string)
    requires '(' !in pre
    requires forall k :: 0 <= k < |blanks| ==> IsSpace(blanks[k])
    ensures ExtractPercent(pre + "(" + NatToDec(n) + blanks + "%)" + post) == Some(n)
  {
    var digits := NatToDec(n);
    var s := pre + "(" + digits + blanks + "%)" + post;
    MarkerMatches(pre, digits, blanks, post);
    NoMatchBefore(s, pre);
    ParseNatToDec(n);
  }

  lemma MarkerMatches(pre: string, digits: string, blanks: string, post: string)
    requires |digits| > 0 && AllDigits(digits)
    requires forall k :: 0 <= k < |blanks| ==> IsSpace(blanks[k])
    ensures var s := pre + "(" + digits + blanks + "%)" + post;
            MatchAt(s, |pre|, |digits|, |blanks|) && s[|pre| + 1..|pre| + 1 + |digits|] == digits
  {
    var a := pre + "(";
    var b := a + digits;
    var c := b + blanks;
    var e := c + "%)";
    var s := e + post;
    var i, d, w := |pre|, |digits|, |blanks|;
    assert s[i] == a[i] == '(';
    forall k | i + 1 <= k < i + 1 + d
      ensures IsDigit(s[k])
    {
      assert s[k] == e[k] == c[k] == b[k] == digits[k - i - 1];
    }
    forall k | i + 1 + d <= k < i + 1 + d + w
      ensures IsSpace(s[k])
    {
      assert s[k] == e[k] == c[k] == blanks[k - i - 1 - d];
    }
    assert s[i + 1 + d + w] == e[|c|] == '%';
    assert s[i + 2 + d + w] == e[|c| + 1] == ')';
    assert s[i + 1..i + 1 + d] == b[i + 1..] == digits;
  }

  /** Without a '(' in `pre`, no match starts inside `pre`. */
  lemma NoMatchBefore(s: string, pre: string)
    requires '(' !in pre && |pre| <= |s| && s[..|pre|] == pre
    ensures forall j :: 0 <= j < |pre| ==> !Matches(s, j)
  {
    forall j | 0 <= j < |pre|
      ensures !Matches(s, j)
    {
      assert s[j] == pre[j];
    }
  }
}
