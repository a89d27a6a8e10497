/** What a flash or backup thread emits, and the scripted behaviour of the
    child processes it launches.  The `progress(int, str)` and `finished`
    signals become a returned sequence of events; a child process becomes
    the lines it prints and its exit code. */
module Events {
  import opened Wrappers
  import opened Text
  import opened Percent
  import opened Decimal

  /** One signal emission.  `artifact` is the third argument of the backup
      threads' `finished(bool, str, str)` signal; the flash threads' two-argument
      `finished` carries None there. */
  datatype Event =
    | Progress(percent: int, text: string)
    | Finished(success: bool, message: string, artifact: Option<string>)

  /** A launched child as the reading thread sees it: the lines iterated from
      its combined stdout/stderr (terminators included) and its return code;
      or the lines read before an exception ended the run, with the
      exception's message.  An exception from `Popen` itself is `Raised`
      with no lines; one from iterating the output or from `wait()` keeps
      the lines read until then.  A process terminated by `stop()` whose
      output ends before the next flag check is a `Ran` with the exit code
      the termination produced. */
  datatype Script =
    | Ran(lines: seq<string>, exitCode: int)
    | Raised(lines: seq<string>, error: string)

  /** Everything one thread run produces: the emitted signals in order and
      the argument vectors it handed to `Popen`, in order. */
  datatype Run = Run(events: seq<Event>, commands: seq<seq<string>>)

  /** The texts both flash threads share. */
  const FlashFailedMessage := "Error during flash. See logs for details."

  function NotFoundMessage(path: string): string {
    "Error: Firmware file not found at: " + path
  }

  /** Number of terminal `finished` emissions. */
  function FinishedCount(es: seq<Event>): (n: nat)
    ensures n <= |es|
    ensures n == 0 <==> forall i :: 0 <= i < |es| ==> es[i].Progress?
  {
    if es == [] then 0
    else (if es[0].Finished? then 1 else 0) + FinishedCount(es[1..])
  }

  lemma {:induction false} FinishedCountAppend(a: seq<Event>, b: seq<Event>)
    ensures FinishedCount(a + b) == FinishedCount(a) + FinishedCount(b)
  {
    if a == [] {
      assert a + b == b;
    } else {
      assert (a + b)[1..] == a[1..] + b;
      FinishedCountAppend(a[1..], b);
    }
  }

  /** The run closes with exactly one `finished`, emitted last. */
  predicate EndsWithOneFinished(es: seq<Event>) {
    |es| > 0 && es[|es| - 1].Finished? && FinishedCount(es) == 1
  }

  /** The run ends with a successful `finished`. */
  predicate EndsInSuccess(es: seq<Event>) {
    |es| > 0 && es[|es| - 1].Finished? && es[|es| - 1].success
  }

  /** The event before the last one announces completion at 100%. */
  predicate CompletionAnnounced(es: seq<Event>) {
    |es| >= 2 && es[|es| - 2].Progress? && es[|es| - 2].percent == 100
  }

  /** Progress events followed by a closing run still close exactly once. */
  lemma ClosedAfterProgress(a: seq<Event>, t: seq<Event>)
    requires FinishedCount(a) == 0 && EndsWithOneFinished(t)
    ensures EndsWithOneFinished(a + t)
  {
    FinishedCountAppend(a, t);
  }

  /** Progress events followed by a single `finished`. */
  lemma ClosedByLast(a: seq<Event>, f: Event)
    requires FinishedCount(a) == 0 && f.Finished?
    ensures EndsWithOneFinished(a + [f])
  {
    FinishedCountAppend(a, [f]);
  }

  lemma OpenAfterProgress(a: seq<Event>, b: seq<Event>)
    requires FinishedCount(a) == 0 && FinishedCount(b) == 0
    ensures FinishedCount(a + b) == 0
  {
    FinishedCountAppend(a, b);
  }

  /** Progress events followed by a tail that is either open (no `finished`)
      or closing keep that status. */
  lemma AfterProgress(a: seq<Event>, t: seq<Event>, open: bool)
    requires FinishedCount(a) == 0
    requires open ==> FinishedCount(t) == 0
    requires !open ==> EndsWithOneFinished(t)
    ensures open ==> FinishedCount(a + t) == 0
    ensures !open ==> EndsWithOneFinished(a + t)
  {
    FinishedCountAppend(a, t);
  }

  /** The flag-check `if not self._is_running` fires before line `k` of a
      process that prints `n` lines. */
  predicate CutAt(cancelAt: Option<nat>, n: nat) {
    cancelAt.Some? && cancelAt.value < n
  }

  /** The cancellation point counted from the start of the next process,
      after `n` lines of the previous one were read without it firing. */
  function After(cancelAt: Option<nat>, n: nat): (r: Option<nat>)
    requires !CutAt(cancelAt, n)
    ensures r.Some? <==> cancelAt.Some?
    ensures r.Some? ==> r.value + n == cancelAt.value
  {
    match cancelAt
    case None => None
    case Some(k) => Some(k - n)
  }

  /** The events for one line of write or read output: `progress(50, line.strip())`
      for every non-empty line, then `progress(n, line.strip())` when the line
      carries a `(n%)` marker, `n` unclamped. */
  function LineEvents(line: string): (r: seq<Event>)
    ensures |r| <= 2
    ensures r == [] <==> line == ""
    ensures line != "" ==> r[0] == Progress(50, Strip(line))
    ensures |r| == 2 <==> line != "" && HasMarker(line)
    ensures |r| == 2 ==> r[1] == Progress(ExtractPercent(line).value, Strip(line))
  {
    if line == "" then []
    else
      var status := Strip(line);
      match ExtractPercent(line)
      case None => [Progress(50, status)]
      case Some(n) => [Progress(50, status), Progress(n, status)]
  }

  /** The events for a stream of output lines, line by line. */
  function StreamEvents(lines: seq<string>): (r: seq<Event>)
    ensures FinishedCount(r) == 0
    ensures |r| <= 2 * |lines|
  {
    if lines == [] then []
    else
      FinishedCountAppend(LineEvents(lines[0]), StreamEvents(lines[1..]));
      LineEvents(lines[0]) + StreamEvents(lines[1..])
  }

  /** Streaming is line by line: the events of a longer transcript extend
      those of its prefix. */
  lemma {:induction false} StreamEventsAppend(a: seq<string>, b: seq<string>)
    ensures StreamEvents(a + b) == StreamEvents(a) + StreamEvents(b)
  {
    if a == [] {
      assert a + b == b;
    } else {
      var c := a + b;
      assert c[0] == a[0] && c[1..] == a[1..] + b;
      StreamEventsAppend(a[1..], b);
      assert StreamEvents(c) == LineEvents(a[0]) + (StreamEvents(a[1..]) + StreamEvents(b));
      AppendAssoc(LineEvents(a[0]), StreamEvents(a[1..]), StreamEvents(b));
    }
  }

  /** The last two elements of a concatenation come from its second part. */
  lemma TailOfAppend(p: seq<Event>, q: seq<Event>)
    requires |q| > 0
    ensures (p + q)[|p + q| - 1] == q[|q| - 1]
    ensures |q| > 1 ==> (p + q)[|p + q| - 2] == q[|q| - 2]
  {
  }

  /** A transcript of non-empty lines yields exactly one fixed-50 progress
      event per line, plus one per line that carries a marker. */
  lemma {:induction false} StreamEventsCount(lines: seq<string>)
    requires forall i :: 0 <= i < |lines| ==> lines[i] != ""
    ensures |lines| <= |StreamEvents(lines)|
  {
    if lines != [] {
      StreamEventsCount(lines[1..]);
    }
  }

  /** Line `i` is announced right where the events of the lines before it
      end: a non-empty line at the fixed 50% first, then, when it carries a
      marker, at the marker's value.  `StreamEventsSplit` places the events
      of the later lines after them. */
  lemma StreamEventsAt(lines: seq<string>, i: nat)
    requires i < |lines|
    ensures var es := StreamEvents(lines);
            var o := |StreamEvents(lines[..i])|;
            && o + |LineEvents(lines[i])| <= |es|
            && (lines[i] != "" ==> es[o] == Progress(50, Strip(lines[i])))
            && (lines[i] != "" && HasMarker(lines[i]) ==>
                  es[o + 1] == Progress(ExtractPercent(lines[i]).value, Strip(lines[i])))
  {
    var le := LineEvents(lines[i]);
    StreamEventsSplit(lines, i);
    if |le| > 0 {
      InMiddle(StreamEvents(lines[..i]), le, StreamEvents(lines[i + 1..]), 0);
    }
    if |le| > 1 {
      InMiddle(StreamEvents(lines[..i]), le, StreamEvents(lines[i + 1..]), 1);
    }
  }

  lemma InMiddle(a: seq<Event>, b: seq<Event>, c: seq<Event>, k: nat)
    requires k < |b|
    ensures (a + (b + c))[|a| + k] == b[k]
  {
  }

  /** The events of a transcript are those of the lines before line `i`,
      then those of line `i`, then those of the lines after it. */
  lemma StreamEventsSplit(lines: seq<string>, i: nat)
    requires i < |lines|
    ensures StreamEvents(lines) == StreamEvents(lines[..i]) + (LineEvents(lines[i]) + StreamEvents(lines[i + 1..]))
  {
    var pre, x, post := lines[..i], lines[i], lines[i + 1..];
    assert lines[i..] == [x] + post;
    assert lines == pre + lines[i..];
    StreamEventsAppend(pre, [x] + post);
    StreamEventsAppend([x], post);
    StreamEventsOne(x);
  }

  lemma StreamEventsOne(line: string)
    ensures StreamEvents([line]) == LineEvents(line)
  {
    assert [line][1..] == [];
  }

  /** Progress values are not monotonic: after a line whose marker reports
      `n`, a plain line is announced with the fixed value 50 again, below
      `n` whenever `n` exceeds 50. */
  lemma ProgressCanDecrease(pre: string, n: nat, blanks: string, post: string, plain: string)
    requires '(' !in pre
    requires forall k :: 0 <= k < |blanks| ==> IsSpace(blanks[k])
    requires plain != "" && '(' !in plain
    ensures var es := StreamEvents([pre + "(" + NatToDec(n) + blanks + "%)" + post, plain]);
            |es| == 3 && es[0].percent == 50 && es[1].percent == n && es[2].percent == 50
  {
    var marked := pre + "(" + NatToDec(n) + blanks + "%)" + post;
    MarkerReportsValue(pre, n, blanks, post);
    assert marked[|pre|] == '(';
    NoMarkerWithoutParen(plain);
    MarkedThenPlain(marked, plain);
  }

  /** A marked line followed by a plain one: 50, the marked value, 50. */
  lemma MarkedThenPlain(l1: string, l2: string)
    requires l1 != "" && ExtractPercent(l1).Some?
    requires l2 != "" && !HasMarker(l2)
    ensures var es := StreamEvents([l1, l2]);
            |es| == 3 && es[0].percent == 50 && es[1].percent == ExtractPercent(l1).value
            && es[2].percent == 50
  {
    assert [l1, l2][1..] == [l2];
    assert [l2][1..] == [];
    assert StreamEvents([l2]) == LineEvents(l2);
  }

  /** A line without '(' carries no marker. */
  lemma NoMarkerWithoutParen(line: string)
    requires '(' !in line
    ensures !HasMarker(line)
  {
  }
}
