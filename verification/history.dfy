/** `HistoryManager.add_entry` of both front-ends: the newest entry goes to
    the front and the list is capped at 100 entries.  Entries are opaque to
    this logic, so the history is generic in the entry type. */
module History {
  import opened Wrappers

  const Cap := 100

  /** Python's `s[:k]` for `k >= 0`: the whole list when it is shorter. */
  function Take<T>(s: seq<T>, k: nat): (r: seq<T>)
    ensures |r| == Min(|s|, k)
    ensures r == s[..|r|]
  {
    if |s| <= k then s else s[..k]
  }

  /** The basic version: insert at 0, and slice only when the list grew past
      the cap. */
  function AddEntryBasic<T>(history: seq<T>, entry: T): (r: seq<T>)
    ensures |r| == Min(|history| + 1, Cap)
    ensures r[0] == entry
    ensures r[1..] == history[..|r| - 1]
  {
    var h := [entry] + history;
    if |h| > Cap then h[..Cap] else h
  }

  /** The Pro version: insert at 0, then always `[:100]`. */
  function AddEntryPro<T>(history: seq<T>, entry: T): (r: seq<T>)
    ensures |r| == Min(|history| + 1, Cap)
    ensures r[0] == entry
    ensures r[1..] == history[..|r| - 1]
  {
    Take([entry] + history, Cap)
  }

  /** Both versions keep the same list. */
  lemma AddEntriesAgree<T>(history: seq<T>, entry: T)
    ensures AddEntryBasic(history, entry) == AddEntryPro(history, entry)
  {
  }

  /** Adding entries one by one keeps them newest first: after `a` then
      `b`, the list starts with `b`, `a`, then the old list. */
  lemma NewestFirst<T>(history: seq<T>, a: T, b: T)
    ensures var r := AddEntryBasic(AddEntryBasic(history, a), b);
            r[..2] == [b, a]
            && r[2..] == history[..|r| - 2]
  {
    var h1 := AddEntryBasic(history, a);
    var r := AddEntryBasic(h1, b);
    assert r[1] == h1[0];
    assert |r| >= 2;
    assert r[2..] == h1[1..][..|r| - 2];
  }

  /** Once full, the list stays at the cap and the oldest entry drops out. */
  lemma FullStaysFull<T>(history: seq<T>, entry: T)
    requires |history| == Cap
    ensures var r := AddEntryBasic(history, entry);
            |r| == Cap && r[1..] == history[..Cap - 1]
  {
  }

  function Reverse<T>(s: seq<T>): (r: seq<T>)
    ensures |r| == |s|
    ensures forall k :: 0 <= k < |s| ==> r[k] == s[|s| - 1 - k]
  {
    if s == [] then [] else [s[|s| - 1]] + Reverse(s[..|s| - 1])
  }

  /** Adding entries one at a time is the same as putting all of them, newest
      first, in front of the old list and keeping the first 100. */
  function AddAll<T>(history: seq<T>, entries: seq<T>): (r: seq<T>)
    ensures entries == [] ==> r == history
    ensures entries != [] ==> r == Take(Reverse(entries) + history, Cap)
    decreases |entries|
  {
    if entries == [] then history
    else
      var n := |entries| - 1;
      var init := entries[..n];
      var r := AddEntryBasic(AddAll(history, init), entries[n]);
      if init == [] then
        AddEntriesAgree(history, entries[n]);
        r
      else
        TakeCons(entries[n], Reverse(init) + history);
        AppendAssoc([entries[n]], Reverse(init), history);
        r
  }

  /** Adding to a capped list is capping the longer list. */
  lemma TakeCons<T>(e: T, s: seq<T>)
    ensures AddEntryBasic(Take(s, Cap), e) == Take([e] + s, Cap)
  {
  }
}
