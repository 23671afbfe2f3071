/**
 * The lyrics panel: which parsed line is active at the current playback time, how
 * far the column of lines is shifted to centre it, which line is highlighted, and
 * when the panel shows its "No lyrics available." fallback instead.
 *
 * Playback time is given in whole milliseconds (`now`); lyric times are whole
 * milliseconds too, so `time <= now` is the panel's `time <= currentTime`.
 */
module LyricsDisplay {
  import opened Lyrics
  import opened LrcParser

  /** Height of the visible panel and of one lyric line, in pixels. */
  const ContainerHeight: int := 256
  const LineHeight: int := 36

  /** How many lines at the front of `s` are due at `now`: the scan stops at the first later line. */
  function DueCount(s: seq<LyricLine>, now: int): (n: nat)
    ensures n <= |s|
    ensures forall k :: 0 <= k < n ==> s[k].time <= now
    ensures n < |s| ==> s[n].time > now
  {
    if s == [] || s[0].time > now then 0 else 1 + DueCount(s[1..], now)
  }

  /**
   * The active line: the index of the last line of the leading run whose times are
   * not after `now`, or -1 when the first line is still to come (or there is none).
   */
  function ActiveIndex(s: seq<LyricLine>, now: int): (i: int)
    ensures -1 <= i < |s|
    ensures forall k :: 0 <= k <= i ==> s[k].time <= now
    ensures i + 1 < |s| ==> s[i + 1].time > now
    ensures i == -1 <==> s == [] || s[0].time > now
  {
    DueCount(s, now) - 1
  }

  /** The panel's forward scan with its early exit, as a loop. */
  method ScanActiveIndex(s: seq<LyricLine>, now: int) returns (index: int)
    ensures index == ActiveIndex(s, now)
  {
    index := -1;
    var i := 0;
    while i < |s|
      invariant 0 <= i <= |s|
      invariant index == i - 1
      invariant forall k :: 0 <= k < i ==> s[k].time <= now
      decreases |s| - i
    {
      if s[i].time <= now {
        index := i;
      } else {
        break;
      }
      i := i + 1;
    }
    DueCountIsRun(s, now, index + 1);
  }

  /** The leading run of due lines is pinned down by where it stops. */
  lemma {:induction false} DueCountIsRun(s: seq<LyricLine>, now: int, n: nat)
    requires n <= |s|
    requires forall k :: 0 <= k < n ==> s[k].time <= now
    requires n < |s| ==> s[n].time > now
    ensures DueCount(s, now) == n
    decreases n
  {
    if n > 0 {
      DueCountIsRun(s[1..], now, n - 1);
    }
  }

  /** `i` is the last index of `s` whose time is not after `now` (-1 if there is none). */
  predicate IsLastDue(s: seq<LyricLine>, now: int, i: int) {
    && -1 <= i < |s|
    && (0 <= i ==> s[i].time <= now)
    && (forall k :: i < k < |s| ==> s[k].time > now)
  }

  /** On sorted lyrics (the parser's output) the active line is the last line due at `now`. */
  lemma ActiveIsLastDueWhenSorted(s: seq<LyricLine>, now: int)
    requires Sorted(s)
    ensures IsLastDue(s, now, ActiveIndex(s, now))
  {
    var i := ActiveIndex(s, now);
    forall k | i < k < |s| ensures s[k].time > now {
      assert s[i + 1].time <= s[k].time;
    }
  }

  /** At most one index is the last one due, so on sorted lyrics the active line is exactly it. */
  lemma LastDueUnique(s: seq<LyricLine>, now: int, i: int, j: int)
    requires IsLastDue(s, now, i) && IsLastDue(s, now, j)
    ensures i == j
  {
  }

  /** Without sorting the scan can stop early: a later line listed first hides an earlier one. */
  lemma ActiveIndexStopsAtFirstLaterLine()
    ensures ActiveIndex([LyricLine(5000, "b"), LyricLine(0, "a")], 1000) == -1
    ensures IsLastDue([LyricLine(5000, "b"), LyricLine(0, "a")], 1000, 1)
  {
  }

  /** As playback moves forward the active line never moves back. */
  lemma {:induction false} ActiveIndexMonotone(s: seq<LyricLine>, a: int, b: int)
    requires a <= b
    ensures ActiveIndex(s, a) <= ActiveIndex(s, b)
  {
    DueCountMonotone(s, a, b);
  }

  lemma {:induction false} DueCountMonotone(s: seq<LyricLine>, a: int, b: int)
    requires a <= b
    ensures DueCount(s, a) <= DueCount(s, b)
    decreases |s|
  {
    if s != [] && s[0].time <= a {
      DueCountMonotone(s[1..], a, b);
    }
  }

  /** Half the panel minus half a line: where the active line's top must sit to be centred. */
  function CenterOffset(): (c: int)
    ensures c + LineHeight / 2 == ContainerHeight / 2
    ensures c == 110
  {
    ContainerHeight / 2 - LineHeight / 2
  }

  /**
   * How far the column is shifted up. Line `k` starts `k * LineHeight` pixels down the
   * column, so after the shift the active line's middle is the panel's middle.
   */
  function TranslateY(active: int): (y: int)
    ensures active * LineHeight + LineHeight / 2 - y == ContainerHeight / 2
  {
    active * LineHeight - CenterOffset()
  }

  /** Moving to the next line scrolls by exactly one line height. */
  lemma TranslateStep(active: int)
    ensures TranslateY(active + 1) - TranslateY(active) == LineHeight
  {
  }

  /** Whether each of `n` lines is drawn highlighted: exactly the active one is. */
  function Highlights(n: nat, active: int): (h: seq<bool>)
    ensures |h| == n
    ensures forall k :: 0 <= k < n ==> (h[k] <==> k == active)
  {
    seq(n, k => k == active)
  }

  function CountTrue(h: seq<bool>): nat {
    if h == [] then 0 else CountTrue(h[..|h| - 1]) + (if h[|h| - 1] then 1 else 0)
  }

  /** One line is highlighted when the active index is a line, and none otherwise (before the first line). */
  lemma {:induction false} HighlightCount(n: nat, active: int)
    ensures CountTrue(Highlights(n, active)) == if 0 <= active < n then 1 else 0
  {
    if n > 0 {
      HighlightCount(n - 1, active);
      assert Highlights(n, active)[..n - 1] == Highlights(n - 1, active);
    }
  }

  /** What the panel shows. */
  datatype Panel =
    | NoLyrics
    | Scrolled(lines: seq<LyricLine>, active: int, translate: int, highlighted: seq<bool>)

  /** The panel for a lyrics document at playback time `now`. */
  function Render(content: string, now: int): (p: Panel)
    ensures p.NoLyrics? <==> content == [] || Parse(content) == []
    ensures p.Scrolled? ==> p.lines == Parse(content)
    ensures p.Scrolled? ==> forall k :: 0 <= k < |p.highlighted| ==> (p.highlighted[k] <==> k == p.active)
    ensures p.Scrolled? ==>
              && Sorted(p.lines) && p.lines != []
              && |p.highlighted| == |p.lines|
              && IsLastDue(p.lines, now, p.active)
              && p.active * LineHeight + LineHeight / 2 - p.translate == ContainerHeight / 2
              && CountTrue(p.highlighted) == (if p.active == -1 then 0 else 1)
  {
    var lines := Parse(content);
    if content == [] || lines == [] then NoLyrics
    else
      var active := ActiveIndex(lines, now);
      ActiveIsLastDueWhenSorted(lines, now);
      HighlightCount(|lines|, active);
      Scrolled(lines, active, TranslateY(active), Highlights(|lines|, active))
  }

  /** The empty-content test is subsumed: the panel falls back exactly when the parse is empty. */
  lemma FallbackIffNoLyrics(content: string, now: int)
    ensures Render(content, now).NoLyrics? <==> Parse(content) == []
  {
    if content == [] {
      ParseEmpty();
    }
  }

  /** Lines at 0 s, 2 s and 5 s: the active line before, at and between them. */
  lemma ActiveIndexExamples()
    ensures ActiveIndex([LyricLine(0, "a"), LyricLine(2000, "b"), LyricLine(5000, "c")], -1) == -1
    ensures ActiveIndex([LyricLine(0, "a"), LyricLine(2000, "b"), LyricLine(5000, "c")], 0) == 0
    ensures ActiveIndex([LyricLine(0, "a"), LyricLine(2000, "b"), LyricLine(5000, "c")], 1999) == 0
    ensures ActiveIndex([LyricLine(0, "a"), LyricLine(2000, "b"), LyricLine(5000, "c")], 2000) == 1
    ensures ActiveIndex([LyricLine(0, "a"), LyricLine(2000, "b"), LyricLine(5000, "c")], 100000) == 2
  {
  }
}
