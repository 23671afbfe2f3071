/**
 * The parser's output record and the stable sort by time that finishes a parse
 * (`lyrics.sort((a, b) => a.time - b.time)`, stable since ECMAScript 2019).
 */
module Lyrics {

  /** One timed lyric line. `time` is in whole milliseconds from the start of the track. */
  datatype LyricLine = LyricLine(time: nat, text: string)

  predicate Sorted(s: seq<LyricLine>) {
    forall i, j :: 0 <= i < j < |s| ==> s[i].time <= s[j].time
  }

  /** The lines of `s` whose time is `t`, in the order they occur in `s`. */
  function AtTime(s: seq<LyricLine>, t: int): seq<LyricLine>
  {
    if s == [] then [] else (if s[0].time == t then [s[0]] else []) + AtTime(s[1..], t)
  }

  /** Every line picked out for time `t` is a line of `s` with that time. */
  lemma {:induction false} AtTimeMember(s: seq<LyricLine>, t: int, e: LyricLine)
    requires e in AtTime(s, t)
    ensures e in s && e.time == t
    decreases |s|
  {
    if s[0] != e || s[0].time != t {
      AtTimeMember(s[1..], t, e);
    }
  }

  lemma {:induction false} AtTimeAppend(a: seq<LyricLine>, b: seq<LyricLine>, t: int)
    ensures AtTime(a + b, t) == AtTime(a, t) + AtTime(b, t)
    decreases |a|
  {
    if a == [] {
      assert a + b == b;
    } else {
      var h := if a[0].time == t then [a[0]] else [];
      assert (a + b)[0] == a[0] && (a + b)[1..] == a[1..] + b;
      assert AtTime(a + b, t) == h + AtTime(a[1..] + b, t);
      AtTimeAppend(a[1..], b, t);
      assert h + (AtTime(a[1..], t) + AtTime(b, t)) == (h + AtTime(a[1..], t)) + AtTime(b, t);
    }
  }

  /** Places `e` in front of the first line of the sorted `s` that is not earlier than it. */
  function Insert(e: LyricLine, s: seq<LyricLine>): (r: seq<LyricLine>)
    requires Sorted(s)
    ensures Sorted(r)
    ensures multiset(r) == multiset(s) + multiset{e}
    ensures forall t :: AtTime(r, t) == AtTime([e], t) + AtTime(s, t)
    decreases |s|
  {
    if s == [] || e.time <= s[0].time then
      AtTimeCons(e, s);
      [e] + s
    else
      var rest := Insert(e, s[1..]);
      InsertBehind(e, s, rest);
      [s[0]] + rest
  }

  /** The step of `Insert` that keeps the head of `s` in front of the inserted line. */
  lemma InsertBehind(e: LyricLine, s: seq<LyricLine>, rest: seq<LyricLine>)
    requires Sorted(s) && s != [] && s[0].time < e.time
    requires Sorted(rest)
    requires multiset(rest) == multiset(s[1..]) + multiset{e}
    requires forall t :: AtTime(rest, t) == AtTime([e], t) + AtTime(s[1..], t)
    ensures Sorted([s[0]] + rest)
    ensures multiset([s[0]] + rest) == multiset(s) + multiset{e}
    ensures forall t :: AtTime([s[0]] + rest, t) == AtTime([e], t) + AtTime(s, t)
  {
    assert [s[0]] + s[1..] == s;
    forall x | x in rest ensures s[0].time <= x.time {
      assert x in multiset(rest);
      if x != e {
        assert x in multiset(s[1..]);
        assert x in s[1..];
      }
    }
    PrependSorted(s[0], rest);
    AtTimeSwap(s[0], e, s[1..], rest);
  }

  lemma PrependSorted(x: LyricLine, s: seq<LyricLine>)
    requires Sorted(s)
    requires forall y :: y in s ==> x.time <= y.time
    ensures Sorted([x] + s)
  {
    forall i, j | 0 <= i < j < |[x] + s| ensures ([x] + s)[i].time <= ([x] + s)[j].time {
      if i > 0 {
        assert ([x] + s)[i] == s[i - 1];
      }
      assert ([x] + s)[j] == s[j - 1];
      assert s[j - 1] in s;
    }
  }

  lemma AtTimeCons(e: LyricLine, s: seq<LyricLine>)
    ensures forall t :: AtTime([e] + s, t) == AtTime([e], t) + AtTime(s, t)
  {
    forall t ensures AtTime([e] + s, t) == AtTime([e], t) + AtTime(s, t) {
      AtTimeAppend([e], s, t);
    }
  }

  /** Moving `e` past a line with a different time keeps every per-time order. */
  lemma AtTimeSwap(x: LyricLine, e: LyricLine, s: seq<LyricLine>, rest: seq<LyricLine>)
    requires x.time != e.time
    requires forall t :: AtTime(rest, t) == AtTime([e], t) + AtTime(s, t)
    ensures forall t :: AtTime([x] + rest, t) == AtTime([e], t) + AtTime([x] + s, t)
  {
    forall t ensures AtTime([x] + rest, t) == AtTime([e], t) + AtTime([x] + s, t) {
      AtTimeAppend([x], rest, t);
      AtTimeAppend([x], s, t);
    }
  }

  /**
   * Stable sort by time: the result is ordered, is a permutation of `s`, and lines
   * with equal times keep the order they had in `s`.
   */
  function SortByTime(s: seq<LyricLine>): (r: seq<LyricLine>)
    ensures Sorted(r)
    ensures multiset(r) == multiset(s)
    ensures forall t :: AtTime(r, t) == AtTime(s, t)
  {
    if s == [] then []
    else
      var r := Insert(s[0], SortByTime(s[1..]));
      AtTimeCons(s[0], s[1..]);
      assert [s[0]] + s[1..] == s;
      r
  }

  /** Sorting two lines swaps them exactly when the second is strictly earlier. */
  lemma SortTwo(x: LyricLine, y: LyricLine)
    ensures SortByTime([x, y]) == if y.time < x.time then [y, x] else [x, y]
  {
    assert [x, y][1..] == [y];
    assert SortByTime([y]) == [y];
  }

  /** In a sorted sequence no line is earlier than the first. */
  lemma FirstIsEarliest(s: seq<LyricLine>, x: LyricLine)
    requires Sorted(s) && x in s
    ensures s[0].time <= x.time
  {
    var k :| 0 <= k < |s| && s[k] == x;
  }

  /** A non-empty sequence has a line at the time of its first line, and that line comes first. */
  lemma AtTimeOfFirst(s: seq<LyricLine>)
    requires s != []
    ensures AtTime(s, s[0].time) != [] && AtTime(s, s[0].time)[0] == s[0]
  {
  }

  /** Two sorted sequences with the same lines at every time start at the same time. */
  lemma SameFirstTime(a: seq<LyricLine>, b: seq<LyricLine>)
    requires Sorted(a) && Sorted(b) && a != [] && b != []
    requires AtTime(a, a[0].time) == AtTime(b, a[0].time)
    requires AtTime(a, b[0].time) == AtTime(b, b[0].time)
    ensures a[0].time == b[0].time
  {
    AtTimeOfFirst(a);
    AtTimeOfFirst(b);
    var x := AtTime(b, a[0].time)[0];
    AtTimeMember(b, a[0].time, x);
    FirstIsEarliest(b, x);
    var y := AtTime(a, b[0].time)[0];
    AtTimeMember(a, b[0].time, y);
    FirstIsEarliest(a, y);
  }

  /**
   * The three properties of `SortByTime` determine its result: two sorted sequences
   * with the same lines at every time, in the same order, are equal. So any stable
   * sort yields exactly what `SortByTime` does.
   */
  lemma {:induction false} StableSortUnique(a: seq<LyricLine>, b: seq<LyricLine>)
    requires Sorted(a) && Sorted(b)
    requires forall t :: AtTime(a, t) == AtTime(b, t)
    ensures a == b
    decreases |a| + |b|
  {
    if a == [] && b != [] {
      AtTimeOfFirst(b);
    } else if a != [] && b == [] {
      AtTimeOfFirst(a);
    } else if a != [] {
      SameFirstTime(a, b);
      AtTimeOfFirst(a);
      AtTimeOfFirst(b);
      assert a[0] == b[0];
      forall t ensures AtTime(a[1..], t) == AtTime(b[1..], t) {
        var head := if a[0].time == t then [a[0]] else [];
        assert AtTime(a, t) == head + AtTime(a[1..], t);
        assert AtTime(b, t) == head + AtTime(b[1..], t);
        assert AtTime(a[1..], t) == AtTime(a, t)[|head|..];
      }
      StableSortUnique(a[1..], b[1..]);
      assert a == [a[0]] + a[1..];
      assert b == [b[0]] + b[1..];
    }
  }

  // ------------------------------------------------------------ concatenation

  /** The groups of lines one after another, in order. */
  function Concat(groups: seq<seq<LyricLine>>): seq<LyricLine> {
    if groups == [] then [] else groups[0] + Concat(groups[1..])
  }

  /** Every line of the concatenation comes from some group. */
  lemma {:induction false} ConcatSource(groups: seq<seq<LyricLine>>, e: LyricLine) returns (k: nat)
    requires e in Concat(groups)
    ensures k < |groups| && e in groups[k]
    decreases |groups|
  {
    if e in groups[0] {
      k := 0;
    } else {
      var k' := ConcatSource(groups[1..], e);
      k := k' + 1;
    }
  }

  /** Every line of every group is in the concatenation. */
  lemma {:induction false} ConcatIncludes(groups: seq<seq<LyricLine>>, k: nat, e: LyricLine)
    requires k < |groups| && e in groups[k]
    ensures e in Concat(groups)
    decreases k
  {
    if k > 0 {
      ConcatIncludes(groups[1..], k - 1, e);
    }
  }

  lemma ConcatTwo(a: seq<LyricLine>, b: seq<LyricLine>)
    ensures Concat([a]) == a
    ensures Concat([a, b]) == a + b
  {
    assert [a][1..] == [];
    assert [a, b][1..] == [b];
    assert [b][1..] == [];
  }
}
