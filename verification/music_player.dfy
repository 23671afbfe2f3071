/**
 * The player bar: the `m:ss` clock it shows for the position and the length, and
 * the bar's own mode button, which only switches between sequential and loop.
 */
module MusicPlayer {
  import opened Wrappers
  import opened Text
  import opened Playlist

  /** The clock's two fields: minutes, and seconds padded to two digits. */
  function MinutesField(n: nat): (m: string)
    ensures m != [] && AllDigits(m)
    ensures DecimalValue(m) == n / 60
    ensures |m| > 1 ==> m[0] != '0'
  {
    NatToString(n / 60)
  }

  /** The two fields together make up the time. */
  lemma FieldsMakeUpTime(n: nat)
    ensures DecimalValue(MinutesField(n)) * 60 + DecimalValue(SecondsField(n)) == n
  {
    var a, b := DecimalValue(MinutesField(n)), DecimalValue(SecondsField(n));
    assert a == n / 60 && b == n % 60;
  }

  function SecondsField(n: nat): (ss: string)
    ensures |ss| == 2 && AllDigits(ss)
    ensures DecimalValue(ss) == n % 60
  {
    var k := n % 60;
    var digits := NatToString(k);
    if k < 10 then
      var ss := PadStart(digits, 2, '0');
      assert ss == ['0'] + digits;
      DecimalValueShort(ss);
      ss
    else
      assert digits == NatToString(k / 10) + [DigitChar(k % 10)];
      DecimalValueShort(digits);
      PadStart(digits, 2, '0')
  }

  /**
   * `formatTime` over whole seconds: `"0:00"` for a negative time, otherwise the
   * minutes, a colon, and the remaining seconds as two digits below 60, which
   * together make up the time.
   */
  function FormatTime(seconds: int): (r: string)
    ensures seconds < 0 ==> r == "0:00"
    ensures seconds >= 0 ==>
              && |r| >= 4 && r[|r| - 3] == ':'
              && AllDigits(r[..|r| - 3]) && AllDigits(r[|r| - 2..])
              && DecimalValue(r[|r| - 2..]) < 60
              && DecimalValue(r[..|r| - 3]) * 60 + DecimalValue(r[|r| - 2..]) == seconds
    ensures seconds >= 0 && |r| > 4 ==> r[0] != '0'
  {
    if seconds < 0 then "0:00"
    else
      var m, ss := MinutesField(seconds), SecondsField(seconds);
      ClockFields(m, ss);
      FieldsMakeUpTime(seconds);
      m + ":" + ss
  }

  /** Where the two fields sit in an `m:ss` clock. */
  lemma ClockFields(m: string, ss: string)
    requires m != [] && |ss| == 2
    ensures |m + ":" + ss| >= 4 && (m + ":" + ss)[|m + ":" + ss| - 3] == ':'
    ensures (m + ":" + ss)[..|m + ":" + ss| - 3] == m && (m + ":" + ss)[|m + ":" + ss| - 2..] == ss
    ensures (m + ":" + ss)[0] == m[0]
  {
    var r := m + ":" + ss;
    assert r[..|r| - 3] == m && r[|r| - 2..] == ss;
  }

  /** Digits are never a colon. */
  lemma DigitsHaveNoColon(s: string)
    requires AllDigits(s)
    ensures ':' !in s && Count(s, ':') == 0
  {
    forall i | 0 <= i < |s| ensures s[i] != ':' {
      assert IsDigit(s[i]);
    }
    CountAbsent(s, ':');
  }

  /** The clock holds exactly one colon. */
  lemma FormatTimeOneColon(seconds: int)
    ensures Count(FormatTime(seconds), ':') == 1
  {
    if seconds < 0 {
      assert Count("0:00", ':') == 1;
    } else {
      var m, ss := MinutesField(seconds), SecondsField(seconds);
      assert FormatTime(seconds) == m + ":" + ss;
      DigitsHaveNoColon(m);
      DigitsHaveNoColon(ss);
      CountAroundColon(m, ss);
    }
  }

  lemma CountAroundColon(a: string, b: string)
    ensures Count(a + ":" + b, ':') == Count(a, ':') + 1 + Count(b, ':')
  {
    assert a + ":" + b == a + ([':'] + b);
    CountAppend(a, [':'] + b, ':');
    CountAppend([':'], b, ':');
    assert [':'][1..] == [];
  }

  /** Reads an `m:ss` clock back into whole seconds. */
  function ReadClock(s: string): (r: Option<nat>)
    ensures r.Some? ==> Count(s, ':') >= 1
  {
    var parts := Split(s, ":");
    if |parts| == 2 && parts[0] != [] && AllDigits(parts[0]) && |parts[1]| == 2 && AllDigits(parts[1])
       && DecimalValue(parts[1]) < 60
    then
      ClockHasColon(s, parts);
      Some(DecimalValue(parts[0]) * 60 + DecimalValue(parts[1]))
    else None
  }

  lemma ClockHasColon(s: string, parts: seq<string>)
    requires parts == Split(s, ":") && |parts| == 2
    ensures Count(s, ':') >= 1
  {
    JoinSplit(s, ":");
    assert parts[1..] == [parts[1]];
    assert s == parts[0] + ":" + parts[1];
    CountAroundColon(parts[0], parts[1]);
  }

  /** A clock written from a minutes field and a two-digit seconds field reads back as its value. */
  lemma ReadClockOfFields(m: string, ss: string)
    requires m != [] && AllDigits(m) && |ss| == 2 && AllDigits(ss) && DecimalValue(ss) < 60
    ensures ReadClock(m + ":" + ss) == Some(DecimalValue(m) * 60 + DecimalValue(ss))
  {
    DigitsHaveNoColon(m);
    DigitsHaveNoColon(ss);
    assert Join([m, ss], ":") == m + ":" + ss;
    SplitJoin([m, ss], ":");
  }

  /** The clock written from the fields of `n` reads back as `n`. */
  lemma ReadClockOfTime(n: nat)
    ensures ReadClock(MinutesField(n) + ":" + SecondsField(n)) == Some(n)
  {
    FieldsMakeUpTime(n);
    ReadClockOfFields(MinutesField(n), SecondsField(n));
  }

  /** Reading the clock gives back the time it shows. */
  lemma FormatTimeReadsBack(n: nat)
    ensures ReadClock(FormatTime(n)) == Some(n)
  {
    assert FormatTime(n) == MinutesField(n) + ":" + SecondsField(n);
    ReadClockOfTime(n);
  }

  /** Different non-negative times show different clocks. */
  lemma FormatTimeInjective(a: nat, b: nat)
    requires FormatTime(a) == FormatTime(b)
    ensures a == b
  {
    FormatTimeReadsBack(a);
    FormatTimeReadsBack(b);
  }

  // ------------------------------------------------------------ mode button

  /** The player bar's mode button: sequential becomes loop, anything else becomes sequential. */
  function ComponentToggle(m: Mode): (r: Mode)
    ensures r != RepeatOne
    ensures r != m || m == RepeatOne
    ensures r == Loop <==> m == Sequential
  {
    if m == Sequential then Loop else Sequential
  }

  /** The bar's button agrees with the hook's three-way toggle except from loop, where it skips repeat-one. */
  lemma ComponentToggleVersusHook(m: Mode)
    ensures ComponentToggle(m) == NextMode(m) <==> m != Loop
  {
  }

  /** From the bar alone repeat-one is never reached: two presses return to the start. */
  lemma ComponentToggleTwice(m: Mode)
    requires m != RepeatOne
    ensures ComponentToggle(ComponentToggle(m)) == m
  {
  }
}
