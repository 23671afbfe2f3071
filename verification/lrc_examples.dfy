/**
 * Worked inputs for the LRC parser: the documented tag forms, the rejected forms, and
 * the ordering of a small document. Documents are written with `RenderTag` for their
 * tags; `TagSpelling` shows the text each of those tags stands for.
 */
module LrcExamples {
  import opened Wrappers
  import opened Text
  import opened Lyrics
  import opened LrcParser

  const T0100 := Tag("00", "01", "00")
  const T0150 := Tag("00", "01", "50")
  const T01500 := Tag("00", "01", "500")
  const T0300 := Tag("00", "03", "00")
  const T0500 := Tag("00", "05", "00")
  const T7500 := Tag("00", "75", "00")
  const T1234 := Tag("12", "34", "567")

  /** The text of the tags used below. */
  lemma TagSpelling()
    ensures RenderTag(T0100) == "[00:01.00]"
    ensures RenderTag(T0150) == "[00:01.50]"
    ensures RenderTag(T01500) == "[00:01.500]"
    ensures RenderTag(T0300) == "[00:03.00]"
    ensures RenderTag(T0500) == "[00:05.00]"
    ensures RenderTag(T7500) == "[00:75.00]"
    ensures RenderTag(T1234) == "[12:34.567]"
  {
  }

  /** Spells out the digit values of a tag's three fields. */
  lemma TagDigits(t: Tag)
    requires ValidTag(t)
    ensures Millis(t) == (10 * DigitValue(t.minutes[0]) + DigitValue(t.minutes[1])) * 60000
                         + (10 * DigitValue(t.seconds[0]) + DigitValue(t.seconds[1])) * 1000
                         + (if |t.fraction| == 2
                            then 100 * DigitValue(t.fraction[0]) + 10 * DigitValue(t.fraction[1])
                            else 100 * DigitValue(t.fraction[0]) + 10 * DigitValue(t.fraction[1]) + DigitValue(t.fraction[2]))
  {
    DecimalValueShort(t.minutes);
    DecimalValueShort(t.seconds);
    DecimalValueShort(t.fraction);
  }

  /** The instants the tags below denote, in milliseconds. */
  lemma MillisValues()
    ensures Millis(T0100) == 1000 && Millis(T0300) == 3000 && Millis(T0500) == 5000
    ensures Millis(T0150) == 1500
  {
    TagDigits(T0100);
    TagDigits(T0300);
    TagDigits(T0500);
    TagDigits(T0150);
  }

  /**
   * `[00:01.500]` and `[00:01.50]` denote the same instant; seconds beyond 59 are
   * kept as written; minutes count 60 000 ms.
   */
  lemma FractionAndSecondsForms()
    ensures Millis(T01500) == Millis(T0150) == 1500
    ensures Millis(T7500) == 75000
    ensures Millis(T1234) == 754567
  {
    TagDigits(T01500);
    TagDigits(T0150);
    TagDigits(T7500);
    TagDigits(T1234);
  }

  /** `[00:01.50]Hello` is one line at 1500 ms. */
  lemma ParseHello()
    ensures Parse(RenderTag(T0150) + "Hello") == [LyricLine(1500, "Hello")]
  {
    ParseSingleTagLine(T0150, "Hello");
    MillisValues();
  }

  /** A one-digit fraction is not a tag, so such a line contributes nothing. */
  lemma OneDigitFractionRejected()
    ensures Tags("[00:01.5]Hi") == []
  {
    var s := "[00:01.5]Hi";
    assert TagAt(s) == None;
    NoBracketNoTags(s[1..]);
  }

  /** A four-digit fraction is not a tag either. */
  lemma FourDigitFractionRejected()
    ensures Tags("[00:01.5000]x") == []
  {
    var s := "[00:01.5000]x";
    assert TagAt(s) == None;
    NoBracketNoTags(s[1..]);
  }

  /** Metadata lines such as `[ti:Example Song]` carry no time tag. */
  lemma MetadataLineIgnored()
    ensures Tags("[ti:Example Song]") == []
  {
    var s := "[ti:Example Song]";
    assert TagAt(s) == None;
    NoBracketNoTags(s[1..]);
  }

  /** A tag followed by whitespace only yields nothing. */
  lemma WhitespaceOnlyTextDropped()
    ensures ParseLine(RenderTag(T0100) + "   ") == []
  {
    ParseTaggedLine([T0100], "   ");
    assert RenderTags([T0100]) == RenderTag(T0100);
    TrimEmptyIff("   ");
  }

  /** A line with two tags gives two lines sharing its text, even with a CRLF line end. */
  lemma TwoTagsOneText()
    ensures ParseLine(RenderTag(T0100) + RenderTag(T0500) + "x" + "\r") == [LyricLine(1000, "x"), LyricLine(5000, "x")]
  {
    ParseLineTwoTags(T0100, T0500, "x");
    CarriageReturnIgnored(RenderTag(T0100) + RenderTag(T0500) + "x");
    MillisValues();
  }

  /** Lines are reordered by time: `[00:03.00]b` then `[00:01.00]a` parse to `a` then `b`. */
  lemma ParseSortsLines()
    ensures Parse(RenderTag(T0300) + "b" + "\n" + RenderTag(T0100) + "a") == [LyricLine(1000, "a"), LyricLine(3000, "b")]
  {
    ParseTwoLines(T0300, "b", T0100, "a");
    MillisValues();
  }
}
