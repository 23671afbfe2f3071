/**
 * The LRC timed-lyrics parser (`parseLRC`): split the document into lines, find the
 * `[mm:ss.ff]` / `[mm:ss.fff]` tags of each line, strip them, trim what is left, emit
 * one line per tag when that text is not empty, and stable-sort everything by time.
 */
module LrcParser {
  import opened Wrappers
  import opened Text
  import opened Lyrics

  /** The three captured groups of one tag match, as digit strings. */
  datatype Tag = Tag(minutes: string, seconds: string, fraction: string)

  /** Two-digit minutes and seconds, a two- or three-digit fraction. */
  predicate ValidTag(t: Tag) {
    && |t.minutes| == 2 && AllDigits(t.minutes)
    && |t.seconds| == 2 && AllDigits(t.seconds)
    && 2 <= |t.fraction| <= 3 && AllDigits(t.fraction)
  }

  /** The text a tag is written as. */
  function RenderTag(t: Tag): string {
    "[" + t.minutes + ":" + t.seconds + "." + t.fraction + "]"
  }

  function TagLength(t: Tag): nat {
    |t.fraction| + 8
  }

  /**
   * The time a tag denotes, in milliseconds: `minutes * 60 + seconds + ms / 1000`
   * seconds, where `ms` is the fraction right-padded with zeros to three digits.
   * The seconds are not range-checked.
   */
  function Millis(t: Tag): (ms: nat)
    requires ValidTag(t)
    ensures ms == DecimalValue(t.minutes) * 60000 + DecimalValue(t.seconds) * 1000
                  + (if |t.fraction| == 2 then 10 * DecimalValue(t.fraction) else DecimalValue(t.fraction))
  {
    var padded := PadEnd(t.fraction, 3, '0');
    assert AllDigits(padded);
    assert |t.fraction| == 2 ==> padded[..2] == t.fraction;
    DecimalValue(t.minutes) * 60000 + DecimalValue(t.seconds) * 1000 + DecimalValue(padded)
  }

  /** `s` opens with `[`, two digits, `:`, two digits, `.` and two digits, and has a tenth character. */
  predicate TagShape(s: string) {
    && |s| >= 10 && s[0] == '[' && IsDigit(s[1]) && IsDigit(s[2]) && s[3] == ':'
    && IsDigit(s[4]) && IsDigit(s[5]) && s[6] == '.' && IsDigit(s[7]) && IsDigit(s[8])
  }

  /**
   * The match of `/\[(\d{2}):(\d{2})\.(\d{2,3})\]/` at the start of `s`, if any.
   * The greedy `\d{2,3}` first tries three digits; the two forms are told apart
   * by the character at offset 9 (a digit, or `]`).
   */
  function TagAt(s: string): (r: Option<Tag>)
    ensures r.Some? ==> ValidTag(r.value) && TagLength(r.value) <= |s|
  {
    if !TagShape(s) then None
    else if |s| >= 11 && IsDigit(s[9]) && s[10] == ']' then Some(Tag(s[1..3], s[4..6], s[7..10]))
    else if s[9] == ']' then Some(Tag(s[1..3], s[4..6], s[7..9]))
    else None
  }

  /** What `TagAt` recognises is exactly the written form of the tag it returns. */
  lemma TagAtSpelling(s: string)
    requires TagAt(s).Some?
    ensures s[..TagLength(TagAt(s).value)] == RenderTag(TagAt(s).value)
  {
    var t := TagAt(s).value;
    assert s[..TagLength(t)] == [s[0]] + t.minutes + [s[3]] + t.seconds + [s[6]] + t.fraction + [s[TagLength(t) - 1]];
  }

  /** `[...line.matchAll(timeRegex)]`: the tags of `s`, scanning left to right without overlap. */
  function Tags(s: string): (tags: seq<Tag>)
    ensures forall i :: 0 <= i < |tags| ==> ValidTag(tags[i])
    decreases |s|
  {
    if s == [] then []
    else match TagAt(s)
      case Some(t) => [t] + Tags(s[TagLength(t)..])
      case None => Tags(s[1..])
  }

  /** `line.replace(timeRegex, '')`: `s` with every tag `Tags` finds removed. */
  function Strip(s: string): (r: string)
    ensures |r| <= |s|
    decreases |s|
  {
    if s == [] then []
    else match TagAt(s)
      case Some(t) => Strip(s[TagLength(t)..])
      case None => [s[0]] + Strip(s[1..])
  }

  /** One lyric line per tag, all carrying `text`; none when `text` is empty. */
  function EntriesFor(tags: seq<Tag>, text: string): (entries: seq<LyricLine>)
    requires forall i :: 0 <= i < |tags| ==> ValidTag(tags[i])
    ensures |entries| == if text == [] then 0 else |tags|
    ensures forall j :: 0 <= j < |entries| ==> entries[j] == LyricLine(Millis(tags[j]), text)
  {
    if tags == [] then []
    else (if text != [] then [LyricLine(Millis(tags[0]), text)] else []) + EntriesFor(tags[1..], text)
  }

  /**
   * The lyric lines one line of the document contributes: one per tag, in tag order,
   * all with the line's stripped and trimmed text; none when the line has no tag or
   * nothing but whitespace is left once the tags are gone.
   */
  function ParseLine(line: string): (r: seq<LyricLine>)
    ensures r == [] || |r| == |Tags(line)|
    ensures Tags(line) == [] ==> r == []
  {
    var tags := Tags(line);
    if |tags| > 0 then EntriesFor(tags, Trim(Strip(line))) else []
  }

  /** What one line contributes, in terms of its tags and its stripped, trimmed text. */
  lemma ParseLineShape(line: string)
    ensures ParseLine(line) == [] <==> Tags(line) == [] || Trim(Strip(line)) == []
    ensures ParseLine(line) != [] ==> |ParseLine(line)| == |Tags(line)|
    ensures forall j :: 0 <= j < |ParseLine(line)| ==>
              ParseLine(line)[j].text == Trim(Strip(line)) && ParseLine(line)[j].time == Millis(Tags(line)[j])
  {
    var tags, text, r := Tags(line), Trim(Strip(line)), ParseLine(line);
    if tags != [] {
      assert r == EntriesFor(tags, text);
      forall j | 0 <= j < |r| ensures r[j].text == text && r[j].time == Millis(tags[j]) {
        assert r[j] == LyricLine(Millis(tags[j]), text);
      }
    }
  }

  /** Each document line's lyric lines, in document order. */
  function LineGroups(lines: seq<string>): seq<seq<LyricLine>> {
    seq(|lines|, i requires 0 <= i < |lines| => ParseLine(lines[i]))
  }

  /** The lyric lines of all document lines, in document order (before sorting). */
  function Collect(lines: seq<string>): seq<LyricLine> {
    Concat(LineGroups(lines))
  }

  /** Every collected lyric line comes from some document line. */
  lemma CollectSource(lines: seq<string>, e: LyricLine) returns (k: nat)
    requires e in Collect(lines)
    ensures k < |lines| && e in ParseLine(lines[k])
  {
    k := ConcatSource(LineGroups(lines), e);
  }

  /** Every lyric line of every document line is collected. */
  lemma CollectIncludes(lines: seq<string>, k: nat, e: LyricLine)
    requires k < |lines| && e in ParseLine(lines[k])
    ensures e in Collect(lines)
  {
    ConcatIncludes(LineGroups(lines), k, e);
  }

  /** Every character the strip keeps is a character of the line. */
  lemma {:induction false} StripChars(s: string, c: char)
    requires c in Strip(s)
    ensures c in s
    decreases |s|
  {
    match TagAt(s)
    case Some(t) =>
      StripChars(s[TagLength(t)..], c);
    case None =>
      if c != s[0] {
        StripChars(s[1..], c);
      }
  }

  /** The document's lines: `lrcContent.split('\n')`. */
  function Lines(doc: string): (lines: seq<string>)
    ensures |lines| >= 1 && Join(lines, "\n") == doc
    ensures forall i :: 0 <= i < |lines| ==> '\n' !in lines[i]
  {
    JoinSplit(doc, "\n");
    SplitPartsAvoidSeparator(doc, "\n");
    Split(doc, "\n")
  }

  /**
   * The unsorted lyric lines of a document, in the order `parseLRC` pushes them. Each
   * has non-empty, trimmed, single-line text.
   */
  function Entries(doc: string): (r: seq<LyricLine>)
    ensures forall e :: e in r ==> e.text != [] && IsTrimmed(e.text) && '\n' !in e.text
  {
    EntriesText(doc);
    Collect(Lines(doc))
  }

  /**
   * `parseLRC`: every lyric line of the document, stable-sorted by time. Each has
   * non-empty, trimmed, single-line text.
   */
  function Parse(doc: string): (r: seq<LyricLine>)
    ensures Sorted(r)
    ensures multiset(r) == multiset(Entries(doc))
    ensures forall t :: AtTime(r, t) == AtTime(Entries(doc), t)
    ensures forall e :: e in r ==> e.text != [] && IsTrimmed(e.text) && '\n' !in e.text
  {
    var r := SortByTime(Entries(doc));
    assert forall e :: e in r ==> e in multiset(r);
    r
  }

  /** Every unsorted entry has non-empty, trimmed text without a line break. */
  lemma EntriesText(doc: string)
    ensures forall e :: e in Collect(Lines(doc)) ==> e.text != [] && IsTrimmed(e.text) && '\n' !in e.text
  {
    var lines := Lines(doc);
    forall e | e in Collect(lines) ensures e.text != [] && IsTrimmed(e.text) && '\n' !in e.text {
      var k := CollectSource(lines, e);
      ParseLineShape(lines[k]);
      var j :| 0 <= j < |ParseLine(lines[k])| && ParseLine(lines[k])[j] == e;
      if '\n' in e.text {
        TrimChars(Strip(lines[k]), '\n');
        StripChars(lines[k], '\n');
      }
    }
  }

  /** The empty document has no lyric lines. */
  lemma ParseEmpty()
    ensures Parse("") == []
  {
    SplitJoin([""], "\n");
    assert Lines("") == [""];
    assert LineGroups([""]) == [ParseLine("")];
    ConcatTwo(ParseLine(""), []);
  }

  // ------------------------------------------------------------ round trips

  /** A written tag is recognised as exactly that tag, whatever follows it. */
  lemma TagAtRendered(t: Tag, rest: string)
    requires ValidTag(t)
    ensures TagAt(RenderTag(t) + rest) == Some(t)
  {
    var s := RenderTag(t) + rest;
    assert s[1..3] == t.minutes && s[4..6] == t.seconds;
    if |t.fraction| == 3 {
      assert s[7..10] == t.fraction;
    } else {
      assert s[7..9] == t.fraction;
    }
  }

  /** The scan passes over a written tag, recording it and dropping its text. */
  lemma ScanPastTag(t: Tag, rest: string)
    requires ValidTag(t)
    ensures Tags(RenderTag(t) + rest) == [t] + Tags(rest)
    ensures Strip(RenderTag(t) + rest) == Strip(rest)
  {
    TagAtRendered(t, rest);
    assert (RenderTag(t) + rest)[TagLength(t)..] == rest;
  }

  /** A piece of a line as written: a tag, or one ordinary character. */
  datatype Piece = TagPiece(tag: Tag) | CharPiece(c: char)

  /** A tag is well formed and an ordinary character is not `[` (so it cannot open a tag). */
  predicate WellFormedPiece(p: Piece) {
    match p
    case TagPiece(t) => ValidTag(t)
    case CharPiece(c) => c != '['
  }

  function Assemble(ps: seq<Piece>): string {
    if ps == [] then []
    else
      (match ps[0] case TagPiece(t) => RenderTag(t) case CharPiece(c) => [c]) + Assemble(ps[1..])
  }

  function TagsOf(ps: seq<Piece>): seq<Tag> {
    if ps == [] then []
    else (match ps[0] case TagPiece(t) => [t] case CharPiece(_) => []) + TagsOf(ps[1..])
  }

  function TextOf(ps: seq<Piece>): string {
    if ps == [] then []
    else (match ps[0] case TagPiece(_) => [] case CharPiece(c) => [c]) + TextOf(ps[1..])
  }

  /**
   * A line written as tags interleaved with ordinary characters is scanned back into
   * exactly those tags, in order, and stripped down to exactly those characters.
   */
  lemma {:induction false} ScanAssembled(ps: seq<Piece>)
    requires forall i :: 0 <= i < |ps| ==> WellFormedPiece(ps[i])
    ensures Tags(Assemble(ps)) == TagsOf(ps)
    ensures Strip(Assemble(ps)) == TextOf(ps)
    decreases |ps|
  {
    if ps != [] {
      ScanAssembled(ps[1..]);
      ScanOnePiece(ps[0], ps[1..]);
      assert [ps[0]] + ps[1..] == ps;
    }
  }

  /** The inductive step: one more well-formed piece in front is scanned as that piece. */
  lemma ScanOnePiece(p: Piece, ps: seq<Piece>)
    requires WellFormedPiece(p)
    requires Tags(Assemble(ps)) == TagsOf(ps) && Strip(Assemble(ps)) == TextOf(ps)
    ensures Tags(Assemble([p] + ps)) == TagsOf([p] + ps)
    ensures Strip(Assemble([p] + ps)) == TextOf([p] + ps)
  {
    var rest := Assemble(ps);
    assert ([p] + ps)[1..] == ps;
    match p
    case TagPiece(t) =>
      assert Assemble([p] + ps) == RenderTag(t) + rest;
      ScanPastTag(t, rest);
    case CharPiece(c) =>
      assert Assemble([p] + ps) == [c] + rest;
      ScanPastChar(c, rest);
  }

  /** A character other than `[` cannot open a tag: the scan keeps it and moves on. */
  lemma ScanPastChar(c: char, rest: string)
    requires c != '['
    ensures Tags([c] + rest) == Tags(rest)
    ensures Strip([c] + rest) == [c] + Strip(rest)
  {
    var s := [c] + rest;
    assert s[0] == c && s[1..] == rest;
    assert TagAt(s) == None;
  }

  /** Characters other than `[` never start a tag: the scan passes over them unchanged. */
  lemma {:induction false} SkipPlainPrefix(prefix: string, rest: string)
    requires '[' !in prefix
    ensures Tags(prefix + rest) == Tags(rest)
    ensures Strip(prefix + rest) == prefix + Strip(rest)
    decreases |prefix|
  {
    if prefix == [] {
      assert prefix + rest == rest;
    } else {
      var c, tail := prefix[0], prefix[1..];
      UnconsAppend(prefix, rest);
      UnconsAppend(prefix, Strip(rest));
      SkipPlainPrefix(tail, rest);
      ScanPastChar(c, tail + rest);
    }
  }

  lemma UnconsAppend(prefix: string, rest: string)
    requires prefix != []
    ensures prefix == [prefix[0]] + prefix[1..]
    ensures prefix + rest == [prefix[0]] + (prefix[1..] + rest)
    ensures forall c :: c in prefix[1..] ==> c in prefix
  {
  }

  /** Without `[` there is no tag: the line keeps all its characters. */
  lemma NoBracketNoTags(s: string)
    requires '[' !in s
    ensures Tags(s) == [] && Strip(s) == s
  {
    SkipPlainPrefix(s, []);
    assert s + [] == s;
  }

  /** What the scan sees at the start of a piece: the piece's tag, or no tag at all. */
  function Expected(p: Piece): Option<Tag> {
    match p
    case TagPiece(t) => Some(t)
    case CharPiece(_) => None
  }

  /** At every piece the scan recognises exactly that piece: no tag is missed, and none is invented. */
  predicate ScannedAs(ps: seq<Piece>) {
    forall i :: 0 <= i < |ps| ==> TagAt(Assemble(ps[i..])) == Expected(ps[i])
  }

  /**
   * Every line is read by the scan as tags and ordinary characters: the pieces assemble
   * back to the line, each tag piece is a match where it stands, no character piece
   * starts a match, and the tags found and the text kept are exactly the pieces' tags
   * and characters, in order.
   */
  lemma {:induction false} ScanDecomposes(s: string) returns (ps: seq<Piece>)
    ensures Assemble(ps) == s && ScannedAs(ps)
    ensures TagsOf(ps) == Tags(s) && TextOf(ps) == Strip(s)
    decreases |s|
  {
    if s == [] {
      ps := [];
    } else if TagAt(s).Some? {
      var t := TagAt(s).value;
      var tail := ScanDecomposes(s[TagLength(t)..]);
      ps := DecomposeTag(s, t, tail);
    } else {
      var tail := ScanDecomposes(s[1..]);
      ps := DecomposeChar(s, tail);
    }
  }

  /** The step of `ScanDecomposes` for a line that opens with a tag. */
  lemma DecomposeTag(s: string, t: Tag, tail: seq<Piece>) returns (ps: seq<Piece>)
    requires TagAt(s) == Some(t)
    requires Assemble(tail) == s[TagLength(t)..] && ScannedAs(tail)
    requires TagsOf(tail) == Tags(s[TagLength(t)..]) && TextOf(tail) == Strip(s[TagLength(t)..])
    ensures ps == [TagPiece(t)] + tail
    ensures Assemble(ps) == s && ScannedAs(ps)
    ensures TagsOf(ps) == Tags(s) && TextOf(ps) == Strip(s)
  {
    ScanStepTag(s, t);
    ps := [TagPiece(t)] + tail;
    ConsPiece(TagPiece(t), tail);
  }

  /** A line that opens with a tag is that tag's spelling followed by the rest, which the scan carries on with. */
  lemma ScanStepTag(s: string, t: Tag)
    requires TagAt(s) == Some(t)
    ensures s == RenderTag(t) + s[TagLength(t)..]
    ensures Tags(s) == [t] + Tags(s[TagLength(t)..]) && Strip(s) == Strip(s[TagLength(t)..])
  {
    TagAtSpelling(s);
    assert s == s[..TagLength(t)] + s[TagLength(t)..];
  }

  /** The step of `ScanDecomposes` for a line that does not open with a tag. */
  lemma DecomposeChar(s: string, tail: seq<Piece>) returns (ps: seq<Piece>)
    requires s != [] && TagAt(s) == None
    requires Assemble(tail) == s[1..] && ScannedAs(tail)
    requires TagsOf(tail) == Tags(s[1..]) && TextOf(tail) == Strip(s[1..])
    ensures ps == [CharPiece(s[0])] + tail
    ensures Assemble(ps) == s && ScannedAs(ps)
    ensures TagsOf(ps) == Tags(s) && TextOf(ps) == Strip(s)
  {
    assert s == [s[0]] + s[1..];
    ps := [CharPiece(s[0])] + tail;
    ConsPiece(CharPiece(s[0]), tail);
  }

  /** One more piece in front: how the three readings of a piece list unfold. */
  lemma ConsPiece(p: Piece, ps: seq<Piece>)
    ensures Assemble([p] + ps) == (match p case TagPiece(t) => RenderTag(t) case CharPiece(c) => [c]) + Assemble(ps)
    ensures TagsOf([p] + ps) == (match p case TagPiece(t) => [t] case CharPiece(_) => []) + TagsOf(ps)
    ensures TextOf([p] + ps) == (match p case TagPiece(_) => [] case CharPiece(c) => [c]) + TextOf(ps)
    ensures ScannedAs(ps) && TagAt(Assemble([p] + ps)) == Expected(p) ==> ScannedAs([p] + ps)
  {
    var qs := [p] + ps;
    assert qs[1..] == ps && qs[0] == p;
    if ScannedAs(ps) && TagAt(Assemble(qs)) == Expected(p) {
      forall i | 0 <= i < |qs| ensures TagAt(Assemble(qs[i..])) == Expected(qs[i]) {
        if i == 0 {
          assert qs[0..] == qs;
        } else {
          assert qs[i..] == ps[i - 1..] && qs[i] == ps[i - 1];
        }
      }
    }
  }

  /** A line of one tag followed by trimmed plain text gives one lyric line at the tag's time. */
  lemma ParseLineOneTag(t: Tag, text: string)
    requires ValidTag(t)
    requires text != [] && IsTrimmed(text) && '[' !in text
    ensures ParseLine(RenderTag(t) + text) == [LyricLine(Millis(t), text)]
  {
    ScanPastTag(t, text);
    NoBracketNoTags(text);
    TrimOfTrimmed(text);
  }

  /** The lyric lines of a document of exactly one line. */
  lemma EntriesOfOneLine(line: string)
    requires '\n' !in line
    ensures Entries(line) == ParseLine(line)
  {
    SplitJoin([line], "\n");
    assert LineGroups([line]) == [ParseLine(line)];
    ConcatTwo(ParseLine(line), []);
  }

  /**
   * A document of one line, a single tag followed by plain text, parses to a single
   * lyric line at the tag's time.
   */
  lemma ParseSingleTagLine(t: Tag, text: string)
    requires ValidTag(t)
    requires text != [] && IsTrimmed(text) && '[' !in text && '\n' !in text
    ensures Parse(RenderTag(t) + text) == [LyricLine(Millis(t), text)]
  {
    var doc := RenderTag(t) + text;
    ParseLineOneTag(t, text);
    RenderTagSingleLine(t, text);
    EntriesOfOneLine(doc);
    assert Parse(doc) == SortByTime([LyricLine(Millis(t), text)]);
  }

  /** A written tag holds no line break. */
  lemma RenderTagSingleLine(t: Tag, rest: string)
    requires ValidTag(t) && '\n' !in rest
    ensures '\n' !in RenderTag(t) + rest
  {
    forall i | 0 <= i < |t.fraction| ensures t.fraction[i] != '\n' {
      assert IsDigit(t.fraction[i]);
    }
    assert '\n' !in t.minutes && '\n' !in t.seconds && '\n' !in t.fraction;
  }

  /** The lyric lines of a document of two lines: those of the first, then those of the second. */
  lemma EntriesOfTwoLines(la: string, lb: string)
    requires '\n' !in la && '\n' !in lb
    ensures Entries(la + "\n" + lb) == ParseLine(la) + ParseLine(lb)
  {
    assert Join([la, lb], "\n") == la + "\n" + lb;
    SplitJoin([la, lb], "\n");
    assert LineGroups([la, lb]) == [ParseLine(la), ParseLine(lb)];
    ConcatTwo(ParseLine(la), ParseLine(lb));
  }

  /** A character that can neither be part of a tag's digits nor close one. */
  predicate InertChar(c: char) {
    !IsDigit(c) && c != ']'
  }

  /** Appending an inert character does not change what tag, if any, the string opens with. */
  lemma TagAtExtend(s: string, c: char)
    requires InertChar(c)
    ensures TagAt(s + [c]) == TagAt(s)
  {
    var u := s + [c];
    assert forall i :: 0 <= i < |s| ==> u[i] == s[i];
    assert u[|s|] == c;
    if |s| >= 11 {
      assert u[1..3] == s[1..3] && u[4..6] == s[4..6] && u[7..10] == s[7..10] && u[7..9] == s[7..9];
    } else if |s| == 10 {
      assert u[1..3] == s[1..3] && u[4..6] == s[4..6] && u[7..9] == s[7..9];
    }
  }

  /** Appending an inert character adds no tag and is kept by the strip. */
  lemma {:induction false} ScanExtend(s: string, c: char)
    requires InertChar(c)
    ensures Tags(s + [c]) == Tags(s)
    ensures Strip(s + [c]) == Strip(s) + [c]
    decreases |s|
  {
    var u := s + [c];
    if s == [] {
      assert u == [c];
      assert TagAt(u) == None;
      assert u[1..] == [];
    } else {
      TagAtExtend(s, c);
      match TagAt(s)
      case Some(t) =>
        assert u[TagLength(t)..] == s[TagLength(t)..] + [c];
        ScanExtend(s[TagLength(t)..], c);
      case None =>
        assert u[1..] == s[1..] + [c];
        ScanExtend(s[1..], c);
    }
  }

  /**
   * A carriage return at the end of a line (what a CRLF line end leaves after the
   * split on `\n`) changes nothing: the line gives the same lyric lines without it.
   */
  lemma CarriageReturnIgnored(line: string)
    ensures ParseLine(line + "\r") == ParseLine(line)
  {
    assert line + "\r" == line + ['\r'];
    ScanExtend(line, '\r');
    TrimTrailingWhitespace(Strip(line), '\r');
    assert Tags(line + "\r") == Tags(line);
    assert Trim(Strip(line + "\r")) == Trim(Strip(line));
  }

  /** A document assembled from lines (none holding a line break) is parsed line by line. */
  lemma EntriesOfLines(lines: seq<string>)
    requires |lines| >= 1
    requires forall i :: 0 <= i < |lines| ==> '\n' !in lines[i]
    ensures Entries(Join(lines, "\n")) == Collect(lines)
  {
    SplitJoin(lines, "\n");
  }

  /**
   * Whatever stable sort produced it, a sorted arrangement of a document's entries
   * that keeps equal-time entries in document order is `Parse`'s result.
   */
  lemma ParseIsAnyStableSort(doc: string, r: seq<LyricLine>)
    requires Sorted(r)
    requires forall t :: AtTime(r, t) == AtTime(Entries(doc), t)
    ensures r == Parse(doc)
  {
    StableSortUnique(r, Parse(doc));
  }

  /** The text of a run of tags written one after another. */
  function RenderTags(ts: seq<Tag>): string {
    if ts == [] then [] else RenderTag(ts[0]) + RenderTags(ts[1..])
  }

  /** A line of two tags followed by trimmed plain text gives one lyric line per tag, in tag order. */
  lemma ParseLineTwoTags(t1: Tag, t2: Tag, text: string)
    requires ValidTag(t1) && ValidTag(t2)
    requires text != [] && IsTrimmed(text) && '[' !in text
    ensures ParseLine(RenderTag(t1) + RenderTag(t2) + text) == [LyricLine(Millis(t1), text), LyricLine(Millis(t2), text)]
  {
    var line := RenderTag(t1) + RenderTag(t2) + text;
    ScanTwoTags(t1, t2, text);
    TrimOfTrimmed(text);
    assert ParseLine(line) == EntriesFor([t1, t2], text);
    assert [t1, t2][1..] == [t2];
  }

  lemma ScanTwoTags(t1: Tag, t2: Tag, text: string)
    requires ValidTag(t1) && ValidTag(t2) && '[' !in text
    ensures Tags(RenderTag(t1) + RenderTag(t2) + text) == [t1, t2]
    ensures Strip(RenderTag(t1) + RenderTag(t2) + text) == text
  {
    assert RenderTag(t1) + RenderTag(t2) + text == RenderTag(t1) + (RenderTag(t2) + text);
    ScanPastTag(t1, RenderTag(t2) + text);
    ScanPastTag(t2, text);
    NoBracketNoTags(text);
  }

  /** A run of tags followed by text free of `[` scans back into those tags and that text. */
  lemma {:induction false} ScanTagsThenText(ts: seq<Tag>, text: string)
    requires forall i :: 0 <= i < |ts| ==> ValidTag(ts[i])
    requires '[' !in text
    ensures Tags(RenderTags(ts) + text) == ts
    ensures Strip(RenderTags(ts) + text) == text
    decreases |ts|
  {
    if ts == [] {
      NoBracketNoTags(text);
      assert RenderTags(ts) + text == text;
    } else {
      ScanTagsThenText(ts[1..], text);
      ScanOneMoreTag(ts[0], ts[1..], text);
      assert [ts[0]] + ts[1..] == ts;
    }
  }

  /** The inductive step: one more valid tag in front is scanned as that tag. */
  lemma ScanOneMoreTag(t: Tag, ts: seq<Tag>, text: string)
    requires ValidTag(t)
    requires Tags(RenderTags(ts) + text) == ts && Strip(RenderTags(ts) + text) == text
    ensures Tags(RenderTags([t] + ts) + text) == [t] + ts
    ensures Strip(RenderTags([t] + ts) + text) == text
  {
    var rest := RenderTags(ts) + text;
    assert ([t] + ts)[1..] == ts;
    assert RenderTags([t] + ts) + text == RenderTag(t) + rest;
    ScanPastTag(t, rest);
  }

  /**
   * A line of k tags followed by text gives k lyric lines, one per tag in order,
   * each with the trimmed text, or none if the text is only whitespace.
   */
  lemma ParseTaggedLine(ts: seq<Tag>, text: string)
    requires forall i :: 0 <= i < |ts| ==> ValidTag(ts[i])
    requires '[' !in text
    ensures Trim(text) == [] ==> ParseLine(RenderTags(ts) + text) == []
    ensures Trim(text) != [] ==> |ParseLine(RenderTags(ts) + text)| == |ts|
    ensures Trim(text) != [] ==>
              forall j :: 0 <= j < |ts| ==> ParseLine(RenderTags(ts) + text)[j] == LyricLine(Millis(ts[j]), Trim(text))
  {
    ScanTagsThenText(ts, text);
    ParseLineShape(RenderTags(ts) + text);
  }

  /**
   * A document of two tagged lines comes out ordered by time; when both times are
   * equal the lines keep their document order.
   */
  lemma ParseTwoLines(t1: Tag, a: string, t2: Tag, b: string)
    requires ValidTag(t1) && ValidTag(t2)
    requires a != [] && IsTrimmed(a) && '[' !in a && '\n' !in a
    requires b != [] && IsTrimmed(b) && '[' !in b && '\n' !in b
    ensures Parse(RenderTag(t1) + a + "\n" + RenderTag(t2) + b)
         == if Millis(t2) < Millis(t1) then [LyricLine(Millis(t2), b), LyricLine(Millis(t1), a)]
            else [LyricLine(Millis(t1), a), LyricLine(Millis(t2), b)]
  {
    var la := RenderTag(t1) + a;
    var lb := RenderTag(t2) + b;
    var doc := RenderTag(t1) + a + "\n" + RenderTag(t2) + b;
    assert doc == la + "\n" + lb;
    RenderTagSingleLine(t1, a);
    RenderTagSingleLine(t2, b);
    ParseLineOneTag(t1, a);
    ParseLineOneTag(t2, b);
    EntriesOfTwoLines(la, lb);
    SortTwo(LyricLine(Millis(t1), a), LyricLine(Millis(t2), b));
    assert Parse(doc) == SortByTime([LyricLine(Millis(t1), a), LyricLine(Millis(t2), b)]);
  }
}
