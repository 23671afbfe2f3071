/**
 * The track listing of the storage worker: which stored keys are tracks, the lyrics
 * key that goes with each, the title and artist read off the file name, the
 * placeholder lyrics for a track without any, and the track records built from a
 * listing. The bucket is a list of keys plus a map from the keys that hold an object
 * with a body to that body's text.
 */
module TrackApi {
  import opened Text
  import opened Lyrics
  import opened LrcParser

  // ------------------------------------------------------------- file names

  /** `/\.(flac|lrc)$/i`: the name ends in `.flac` or `.lrc`, in any letter case. */
  predicate HasTrackExtension(name: string) {
    EndsWith(Lower(name), ".flac") || EndsWith(Lower(name), ".lrc")
  }

  /**
   * `key.replace(/\.(flac|lrc)$/i, '')`: the key without a final `.flac` or `.lrc`
   * (any case). Nothing else is removed, not even such an extension earlier in the key.
   */
  function StripExtension(key: string): (r: string)
    ensures |r| <= |key| && r == key[..|r|]
    ensures |key| - |r| in {0, 4, 5}
    ensures |r| < |key| ==> Lower(key[|r|..]) == (if |key| - |r| == 5 then ".flac" else ".lrc")
    ensures |r| == |key| <==> !HasTrackExtension(key)
  {
    var lower := Lower(key);
    if EndsWith(lower, ".flac") then
      LowerSuffix(key, 5);
      key[..|key| - 5]
    else if EndsWith(lower, ".lrc") then
      LowerSuffix(key, 4);
      key[..|key| - 4]
    else key
  }

  /** Lower-casing commutes with taking a suffix. */
  lemma LowerSuffix(s: string, n: nat)
    requires n <= |s|
    ensures Lower(s)[|s| - n..] == Lower(s[|s| - n..])
  {
  }

  /** Lower-casing commutes with concatenation. */
  lemma LowerAppend(a: string, b: string)
    ensures Lower(a + b) == Lower(a) + Lower(b)
  {
  }

  /** A key made of a stem and a track extension, in any case, gives back the stem. */
  lemma StripExtensionOfStem(stem: string, ext: string)
    requires Lower(ext) == ".flac" || Lower(ext) == ".lrc"
    ensures StripExtension(stem + ext) == stem
  {
    var key := stem + ext;
    LowerAppend(stem, ext);
    assert Lower(key)[|key| - |ext|..] == Lower(ext);
    if Lower(ext) == ".lrc" && |key| >= 5 {
      assert Lower(key)[|key| - 4] == Lower(ext)[0] == '.';
      assert Lower(key)[|key| - 5..][1] == Lower(key)[|key| - 4];
    }
    assert key[..|key| - |ext|] == stem;
  }

  /** A name ending in `.lrc` is not an audio key. */
  lemma LyricsNameNotAudio(stem: string)
    ensures !IsAudioKey(stem + ".lrc")
  {
    var key := stem + ".lrc";
    LowerAppend(stem, ".lrc");
    assert Lower(".lrc") == ".lrc";
    if |key| >= 5 {
      assert Lower(key)[|key| - 4] == '.';
      assert Lower(key)[|key| - 5..][1] == Lower(key)[|key| - 4];
    }
  }

  /** Title and artist of a track. */
  datatype Meta = Meta(title: string, artist: string)

  const UnknownArtist: string := "Unknown Artist"
  const Separator: string := " - "

  /**
   * `parseFilename`: split the stripped name on `" - "`; exactly two pieces are the
   * artist and the title, each trimmed; anything else is all title, untrimmed, by an
   * unknown artist.
   */
  function ParseFilename(key: string): (m: Meta)
    ensures |Split(StripExtension(key), Separator)| == 2 ==>
              m == Meta(Trim(Split(StripExtension(key), Separator)[1]), Trim(Split(StripExtension(key), Separator)[0]))
    ensures |Split(StripExtension(key), Separator)| != 2 ==> m == Meta(StripExtension(key), UnknownArtist)
  {
    var filename := StripExtension(key);
    var parts := Split(filename, Separator);
    if |parts| == 2 then Meta(Trim(parts[1]), Trim(parts[0])) else Meta(filename, UnknownArtist)
  }

  /** `" - "` does not start anywhere inside `a` (it may still start right after it). */
  predicate SeparatorFree(a: string) {
    forall p :: 0 <= p < |a| ==> !OccursAt(a + Separator, Separator, p)
  }

  /** The separator occurs nowhere in `s`. */
  ghost predicate NoSeparator(s: string) {
    forall p :: !OccursAt(s, Separator, p)
  }

  /** `artist - title` splits into exactly the artist and the title. */
  lemma SplitArtistTitle(artist: string, title: string)
    requires SeparatorFree(artist) && NoSeparator(title)
    ensures Split(artist + Separator + title, Separator) == [artist, title]
  {
    SplitAtFirst(artist, title, Separator);
    SplitNoOccurrence(title, Separator);
  }

  /** `artist - title.flac` (or `.lrc`) reads back as that title and artist. */
  lemma ParseFilenameRoundTrip(artist: string, title: string, ext: string)
    requires Lower(ext) == ".flac" || Lower(ext) == ".lrc"
    requires SeparatorFree(artist) && NoSeparator(title)
    requires IsTrimmed(artist) && IsTrimmed(title)
    ensures ParseFilename(artist + Separator + title + ext) == Meta(title, artist)
  {
    var stem := artist + Separator + title;
    assert artist + Separator + title + ext == stem + ext;
    StripExtensionOfStem(stem, ext);
    SplitArtistTitle(artist, title);
    TrimOfTrimmed(artist);
    TrimOfTrimmed(title);
  }

  /** A name without the separator is all title, by an unknown artist. */
  lemma ParseFilenameWithoutSeparator(key: string)
    requires NoSeparator(StripExtension(key))
    ensures ParseFilename(key) == Meta(StripExtension(key), UnknownArtist)
  {
    SplitNoOccurrence(StripExtension(key), Separator);
  }

  /**
   * A key whose name holds the separator twice is not split at all: the whole name,
   * untrimmed, is the title, by an unknown artist.
   */
  lemma ParseFilenameThreePieces(a: string, b: string, c: string, ext: string)
    requires SeparatorFree(a) && SeparatorFree(b) && NoSeparator(c)
    requires Lower(ext) == ".flac" || Lower(ext) == ".lrc"
    ensures ParseFilename(a + Separator + b + Separator + c + ext) == Meta(a + Separator + b + Separator + c, UnknownArtist)
  {
    var name := a + Separator + b + Separator + c;
    assert a + Separator + b + Separator + c + ext == name + ext;
    StripExtensionOfStem(name, ext);
    assert name == a + Separator + (b + Separator + c);
    SplitAtFirst(a, b + Separator + c, Separator);
    SplitAtFirst(b, c, Separator);
    SplitNoOccurrence(c, Separator);
  }

  // ------------------------------------------------------------------ keys

  /** `key.toLowerCase().endsWith('.flac')`: the key names an audio file. */
  predicate IsAudioKey(key: string) {
    EndsWith(Lower(key), ".flac")
  }

  /** An audio key is a track file name, and exactly its five-character `.flac` comes off it. */
  lemma AudioKeyLosesExtension(key: string)
    requires IsAudioKey(key)
    ensures HasTrackExtension(key)
    ensures StripExtension(key) == key[..|key| - 5]
  {
  }

  /** `flacKey.replace(/\.flac$/i, '.lrc')`: the key of the lyrics stored beside a track. */
  function LyricsKey(key: string): (r: string)
    ensures IsAudioKey(key) ==> r == key[..|key| - 5] + ".lrc"
    ensures !IsAudioKey(key) ==> r == key
  {
    if IsAudioKey(key) then key[..|key| - 5] + ".lrc" else key
  }

  /**
   * The lyrics key of a track is not itself a track, and it has the same stem, so it
   * reads as the same title and artist.
   */
  lemma LyricsKeyPairsWithTrack(key: string)
    requires IsAudioKey(key)
    ensures !IsAudioKey(LyricsKey(key))
    ensures StripExtension(LyricsKey(key)) == StripExtension(key)
    ensures ParseFilename(LyricsKey(key)) == ParseFilename(key)
  {
    var stem := key[..|key| - 5];
    LowerSuffix(key, 5);
    assert key == stem + key[|key| - 5..];
    StripExtensionOfStem(stem, key[|key| - 5..]);
    assert Lower(".lrc") == ".lrc";
    StripExtensionOfStem(stem, ".lrc");
    LyricsNameNotAudio(stem);
  }

  // ---------------------------------------------------------------- lyrics

  const PlaceholderTag: Tag := Tag("00", "00", "00")
  const PlaceholderText: string := "No lyrics found for this track."

  /** The lyrics given to a track whose lyrics file is missing: `[00:00.00]No lyrics found for this track.` */
  function Placeholder(): string {
    "[00:00.00]" + PlaceholderText
  }

  /** The placeholder opens with a tag for the very start of the track. */
  lemma PlaceholderTagAtStart()
    ensures ValidTag(PlaceholderTag)
    ensures RenderTag(PlaceholderTag) == "[00:00.00]"
    ensures Millis(PlaceholderTag) == 0
  {
    DecimalValueShort(PlaceholderTag.minutes);
  }

  lemma PlaceholderTextShape()
    ensures PlaceholderText != [] && IsTrimmed(PlaceholderText)
    ensures '[' !in PlaceholderText && '\n' !in PlaceholderText
  {
  }

  /** The placeholder is one lyric line, at the very start. */
  lemma PlaceholderParses()
    ensures Parse(Placeholder()) == [LyricLine(0, PlaceholderText)]
  {
    PlaceholderTagAtStart();
    PlaceholderTextShape();
    ParseSingleTagLine(PlaceholderTag, PlaceholderText);
  }

  // ---------------------------------------------------------------- tracks

  datatype Track = Track(id: string, title: string, artist: string, audioUrl: string, lyrics: string)

  /** The audio keys of a listing, in listing order. */
  function AudioKeys(keys: seq<string>): (r: seq<string>)
    ensures |r| <= |keys|
  {
    if keys == [] then []
    else (if IsAudioKey(keys[0]) then [keys[0]] else []) + AudioKeys(keys[1..])
  }

  /** The filter keeps exactly the audio keys of the listing. */
  lemma {:induction false} AudioKeysMembers(keys: seq<string>)
    ensures forall k :: k in AudioKeys(keys) <==> k in keys && IsAudioKey(k)
    decreases |keys|
  {
    if keys != [] {
      AudioKeysMembers(keys[1..]);
      assert keys == [keys[0]] + keys[1..];
    }
  }

  /** Filtering a listing in two parts filters each part, keeping the order. */
  lemma {:induction false} AudioKeysAppend(a: seq<string>, b: seq<string>)
    ensures AudioKeys(a + b) == AudioKeys(a) + AudioKeys(b)
    decreases |a|
  {
    if a == [] {
      assert a + b == b;
    } else {
      var h := if IsAudioKey(a[0]) then [a[0]] else [];
      assert (a + b)[0] == a[0] && (a + b)[1..] == a[1..] + b;
      assert AudioKeys(a + b) == h + AudioKeys(a[1..] + b);
      AudioKeysAppend(a[1..], b);
      assert h + (AudioKeys(a[1..]) + AudioKeys(b)) == (h + AudioKeys(a[1..])) + AudioKeys(b);
    }
  }

  /** The lyrics a track gets: its lyrics file's text, or the placeholder when there is none. */
  function LyricsFor(key: string, store: map<string, string>): (lyrics: string)
    ensures LyricsKey(key) in store ==> lyrics == store[LyricsKey(key)]
    ensures LyricsKey(key) !in store ==> lyrics == Placeholder()
  {
    var lrcKey := LyricsKey(key);
    if lrcKey in store then store[lrcKey] else Placeholder()
  }

  /** The record of one track. */
  function TrackFor(key: string, store: map<string, string>, prefix: string): (t: Track)
    ensures t.id == key && t.audioUrl == prefix + "/" + key
    ensures Meta(t.title, t.artist) == ParseFilename(key)
    ensures t.lyrics == LyricsFor(key, store)
  {
    var meta := ParseFilename(key);
    Track(key, meta.title, meta.artist, prefix + "/" + key, LyricsFor(key, store))
  }

  /** One record per audio key, in listing order. */
  function BuildTracks(keys: seq<string>, store: map<string, string>, prefix: string): (tracks: seq<Track>)
    ensures |tracks| == |AudioKeys(keys)|
    ensures forall i :: 0 <= i < |tracks| ==>
              && tracks[i].id == AudioKeys(keys)[i]
              && tracks[i].audioUrl == prefix + "/" + tracks[i].id
              && Meta(tracks[i].title, tracks[i].artist) == ParseFilename(tracks[i].id)
              && tracks[i].lyrics == LyricsFor(tracks[i].id, store)
  {
    var audio := AudioKeys(keys);
    seq(|audio|, i requires 0 <= i < |audio| => TrackFor(audio[i], store, prefix))
  }

  /** Every track is an audio file, and a listing without duplicates gives tracks with distinct ids. */
  lemma TracksAreAudio(keys: seq<string>, store: map<string, string>, prefix: string)
    ensures forall t :: t in BuildTracks(keys, store, prefix) ==> IsAudioKey(t.id) && t.id in keys
  {
    var tracks := BuildTracks(keys, store, prefix);
    AudioKeysMembers(keys);
    forall t | t in tracks ensures IsAudioKey(t.id) && t.id in keys {
      var i :| 0 <= i < |tracks| && tracks[i] == t;
      assert t.id == AudioKeys(keys)[i];
      assert AudioKeys(keys)[i] in AudioKeys(keys);
    }
  }

  predicate Distinct(s: seq<string>) {
    forall i, j :: 0 <= i < j < |s| ==> s[i] != s[j]
  }

  /** Filtering keeps keys distinct. */
  lemma {:induction false} AudioKeysDistinct(keys: seq<string>)
    requires Distinct(keys)
    ensures Distinct(AudioKeys(keys))
    decreases |keys|
  {
    if keys != [] {
      AudioKeysDistinct(keys[1..]);
      AudioKeysMembers(keys[1..]);
      assert keys[0] !in keys[1..] by {
        forall j | 0 <= j < |keys[1..]| ensures keys[1..][j] != keys[0] {
          assert keys[1..][j] == keys[j + 1];
        }
      }
    }
  }

  /** A listing of distinct keys gives tracks with distinct ids. */
  lemma TrackIdsDistinct(keys: seq<string>, store: map<string, string>, prefix: string, i: int, j: int)
    requires Distinct(keys)
    requires 0 <= i < j < |BuildTracks(keys, store, prefix)|
    ensures BuildTracks(keys, store, prefix)[i].id != BuildTracks(keys, store, prefix)[j].id
  {
    AudioKeysDistinct(keys);
  }

  /** Every track's lyrics give at least one lyric line unless its lyrics file says otherwise. */
  lemma MissingLyricsStillDisplay(key: string, store: map<string, string>, prefix: string)
    requires LyricsKey(key) !in store
    ensures Parse(TrackFor(key, store, prefix).lyrics) == [LyricLine(0, PlaceholderText)]
  {
    PlaceholderParses();
  }
}
