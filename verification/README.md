# Music player core in Dafny

A model of the logic inside a small React music player whose tracks come from an R2
storage bucket. The model covers eight parts:

- **`Text`** (`text.dfy`): the JavaScript string built-ins the player relies on.
  - `trim`, with the full ECMAScript whitespace set.
  - `split` with a string separator, and the `join` it undoes.
  - `toLowerCase` on ASCII letters, `endsWith`, `padStart`, `padEnd`.
  - Whole-number `toString` and the value of a digit string.
- **`Lyrics`** (`lyrics.dfy`): the lyric-line record (time in whole milliseconds,
  text), sortedness, and the stable sort by time used by the parser (insertion sort).
- **`LrcParser`** (`lrc_parser.dfy`): `parseLRC`.
  - The document is split on `\n`.
  - A left-to-right, non-overlapping scanner finds the `[mm:ss.ff]` / `[mm:ss.fff]` tags.
  - The tags are stripped and the rest is trimmed.
  - A line emits one lyric line per tag when its text is non-empty.
  - Everything is stable-sorted by time.
  - `LrcExamples` (`lrc_examples.dfy`) works through example inputs.
- **`LyricsDisplay`** (`lyrics_display.dfy`): the lyrics panel.
  - The active-line scan, with its early exit.
  - The centring offset and translation.
  - The highlighted line.
  - The "No lyrics available." fallback.
- **`Playlist`** (`playlist.dfy`): the `usePlaylist` hook.
  - State: index, playback mode (sequential, loop, repeat-one) and auto-play flag.
  - Transitions: mode cycling, next, previous, select, the `ended` decision and the
    auto-play effect.
  - What a transition asks of the audio element is returned as a `Command` value.
- **`PlayerState`** (`player_state.dfy`): the `useMusicPlayer` hook.
  - The record of playing, position, length, volume and mute.
  - The updates its controls make: track change, play/pause, seek, volume, mute.
  - The updates the element's events make.
  - The audio element is reduced to two flags (mounted, track present), plus the
    `AudioOp` a control returns.
- **`TrackApi`** (`track_api.dfy`): the storage worker's listing.
  - The `.flac` filter and the `.lrc` lyrics key.
  - `parseFilename`.
  - The placeholder lyrics.
  - The track records, built as a pure function of a key list, a map from lyrics
    keys to their text, and the public URL prefix.
- **`MusicPlayer`** (`music_player.dfy`): the player bar.
  - `formatTime` over whole seconds, with a reader `ReadClock` that inverts it.
  - The bar's own two-state mode button.

Times of lyric lines and the playback clock of the panel are whole milliseconds.
`Millis` computes `minutes * 60000 + seconds * 1000 + fraction`, where a two-digit
fraction counts ten times. For times of this form, the source's floating-point
`minutes * 60 + seconds + ms / 1000` orders values the same way.

Points where the program's own text could be read two ways:

- A one-digit fraction such as `[00:01.5]` is not a tag, because `\d{2,3}` in the
  regular expression at `src/lib/lrcParser.ts:16` needs at least two digits.
- The comment at `src/lib/lrcParser.ts:15` mentions `[mm:ss:xxx]`. The regular
  expression on the next line requires a `.` before the fraction, and the model
  follows the regular expression.
- `trim` removes every ECMAScript white-space and line-terminator character, which
  is what `String.prototype.trim` does.

## Model

| member | source | states |
|---|---|---|
| Text.NatToString | src/components/MusicPlayer.tsx:36-38 | `toString` of a whole number: non-empty decimal digits, no leading zero, whose value is the number |
| Text.Trim | src/lib/lrcParser.ts:21 | the trimmed text is a slice of the input with only whitespace before and after it, and has no whitespace at either end |
| Text.TrimEmptyIff | src/lib/lrcParser.ts:21-30 | the trimmed text is empty exactly when the line text is all whitespace (the `if (text)` test) |
| Text.TrimOfTrimmed | src/lib/lrcParser.ts:21 | text without whitespace at either end is its own trim |
| Text.TrimIdempotent | src/lib/lrcParser.ts:21 | trimming twice is trimming once |
| Text.TrimChars | src/lib/lrcParser.ts:21 | trimming adds no character: every character of the trim is in the input |
| Text.TrimTrailingWhitespace | src/lib/lrcParser.ts:13-21 | whitespace appended to a line (the `\r` of a CRLF line end) does not change its trim |
| Text.Split | src/lib/lrcParser.ts:13 | a split always gives at least one piece (the empty string gives one empty piece) |
| Text.SplitCount | src/lib/lrcParser.ts:13 | splitting on one character gives one piece more than the character occurs |
| Text.JoinSplit | src/lib/lrcParser.ts:13 | joining the pieces of a split with the separator gives back the string: nothing is lost |
| Text.SplitJoin | src/lib/lrcParser.ts:13 | splitting on a one-character separator undoes a join of pieces that do not contain it |
| Text.SplitAtFirst | src/workers/r2-track-api.js:14 | the split cuts at the first occurrence of the separator met from the left |
| Text.SplitPartsAvoidSeparator | src/lib/lrcParser.ts:13 | no piece of a split on `\n` contains `\n` |
| Text.DecimalValue | src/lib/lrcParser.ts:23-26 | `parseInt` of a string of k digits is below 10^k |
| Text.NatToStringOfDecimal | src/components/MusicPlayer.tsx:36-38 | `toString` gives back any digit string without a leading zero from its value: the two are inverse |
| Text.PadStart | src/components/MusicPlayer.tsx:38 | `padStart`: the width is reached, the original text ends the result, and only the fill comes before it |
| Text.PadEnd | src/lib/lrcParser.ts:26 | `padEnd`: the width is reached, the original text starts the result, and only the fill comes after it |
| Text.Lower | src/workers/r2-track-api.js:39 | lower-casing keeps the length and maps each character on its own |
| Lyrics.Insert | src/lib/lrcParser.ts:41 | inserting into sorted lines keeps them sorted, adds exactly the new line, and puts it in front of the lines of equal time it came before |
| Lyrics.SortByTime | src/lib/lrcParser.ts:41 | the output is sorted by time, is a permutation of the input, and lines of equal time keep their input order |
| Lyrics.SortTwo | src/lib/lrcParser.ts:41 | two lines are swapped only when the second is strictly earlier |
| Lyrics.StableSortUnique | src/lib/lrcParser.ts:41 | two sorted sequences with the same lines at every time, in the same order, are equal: a stable sort has one result |
| Lyrics.AtTimeAppend | src/lib/lrcParser.ts:41 | the lines at one time of two concatenated lists are those of the first list followed by those of the second |
| LrcParser.Millis | src/lib/lrcParser.ts:23-28 | a tag's time is minutes * 60000 + seconds * 1000 ms plus the fraction, which counts ten times when it has two digits |
| LrcParser.TagAt | src/lib/lrcParser.ts:16 | a recognised tag has two-digit minutes and seconds and a two- or three-digit fraction, and fits in the text |
| LrcParser.TagAtSpelling | src/lib/lrcParser.ts:16 | what the scanner recognises is exactly the written form of the tag it returns |
| LrcParser.TagAtRendered | src/lib/lrcParser.ts:16 | a well-formed tag written out is recognised as that same tag: recognition inverts writing |
| LrcParser.Tags | src/lib/lrcParser.ts:19 | every tag the scan finds is well formed |
| LrcParser.Strip | src/lib/lrcParser.ts:21 | removing the tags never lengthens the line |
| LrcParser.StripChars | src/lib/lrcParser.ts:21 | removing the tags adds no character |
| LrcParser.EntriesFor | src/lib/lrcParser.ts:22-35 | one lyric line per tag, in tag order, each at its tag's time with the line's text, and none for empty text |
| LrcParser.ParseLine | src/lib/lrcParser.ts:19-36 | a line contributes nothing or exactly one lyric line per tag, and nothing when it has no tag |
| LrcParser.ParseLineShape | src/lib/lrcParser.ts:19-36 | a line contributes nothing exactly when it has no tag or only whitespace is left, and otherwise one lyric line per tag, in tag order, all with the stripped and trimmed text |
| LrcParser.Lines | src/lib/lrcParser.ts:13 | the document's lines, joined again with `\n`, give back the document, and no line holds `\n` |
| LrcParser.Entries | src/lib/lrcParser.ts:18-38 | every lyric line pushed has non-empty, trimmed text without a line break |
| LrcParser.CollectSource | src/lib/lrcParser.ts:18-38 | every collected lyric line comes from some line of the document |
| LrcParser.CollectIncludes | src/lib/lrcParser.ts:18-38 | every lyric line of every document line is collected |
| LrcParser.Parse | src/lib/lrcParser.ts:12-44 | the result is sorted by time, is a permutation of the lines collected in document order, keeps the document order of equal times, and every text is non-empty, trimmed and a single line |
| LrcParser.EntriesText | src/lib/lrcParser.ts:21-30 | every lyric line collected from the document's lines has non-empty, trimmed text without a line break |
| LrcParser.ParseEmpty | src/lib/lrcParser.ts:12-44 | the empty document has no lyric lines |
| LrcParser.ParseIsAnyStableSort | src/lib/lrcParser.ts:41 | any sorted list with the same lines at every time, in the same order, as the collected lines is the parse |
| LrcParser.ScanDecomposes | src/lib/lrcParser.ts:16-21 | every line is tags and ordinary characters that assemble back to it; the scan matches each tag piece where it stands and no character piece (no tag is missed), and the tags found and the text kept are exactly those pieces' tags and characters, in order |
| LrcParser.ScanPastTag | src/lib/lrcParser.ts:19-21 | a written tag in front of a line is found first and stripped, and the scan carries on after it |
| LrcParser.ScanAssembled | src/lib/lrcParser.ts:19-21 | a line of tags interleaved with characters other than `[` scans back into exactly those tags, in order, and strips to exactly those characters |
| LrcParser.SkipPlainPrefix | src/lib/lrcParser.ts:19-21 | characters other than `[` are never part of a tag: the scan keeps them and finds the tags of the rest |
| LrcParser.NoBracketNoTags | src/lib/lrcParser.ts:16-21 | a line without `[` has no tag and keeps all its characters |
| LrcParser.ScanExtend | src/lib/lrcParser.ts:19-21 | a character that is neither a digit nor `]` at the end of a line creates no tag and is kept |
| LrcParser.CarriageReturnIgnored | src/lib/lrcParser.ts:13-36 | a line ending in `\r` (a CRLF document split on `\n`) gives the same lyric lines as without it |
| LrcParser.ParseLineOneTag | src/lib/lrcParser.ts:19-36 | a tag followed by trimmed plain text is one lyric line at the tag's time with that text |
| LrcParser.ParseLineTwoTags | src/lib/lrcParser.ts:19-36 | two tags followed by trimmed plain text give two lyric lines with that text, in tag order |
| LrcParser.ScanTagsThenText | src/lib/lrcParser.ts:19-21 | any run of written tags followed by text without `[` scans back into exactly those tags and strips to that text |
| LrcParser.ParseTaggedLine | src/lib/lrcParser.ts:19-36 | k tags followed by text give k lyric lines, one per tag in order, with the trimmed text, or none when the text is only whitespace |
| LrcParser.EntriesOfOneLine | src/lib/lrcParser.ts:13-38 | a document without a line break is parsed as its single line |
| LrcParser.EntriesOfTwoLines | src/lib/lrcParser.ts:13-38 | a document of two lines collects the first line's lyric lines, then the second's |
| LrcParser.EntriesOfLines | src/lib/lrcParser.ts:13-38 | a document made of lines joined with `\n` collects the lyric lines line by line, in document order |
| LrcParser.ParseSingleTagLine | src/lib/lrcParser.ts:12-44 | a one-line document of a tag and plain text parses to one lyric line |
| LrcParser.ParseTwoLines | src/lib/lrcParser.ts:12-44 | a two-line document comes out ordered by time, and equal times keep document order |
| LrcExamples.MillisValues | src/lib/lrcParser.ts:23-28 | `[00:01.00]`, `[00:03.00]`, `[00:05.00]` and `[00:01.50]` are 1000, 3000, 5000 and 1500 ms |
| LrcExamples.FractionAndSecondsForms | src/lib/lrcParser.ts:24-28 | `[00:01.500]` equals `[00:01.50]`; `[00:75.00]` is 75000 ms because seconds are not range-checked; `[12:34.567]` is 754567 ms |
| LrcExamples.ParseHello | src/lib/lrcParser.ts:12-44 | `[00:01.50]Hello` parses to one line at 1500 ms |
| LrcExamples.OneDigitFractionRejected | src/lib/lrcParser.ts:16 | `[00:01.5]` is not a tag |
| LrcExamples.FourDigitFractionRejected | src/lib/lrcParser.ts:16 | `[00:01.5000]` is not a tag |
| LrcExamples.MetadataLineIgnored | src/pages/Index.tsx:8-10 | a metadata line such as `[ti:Example Song]` has no time tag |
| LrcExamples.WhitespaceOnlyTextDropped | src/lib/lrcParser.ts:21-30 | a tag followed by spaces only contributes nothing |
| LrcExamples.TwoTagsOneText | src/lib/lrcParser.ts:19-36 | a line with two tags, even with a CRLF ending, gives two lines with the same text |
| LrcExamples.ParseSortsLines | src/lib/lrcParser.ts:41 | a later line written first is moved behind the earlier one |
| LyricsDisplay.DueCount | src/components/LyricsDisplay.tsx:21-29 | the length of the leading run of lines due at the current time; the line after the run is later |
| LyricsDisplay.ActiveIndex | src/components/LyricsDisplay.tsx:20-30 | the active index is in [-1, len-1], every line up to it is due, the next line is not, and it is -1 exactly when there are no lines or the first one is later |
| LyricsDisplay.ScanActiveIndex | src/components/LyricsDisplay.tsx:20-30 | the forward loop with its early `break` computes the active index |
| LyricsDisplay.ActiveIsLastDueWhenSorted | src/components/LyricsDisplay.tsx:17-30 | on the parser's sorted output the active index is the last line due at the current time |
| LyricsDisplay.LastDueUnique | src/components/LyricsDisplay.tsx:20-30 | at most one index is the last line due, so on sorted lyrics the active index is determined |
| LyricsDisplay.ActiveIndexStopsAtFirstLaterLine | src/components/LyricsDisplay.tsx:22-27 | on unsorted lyrics the scan stops at the first later line, even when a due line follows it |
| LyricsDisplay.ActiveIndexMonotone | src/components/LyricsDisplay.tsx:20-30 | as playback moves forward the active index never decreases |
| LyricsDisplay.CenterOffset | src/components/LyricsDisplay.tsx:39 | the offset puts the middle of a line at the middle of the panel, and it is 110 px |
| LyricsDisplay.TranslateY | src/components/LyricsDisplay.tsx:43 | after the shift, the middle of the active line is at the middle of the 256 px panel |
| LyricsDisplay.TranslateStep | src/components/LyricsDisplay.tsx:43 | moving to the next line scrolls by exactly 36 px |
| LyricsDisplay.Highlights | src/components/LyricsDisplay.tsx:64-66 | a line is highlighted exactly when its index is the active index |
| LyricsDisplay.HighlightCount | src/components/LyricsDisplay.tsx:64-66 | one line is highlighted when the active index is a line, and none before the first line |
| LyricsDisplay.Render | src/components/LyricsDisplay.tsx:17-66 | the fallback shows exactly when the content or its parse is empty; otherwise the lines shown are the parse, sorted, the active line is the last due and is centred, and a line is highlighted exactly when its index is the active index |
| LyricsDisplay.FallbackIffNoLyrics | src/components/LyricsDisplay.tsx:32-34 | the fallback shows exactly when the parse is empty, because the empty document parses to nothing |
| LyricsDisplay.ActiveIndexExamples | src/components/LyricsDisplay.tsx:20-30 | lines at 0, 2000 and 5000 ms are active before, at and between their times |
| Playlist.CurrentTrack | src/hooks/usePlaylist.ts:24-27 | there is a current track exactly when the index is in range, and it is the track at the index |
| Playlist.InitialState | src/hooks/usePlaylist.ts:20-27 | at the start the first track is current whenever there is one, the mode is sequential, and the auto-play effect does nothing |
| Playlist.CurrentTrackValid | src/hooks/usePlaylist.ts:24-27 | a track is current exactly when the index is valid, so the auto-play effect plays exactly when asked to, with a current track and a mounted element |
| Playlist.NextMode | src/hooks/usePlaylist.ts:35-41 | toggling always changes the mode |
| Playlist.ToggleMode | src/hooks/usePlaylist.ts:35-41 | toggling changes only the mode |
| Playlist.SetMode | src/hooks/usePlaylist.ts:21 | setting the mode changes only the mode |
| Playlist.SetModeLastWins | src/hooks/usePlaylist.ts:21-41 | setting the mode twice keeps the last, setting the current mode changes nothing, and a toggle sets the next mode of the cycle |
| Playlist.ToggleCycle | src/hooks/usePlaylist.ts:35-41 | three toggles are the identity, and one or two are not |
| Playlist.ToggleReachesEveryMode | src/hooks/usePlaylist.ts:35-41 | every mode is reached from sequential by toggling |
| Playlist.Next | src/hooks/usePlaylist.ts:44-66 | nothing without tracks; one forward before the last track; past it, back to the first track in loop mode, otherwise stay on the last track, pause and rewind, and drop auto-play |
| Playlist.Previous | src/hooks/usePlaylist.ts:69-79 | nothing without tracks; one back, and from the first track round to the last, in every mode |
| Playlist.Select | src/hooks/usePlaylist.ts:82-86 | an index in range is selected, and any other index changes nothing |
| Playlist.OnEnded | src/hooks/usePlaylist.ts:93-112 | repeat-one restarts the track; the last track in sequential mode does nothing; otherwise auto-play is set and the playlist moves on as next does |
| Playlist.AutoPlay | src/hooks/usePlaylist.ts:122-129 | play happens exactly when the flag is set, a track is current and the element is mounted, and then the flag is cleared |
| Playlist.TransitionsKeepValid | src/hooks/usePlaylist.ts:44-86 | with at least one track, next, previous, select, toggling or setting the mode, the `ended` decision and the auto-play effect all keep the index on a track |
| Playlist.NextInLoopIsSuccessor | src/hooks/usePlaylist.ts:47-51 | in loop mode next is the successor modulo the track count |
| Playlist.PreviousIsPredecessor | src/hooks/usePlaylist.ts:72-78 | previous is the predecessor modulo the track count |
| Playlist.NextPreviousInverse | src/hooks/usePlaylist.ts:44-79 | in loop mode next and previous undo each other |
| Playlist.AdvanceInLoop | src/hooks/usePlaylist.ts:44-66 | in loop mode k presses of next move k tracks on, wrapping round |
| Playlist.AdvanceStopsAtEnd | src/hooks/usePlaylist.ts:44-66 | in sequential and repeat-one modes presses of next run up to the last track and stay there |
| Playlist.EndedThenPlays | src/hooks/usePlaylist.ts:93-129 | when a track ends and the playlist moves on, the following track is played |
| Playlist.EndedAtLastStops | src/hooks/usePlaylist.ts:104-106 | the end of the last track in sequential mode ends playback |
| Playlist.RepeatOneNextVersusEnded | src/hooks/usePlaylist.ts:44-112 | on the last track in repeat-one mode the next button stops while the track's end restarts it |
| PlayerState.InitialState | src/hooks/useMusicPlayer.ts:19-23 | the starting record is audible at half volume, is already what loading a first track leaves, and the first toggle plays |
| PlayerState.ElementSoundFollowsControls | src/hooks/useMusicPlayer.ts:37-42 | the element's volume and mute follow the record: two records sound the same exactly when they agree on volume and mute, and play/pause, seek, track change and every event leave the sound alone |
| PlayerState.OnTrackChange | src/hooks/useMusicPlayer.ts:26-34 | a new track with the element mounted loads it and resets playing, position and length; volume and mute are kept; otherwise nothing changes |
| PlayerState.TogglePlayPause | src/hooks/useMusicPlayer.ts:45-56 | with a track, the flag flips and the element is paused or played; without one nothing changes |
| PlayerState.Seek | src/hooks/useMusicPlayer.ts:58-63 | seeking moves the element and the recorded position and changes nothing else |
| PlayerState.ChangeVolume | src/hooks/useMusicPlayer.ts:65-70 | the volume is stored; a positive volume unmutes; zero or less leaves the mute as it was |
| PlayerState.ToggleMute | src/hooks/useMusicPlayer.ts:72-74 | the mute flips and nothing else changes |
| PlayerState.Handle | src/hooks/useMusicPlayer.ts:81-85 | each event records one fact: time update the position, metadata the length, ended and pause stop, play starts; volume and mute are untouched |
| PlayerState.ToggleAgreesWithEvent | src/hooks/useMusicPlayer.ts:45-85 | once the element plays or pauses as asked, its event leaves the record as the toggle left it |
| PlayerState.ToggleTwice | src/hooks/useMusicPlayer.ts:45-56 | toggling twice restores the record |
| PlayerState.ToggleMuteInvolution | src/hooks/useMusicPlayer.ts:72-74 | muting twice restores the record |
| PlayerState.ChangeVolumeSettles | src/hooks/useMusicPlayer.ts:65-70 | setting the same volume again changes nothing, and the last volume set wins |
| PlayerState.VolumeAfterMute | src/hooks/useMusicPlayer.ts:37-74 | after muting, a positive volume makes the element audible again and a zero volume keeps it muted |
| PlayerState.SeekThenTimeUpdate | src/hooks/useMusicPlayer.ts:58-81 | the element's next time report at the sought position confirms the seek |
| PlayerState.TrackChangeThenMetadata | src/hooks/useMusicPlayer.ts:26-82 | after a track change only the element's metadata brings back a length |
| TrackApi.StripExtension | src/workers/r2-track-api.js:13 | only a final `.flac` or `.lrc`, in any case, is removed, and nothing is removed exactly when there is none |
| TrackApi.StripExtensionOfStem | src/workers/r2-track-api.js:13 | a stem followed by `.flac` or `.lrc`, in any case, gives back the stem |
| TrackApi.ParseFilename | src/workers/r2-track-api.js:11-19 | exactly two pieces around `" - "` give the trimmed artist and title; otherwise the whole stripped name is the title by "Unknown Artist" |
| TrackApi.SplitArtistTitle | src/workers/r2-track-api.js:14 | `artist - title` splits into exactly the artist and the title |
| TrackApi.ParseFilenameRoundTrip | src/workers/r2-track-api.js:11-19 | `artist - title.flac` reads back as that title and artist |
| TrackApi.ParseFilenameWithoutSeparator | src/workers/r2-track-api.js:14-18 | a name without `" - "` is all title, by an unknown artist |
| TrackApi.ParseFilenameThreePieces | src/workers/r2-track-api.js:13-18 | a key `a - b - c.flac` (or `.lrc`, any case) is not split: the whole name without its extension, untrimmed, is the title, by an unknown artist |
| TrackApi.AudioKeyLosesExtension | src/workers/r2-track-api.js:13-39 | a key the `.flac` filter keeps is a track file name, and exactly its five-character extension is removed from it |
| TrackApi.LyricsKey | src/workers/r2-track-api.js:46 | an audio key's lyrics key is its stem followed by lower-case `.lrc` |
| TrackApi.LyricsKeyPairsWithTrack | src/workers/r2-track-api.js:46 | the lyrics key is not an audio key, and it has the same stem and the same title and artist as its track |
| TrackApi.LyricsNameNotAudio | src/workers/r2-track-api.js:39 | a name ending in `.lrc` is never taken for a track |
| TrackApi.PlaceholderTagAtStart | src/workers/r2-track-api.js:56 | the placeholder's tag is well formed, written `[00:00.00]`, and at time 0 |
| TrackApi.PlaceholderParses | src/workers/r2-track-api.js:56 | the placeholder lyrics parse to exactly one line, at time 0, with the message text |
| TrackApi.AudioKeysMembers | src/workers/r2-track-api.js:39 | the filter keeps exactly the keys whose lower-cased form ends in `.flac` |
| TrackApi.AudioKeysAppend | src/workers/r2-track-api.js:39 | filtering two parts of a listing filters each, keeping the order |
| TrackApi.AudioKeysDistinct | src/workers/r2-track-api.js:39 | filtering keeps keys distinct |
| TrackApi.LyricsFor | src/workers/r2-track-api.js:49-57 | a track gets its lyrics file's text when there is one, and the placeholder otherwise |
| TrackApi.TrackFor | src/workers/r2-track-api.js:60-68 | a track record has the key as id, the public prefix and key as URL, the title and artist read off the key, and the key's lyrics |
| TrackApi.BuildTracks | src/workers/r2-track-api.js:44-69 | one record per audio key, in listing order, with the key as id, the prefix and key as URL, the title and artist read off the key, and its lyrics |
| TrackApi.TracksAreAudio | src/workers/r2-track-api.js:39-68 | every track is an audio key of the listing |
| TrackApi.TrackIdsDistinct | src/workers/r2-track-api.js:63 | a listing without duplicates gives tracks with distinct ids |
| TrackApi.MissingLyricsStillDisplay | src/workers/r2-track-api.js:51-57 | a track without a lyrics file still shows one lyric line, the placeholder message, from the start |
| MusicPlayer.MinutesField | src/components/MusicPlayer.tsx:36-38 | the minutes are non-empty digits without a leading zero, worth the whole minutes of the time |
| MusicPlayer.SecondsField | src/components/MusicPlayer.tsx:37-38 | the seconds are exactly two digits worth the seconds left over, below 60 |
| MusicPlayer.FieldsMakeUpTime | src/components/MusicPlayer.tsx:36-37 | minutes * 60 + seconds is the time |
| MusicPlayer.FormatTime | src/components/MusicPlayer.tsx:34-39 | a negative time shows `0:00`; otherwise minutes without a leading zero, a colon and two digits below 60 that make up the time |
| MusicPlayer.FormatTimeOneColon | src/components/MusicPlayer.tsx:38 | the clock holds exactly one colon |
| MusicPlayer.FormatTimeReadsBack | src/components/MusicPlayer.tsx:34-39 | reading the clock back gives the time it shows |
| MusicPlayer.FormatTimeInjective | src/components/MusicPlayer.tsx:34-39 | different times show different clocks |
| MusicPlayer.ComponentToggle | src/components/MusicPlayer.tsx:68-71 | the bar's button never selects repeat-one, always changes a mode other than repeat-one, and gives loop exactly from sequential |
| MusicPlayer.ComponentToggleVersusHook | src/components/MusicPlayer.tsx:68-71 | the bar's button agrees with the hook's three-way toggle except from loop, where the bar goes back to sequential |
| MusicPlayer.ComponentToggleTwice | src/components/MusicPlayer.tsx:68-71 | from sequential or loop, two presses of the bar's button return to the start |

## Left out

- The audio element. Loading, playing and pausing, and setting its position are
  returned as `AudioOp` / `Command` values. Whether it is mounted is a parameter.
  Subscribing to and unsubscribing from its events is not modelled.
- React rendering, `useMemo` / `useEffect` scheduling, and CSS classes and styles.
  - The volume/mute effect is `PlayerState.ElementSound`, a plain projection.
  - The auto-play effect is `Playlist.AutoPlay`, a transition.
  - Effects are applied when the model calls them, not when React would.
- Floating-point numbers.
  - Lyric times and the panel's clock are whole milliseconds.
  - `formatTime` takes whole seconds, so its `NaN` branch and the rounding of
    fractional seconds are not modelled.
  - The volume slider's ×100 / ÷100 is not modelled.
  - Position, length and volume in the player record are `real`, only stored and compared.
- The comparison `a.time - b.time` of the sort is exact on whole milliseconds. The
  float rounding of `minutes * 60 + seconds + ms / 1000` is not modelled.
- `toLowerCase` is modelled on ASCII letters only. No other character lower-cases to
  one of the characters of `.flac` or `.lrc`, so the extension checks are unaffected.
- The worker's bucket calls, environment check, JSON response, CORS header, logging
  and 500 responses.
  - The bucket is a key list plus a map from lyrics keys to the text of objects that
    have a body.
  - Duplicate keys in a listing are allowed, and `TrackIdsDistinct` assumes there are none.
- The upload form (`src/components/UploadForm.tsx`), the API client (`src/api/music.ts`),
  the static track data (`src/data/tracks.ts`) and the pages, which are network I/O,
  library wrappers or static data. The example document at `src/pages/Index.tsx:8-10`
  is used only for `LrcExamples.MetadataLineIgnored`.
- TrackApi.AudioKeys: its own contract states only that the filter does not lengthen
  the listing; its membership and order are stated by `TrackApi.AudioKeysMembers` and
  `TrackApi.AudioKeysAppend`, which keeps the quantifier out of every caller.
- Text.Split: its own contract states only that there is at least one piece; what the pieces are is stated by `Text.JoinSplit`, `Text.SplitJoin`, `Text.SplitAtFirst` and `Text.SplitCount`.
- LrcParser.Collect: has no contract of its own; where its lines come from and that
  all of them are kept are `LrcParser.CollectSource` and `LrcParser.CollectIncludes`.
