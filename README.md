# Baby jukebox — a Dafny model

This project models the logic at the centre of the baby jukebox, a Raspberry Pi
music box with three parts:
- An RFID reader thread turns the tag lying on an MFRC522 into a decimal
  identifier and calls back when a tag is presented.
- A playback engine wraps a VLC media player and a VLC list player.
- A Flask application maps tags to an audio file or a playlist, stores
  uploads, and keeps the last unknown tag for the association page.

The model has one module per part, over two helper modules:

- `Text` (`text.dfy`) spells out the Python string operations the code relies
  on: `rfind`, `split(c)[-1]`, `replace`, `lower`, `strip`, `str(n)`, and
  `sep.join`/`split`.
- `PosixPath` (`posix_path.dfy`) models `pathlib.PurePosixPath`:
  - parsing into a root and parts;
  - `str()` and the `/` join;
  - `is_absolute`, `name`, `stem` and `suffix`.
- `RfidReader` (`rfid_reader.dfy`) covers `rfid_reader.py`. The hardware's
  answer in each poll cycle is an input (`Observation`). One cycle is the
  function `Cycle`. The reader object is the class `Reader`, whose `PollCycle`
  and `Poll` methods are proved against `Cycle` and `Run`. `Run` is given a
  second, independent description: the reader fires exactly on rising edges
  (`Edges`).
- `Playback` (`player.dfy`) covers `player.py`:
  - The class `Player` keeps the two VLC handles as flags, the session
    (`currentPlaylist`), and what VLC reports (`backend`).
  - `os.path.isfile` is membership in a set of paths.
- `Upload` (`upload.dfy`) covers the upload route of `app.py`:
  - `allowed_file`;
  - the loop that finds a free file name;
  - the display name;
  - the route's loop over the uploaded files.

  The disk and the database's stored file names are sets. The name
  `secure_filename` produces is an input.
- `Jukebox` (`app.dfy`) covers the rest of `app.py`:
  - `audio_abs_path`;
  - the tag dispatch of `on_tag_detected`, as the pure decision `Resolve`;
  - the class `Jukebox` holding the database, the last unassigned tag and
    the player. Its methods are the callback, `save_assignment`,
    `api_clear_last_tag` and the two play routes.

  The database is three maps keyed by primary key, and tags are keyed by
  their RFID identifier.

Trigger policy: the reader fires when no tag was present in the previous
cycle, or when the identifier differs from the last one fired. A tag that
is lifted and presented again therefore fires again. A policy that fired
only on a change of identifier would not fire again here; the code does,
and the model follows it: `FiringRule`, `RepresentFires`,
`RunFiresOnEdges`.

`save_assignment` also stores a tag whose target id cannot be read. That
tag has neither foreign key set and dispatches to nothing
(`AssignedWithoutId`).

## Model

| member | source | states |
|---|---|---|
| Text.RFindLast | app.py:106 | a character with none of its kind after it is where `rfind` lands |
| Text.RFind | app.py:106 | the index of the last occurrence of the character, or -1; the character is there and nowhere after it |
| Text.AfterLastSpec | player.py:121 | the text after the last separator holds no separator, is the whole text when there is none, and the text is the prefix, the separator and that tail |
| Text.AfterLastOfJoin | player.py:121 | splitting `x + c + y` at its last `c`, with `c` absent from `y`, gives back `y` |
| Text.ReplaceAll | player.py:131 | replacing a pattern by itself changes nothing, and a replacement no longer than the pattern never lengthens the text |
| Text.Strip | app.py:357 | `strip()` is the text at some offset with only white space before and after it, and no white space at either of its own ends |
| Text.Lower | app.py:106 | lower-casing keeps the length and lowers each ASCII capital in place |
| Text.StripEmpty | app.py:357-363 | `strip()` leaves nothing exactly when every character is white space |
| Text.Decimal | rfid_reader.py:96 | `str(n)` is a non-empty run of digits without a leading zero |
| Text.DecimalRoundTrip | rfid_reader.py:96 | reading the decimal spelling back gives the number |
| Text.DecimalInjective | rfid_reader.py:96 | different numbers get different identifiers |
| Text.DecimalLengthBound | app.py:237-239 | a number is below ten to the power of its digit count |
| PosixPath.Parse | app.py:119 | parsing gives a well-formed path, absolute iff the text starts with '/' |
| PosixPath.Str | app.py:121 | a well-formed path renders as non-empty text that starts with '/' iff the path is absolute |
| PosixPath.Join | app.py:122 | the join of well-formed paths is well formed and absolute iff either operand is; a relative right operand appends its parts |
| PosixPath.Stem | app.py:236 | the stem is a prefix of the name, non-empty when the name is |
| PosixPath.Suffix | app.py:238 | a name has a suffix iff some '.' that is neither its first nor its last character has no '.' after it; the suffix is the name's tail: a '.' and at least one dot-free character |
| PosixPath.SuffixDot | app.py:238 | a name has such a dot iff its last '.' is neither its first nor its last character |
| PosixPath.ParseStr | app.py:119-121 | rendering a parsed path and parsing it again gives the same path |
| PosixPath.ParsePlainName | app.py:122 | a bare file name parses as one relative part |
| PosixPath.JoinPlainName | app.py:122 | joining a folder with a bare file name renders as the folder, '/', and the name |
| PosixPath.StemSuffix | app.py:236-238 | stem followed by suffix is the name |
| RfidReader.UidToNumber | rfid_reader.py:93-95 | the accumulator loop computes the big-endian value of the first five UID bytes |
| RfidReader.TagId | rfid_reader.py:93-96 | the identifier is a non-empty run of digits denoting the big-endian value of the first five bytes |
| RfidReader.BigEndianBound | rfid_reader.py:93-95 | k bytes give a value below 256^k |
| RfidReader.BigEndianInjective | rfid_reader.py:93-95 | equally long byte strings with the same value are equal |
| RfidReader.TagIdValueBound | rfid_reader.py:93-96 | the identifier denotes a number below 256^min(length, 5) |
| RfidReader.TagIdIgnoresTail | rfid_reader.py:94 | bytes after the fifth never change the identifier |
| RfidReader.TagIdInjective | rfid_reader.py:93-96 | two UIDs of one length, at most five bytes, with one identifier are the same UID |
| RfidReader.LeadingZeroCollides | rfid_reader.py:93-96 | UIDs of different lengths can share an identifier: [0, 7] and [7] both give "7" |
| RfidReader.Cycle | rfid_reader.py:86-111 | a cycle fires only on a non-empty UID, fires that UID's identifier and records it as the last one; a quiet cycle keeps the last identifier; an empty field clears the presence flag |
| RfidReader.FiringRule | rfid_reader.py:101-106 | a non-empty read fires iff no tag was present or the identifier differs from the last one fired; what fires becomes the last identifier; a normal callback marks the tag present |
| RfidReader.NoTagRule | rfid_reader.py:107-111 | an empty field clears the presence flag, keeps the last identifier and fires nothing |
| RfidReader.QuietCycles | rfid_reader.py:86-90 | a failed anticollision, an empty UID or a read error changes nothing and fires nothing |
| RfidReader.RaisingCallbackRefires | rfid_reader.py:101-115 | when the callback raises on a newly placed tag, the presence flag stays false and the same tag fires again next cycle |
| RfidReader.Run | rfid_reader.py:81-117 | the loop fires at most once per cycle, and the last identifier is the last one fired, or the starting one if none fired |
| RfidReader.HeldTagFiresOnce | rfid_reader.py:101-106 | a tag held for any number of cycles fires at most once, on the first cycle |
| RfidReader.HeldTagFromStart | rfid_reader.py:38-40 | from the constructed state, a held tag fires exactly once |
| RfidReader.RepresentFires | rfid_reader.py:101-111 | removing a tag and presenting it again fires it again |
| RfidReader.TwoReads | rfid_reader.py:93-106 | "123" read twice fires once; "123" then "456" fires twice |
| RfidReader.RunFiresOnEdges | rfid_reader.py:81-111 | from the constructed state, the identifiers fired are exactly the rising edges; the flag says whether a tag is on the reader, and which |
| RfidReader.Reader.constructor | rfid_reader.py:38-40 | no last identifier, no tag present, not running |
| RfidReader.Reader.Start | rfid_reader.py:42-44 | sets running and keeps the trigger state |
| RfidReader.Reader.Stop | rfid_reader.py:47-48 | clears running and keeps the trigger state |
| RfidReader.Reader.PollCycle | rfid_reader.py:82-115 | one loop iteration moves the fields and fires exactly as `Cycle` says |
| RfidReader.Reader.Poll | rfid_reader.py:81-117 | while running, the loop's state and fired identifiers are those of `Run`; a stopped reader does nothing |
| Playback.StateName | player.py:119-121 | the member names of VLC's state hold no '.' |
| Playback.Existing | player.py:68 | keeps exactly the paths that are files, and is no longer than its input |
| Playback.ExistingAppend | player.py:68 | the filter works piecewise, so the files kept stay in their order |
| Playback.ExistingIdempotent | app.py:88-93 | filtering again what was already filtered changes nothing |
| Playback.Basename | player.py:131 | the base name holds no '/' |
| Playback.MediaName | player.py:131 | the media name holds no '/' |
| Playback.MediaNameOfLocalFile | player.py:129-131 | an MRL spelled `file://dir/name` shows `name` |
| Playback.Seconds | player.py:139-140 | `max(0, ms // 1000)` is the whole seconds in `ms`, and 0 for negative answers |
| Playback.Player.constructor | player.py:15-34 | which VLC handles exist after each way initialisation can end; the session is empty |
| Playback.Player.PlayFile | player.py:40-60 | refuses without a media player or file and leaves the session alone; raises without a list player; otherwise the session is the one file |
| Playback.Player.PlayPlaylist | player.py:62-79 | succeeds iff there is a list player and some path is a file; the session then is the existing paths in order; otherwise unchanged |
| Playback.Player.Pause | player.py:85-89 | never touches the session; without a media player nothing changes |
| Playback.Player.Stop | player.py:91-97 | with both players the session is emptied; without a media player nothing changes; with only a media player it raises and keeps the session |
| Playback.Player.NextTrack | player.py:99-103 | never touches the session; without a list player nothing changes |
| Playback.Player.PrevTrack | player.py:105-109 | never touches the session; without a list player nothing changes |
| Playback.Player.GetState | player.py:115-121 | "Unavailable" without a media player, otherwise the state's member name, which holds no '.' |
| Playback.Player.GetCurrentMediaName | player.py:123-132 | None without a media player or media, otherwise the media name of the MRL |
| Playback.Player.GetTimeInfo | player.py:134-142 | zeros without a media player, otherwise whole non-negative seconds of time and length |
| Upload.AllowedFile | app.py:105-106 | an accepted name holds a '.' and its extension after the last '.' has three or four characters |
| Upload.AllowedFileSpec | app.py:105-106 | a name is accepted iff it has a last '.' whose dot-free tail lower-cases to mp3, ogg, wav, flac or m4a |
| Upload.AcceptedExample | app.py:105-106 | "Berceuse.MP3" is accepted: the extension is compared lower-cased |
| Upload.RejectedExample | app.py:105-106 | "notes.txt" is refused |
| Upload.NoDotRejected | app.py:105-106 | "mp3" is refused: a name needs a dot |
| Upload.Candidate | app.py:238 | an alternative name is one '_' and the counter's digits longer than the name, so it never equals it |
| Upload.SuffixOfCandidate | app.py:238 | the alternative names keep the original suffix |
| Upload.NextCandidate | app.py:236-238 | each name the loop tries is `stem_k` plus the original suffix, k counting from 1 |
| Upload.CounterBound | app.py:237-239 | a taken name longer than the counter's spelling bounds the counter, so the loop ends |
| Upload.UniqueName | app.py:233-239 | the final name is free; a free name is kept; otherwise it is `stem_k.suffix` for the smallest free k |
| Upload.DisplayName | app.py:247 | the stem, with '_' and '-' turned into spaces and nothing else changed |
| Upload.AcceptedFiles | app.py:230-231 | the files the loop saves all have a non-empty allowed name, and there are no more of them than uploads |
| Upload.AcceptedFilesMembers | app.py:230-231 | every upload with a non-empty allowed name is saved, and only those |
| Upload.AcceptedFilesAppend | app.py:230-231 | the selection works piecewise, so the saved files keep the order they were sent in |
| Upload.PickedFromDisk | app.py:235-239 | what `UniqueName` promises against the disk as it grows is the pick against the original disk and the names written earlier |
| Upload.PickedAllDistinct | app.py:230-241 | names picked one after the other are off the disk and pairwise different |
| Upload.NoClashKeepsNames | app.py:230-239 | uploads whose secured names clash neither with the disk nor with each other are saved under those names |
| Upload.SaveAccepted | app.py:232-251 | one accepted file is written under the name picked against the disk and the earlier names, and gets a record iff the database lacks that name |
| Upload.SaveAll | app.py:230-251 | the i-th saved file is written under its secured name when that is free, otherwise under `stem_k.suffix` for the smallest free k, free meaning neither on disk nor written earlier in the request; records are added for the names the database lacks |
| Upload.UploadFiles | app.py:221-255 | nothing is selected iff every name is empty; otherwise one distinct name not on disk is written per accepted file, picked as `SaveAll` states, with records added for the names the database lacks |
| Jukebox.UploadFolder | app.py:36-37 | the upload folder ends in "uploads", is absolute iff the base directory is, and is well formed |
| Jukebox.AudioAbsPath | app.py:109-122 | with a well-formed upload folder the result is non-empty and absolute iff the folder is or the stored path starts with '/' |
| Jukebox.AbsPathKeepsAbsolute | app.py:119-121 | an absolute path in pathlib's spelling is returned unchanged |
| Jukebox.AbsPathOfFileName | app.py:122 | a bare file name resolves to the upload folder, '/', and the name |
| Jukebox.AbsPathIsAbsolute | app.py:109-122 | with an absolute upload folder, every result is absolute |
| Jukebox.AbsPathIdempotent | app.py:109-122 | with an absolute upload folder, resolving twice is resolving once |
| Jukebox.PlaylistPaths | app.py:86 | the absolute paths of the playlist's audios, one each, in playlist order |
| Jukebox.Resolve | app.py:65-98 | the tag is remembered iff it is unknown; one file is played, or reported missing, only for a usable audio, and the played file exists; a playlist is played, or reported empty, only without a usable audio, and plays a non-empty list of existing files |
| Jukebox.AudioBeforePlaylist | app.py:76-84 | with a usable audio, the tag's playlist has no effect on the dispatch |
| Jukebox.PlayOneSpec | app.py:76-83 | a single file is played only when it exists and is the tag's audio |
| Jukebox.PlayManySpec | app.py:84-93 | a playlist plays exactly its existing files, in order, only without a usable audio and only when some file exists |
| Jukebox.NoExistingFileSpec | app.py:88-92 | nothing is played when none of the playlist's files exists |
| Jukebox.AssignedTag | app.py:367-375 | an invalid target type gives no tag; a valid one never sets both keys |
| Jukebox.AssignedTagExactlyOne | app.py:367-372 | with an id, exactly one key is set: the one the target type names |
| Jukebox.AssignedWithoutId | app.py:359-372 | without a readable id the tag is saved with neither key and dispatches to nothing |
| Jukebox.AssignedAudioDispatches | app.py:367-369 | after an existing audio is assigned, scanning the tag plays that audio or reports its file missing |
| Jukebox.AssignedPlaylistDispatches | app.py:370-372 | after an existing playlist is assigned, scanning the tag plays its existing files, or nothing if none exist |
| Jukebox.Jukebox.constructor | app.py:36-62 | the upload folder under the base directory, the given database, no unassigned tag, a new player that has a media player iff VLC initialisation got that far |
| Jukebox.Jukebox.OnTagDetected | app.py:65-98 | an unknown tag fills the register and nothing plays; a known tag leaves the register alone and plays exactly what `Resolve` decides; the player raises only as `play_file` does; when a player refuses or lacks its VLC handle, the session and VLC state are unchanged |
| Jukebox.Jukebox.ClearLastTag | app.py:210-214 | the register is emptied and the database untouched |
| Jukebox.Jukebox.SaveAssignment | app.py:355-386 | an empty stripped id or an invalid type changes nothing; otherwise the tag is written and the register is cleared iff it held that id |
| Jukebox.Jukebox.PlayAudioRoute | app.py:166-175 | not found, no file, or the file is played through `play_file`, an exception there becoming a server error; on every outcome but a played file, and without a media player, the session and VLC state are unchanged |
| Jukebox.Jukebox.PlayPlaylistRoute | app.py:178-187 | not found, no file, or the playlist's existing files in order are handed to the player; when not found, without files or without a list player, the session and VLC state are unchanged |

## Left out

- Concurrency and timing. The reader's daemon thread and the player's
  lock (concurrency), and the poll interval and the one-second pause
  after an error (timing), are not modelled.
- Hardware setup in `rfid_reader.py:52-79`: the GPIO import, mock mode and
  the retry loop around the MFRC522 constructor are left out. The model
  starts at the polling loop.
- What VLC does. After `play`, `pause`, `stop`, `next` and `previous`, VLC
  may change what it reports (`backend`) in any way, so those effects are
  left unspecified. `media_new`, `set_media` and `set_media_list` are
  foreign calls.
- `get_time_info`'s `position`. It is a rounded float, and `GetTimeInfo`
  returns only `time` and `duration`.
- Logging, flash messages, redirects, templates and JSON responses.
- SQLAlchemy sessions and commits. The database is one value that each
  route reads and writes at once.
- `secure_filename` is foreign code. Its result is the `secured` field of
  each upload, which must be one path component.
- Saving and deleting files on disk. The disk is the set of names handed
  to the upload loop.
- Storing the new audio records. `UploadFiles` returns the records that
  would be inserted, but the model does not allocate their database ids.
- Routes that only read the database for a page (index, playlists, assign),
  creating, editing and deleting playlists, audio and tags, and the status
  endpoints. They are outside the modelled core.
- Upload.UniqueName: requires the secured name to be one path component
  (`PosixPath.ValidPart`), which `secure_filename` guarantees. The "smallest k"
  promise also needs the name not to end in '.'. A trailing dot makes the
  loop take the suffix from the alternative names, not the original.
- Upload.UploadFiles: the `file` truthiness test is modelled as a non-empty
  file name, which is what Werkzeug's `FileStorage` tests.
- Playback.MediaNameOfLocalFile: VLC's percent-encoding of local paths in
  MRLs is not modelled. The lemma is about an MRL spelled without escapes.
- Text.Lower: lower-cases ASCII only. No other character lower-cases to a
  letter of an allowed extension, so `allowed_file` is unaffected.
- RfidReader.Reader.Poll: every callback returns normally. `PollCycle`
  models a callback that raises.
- Jukebox.PlaylistPaths: the order of a playlist's audios is the order the
  relationship loads them, and the model takes that order as given.
- `str(path)` normalises an absolute stored path; for example,
  "/a//b.mp3" becomes "/a/b.mp3". `AbsPathKeepsAbsolute` is stated for
  paths already in that spelling.
