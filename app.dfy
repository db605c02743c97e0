/** The Flask application's own logic: where a stored audio file lives, what
    a scanned tag makes the player do, and how the association page updates a
    tag and the single "last unassigned tag" register. The database is a
    value of three maps keyed by primary key (tags by their RFID id), and
    `os.path.isfile` is membership in a set of paths. */
module Jukebox {
  import opened Wrappers
  import opened Text
  import opened PosixPath
  import opened Playback

  datatype Audio = Audio(name: string, filePath: string)

  /** A playlist and its audio rows, in the order the relationship loads them. */
  datatype Playlist = Playlist(name: string, audios: seq<Audio>)

  /** A tag's two nullable foreign keys. */
  datatype Tag = Tag(audioId: Option<int>, playlistId: Option<int>)

  datatype Db = Db(tags: map<string, Tag>, audios: map<int, Audio>, playlists: map<int, Playlist>)

  /** Python truthiness of a nullable integer column: None and 0 are false. */
  predicate Truthy(id: Option<int>)
  {
    id.Some? && id.value != 0
  }

  /** `BASE_DIR / "uploads"`. */
  function UploadFolder(baseDir: PurePath): (r: PurePath)
    ensures r.parts != [] && Name(r) == "uploads"
    ensures IsAbsolute(r) <==> IsAbsolute(baseDir)
    ensures Canonical(baseDir) ==> Canonical(r)
  {
    ParsePlainName("uploads");
    Join(baseDir, Parse("uploads"))
  }

  /** `audio_abs_path`: an absolute stored path is kept (as pathlib renders
      it), a relative one is resolved under the upload folder. */
  function AudioAbsPath(folder: PurePath, filePath: string): (r: string)
    ensures Canonical(folder) ==> r != []
    ensures Canonical(folder) ==>
      (r[0] == '/' <==> IsAbsolute(folder) || (|filePath| > 0 && filePath[0] == '/'))
  {
    var p := Parse(filePath);
    if IsAbsolute(p) then Str(p) else Str(Join(folder, p))
  }

  /** An absolute path in pathlib's own spelling comes back unchanged. */
  lemma AbsPathKeepsAbsolute(folder: PurePath, p: PurePath)
    requires Canonical(p) && IsAbsolute(p)
    ensures AudioAbsPath(folder, Str(p)) == Str(p)
  {
    ParseStr(p);
  }

  /** A bare file name, as new uploads store it, lands directly in the folder. */
  lemma AbsPathOfFileName(folder: PurePath, name: string)
    requires folder.parts != [] && ValidPart(name)
    ensures AudioAbsPath(folder, name) == Str(folder) + "/" + name
  {
    ParsePlainName(name);
    JoinPlainName(folder, name);
  }

  /** With an absolute, well-formed folder every result is absolute. */
  lemma AbsPathIsAbsolute(folder: PurePath, filePath: string)
    requires Canonical(folder) && IsAbsolute(folder)
    ensures IsAbsolute(Parse(AudioAbsPath(folder, filePath)))
  {
    var p := Parse(filePath);
    if IsAbsolute(p) {
      ParseStr(p);
    } else {
      ParseStr(Join(folder, p));
    }
  }

  /** With an absolute, well-formed folder, resolving twice is resolving once. */
  lemma AbsPathIdempotent(folder: PurePath, filePath: string)
    requires Canonical(folder) && IsAbsolute(folder)
    ensures AudioAbsPath(folder, AudioAbsPath(folder, filePath)) == AudioAbsPath(folder, filePath)
  {
    var p := Parse(filePath);
    var q := if IsAbsolute(p) then p else Join(folder, p);
    assert Canonical(q) && IsAbsolute(q);
    assert AudioAbsPath(folder, filePath) == Str(q);
    AbsPathKeepsAbsolute(folder, q);
  }

  /** The absolute paths of a playlist's audios, in playlist order. */
  function PlaylistPaths(folder: PurePath, audios: seq<Audio>): (r: seq<string>)
    ensures |r| == |audios|
    ensures forall i :: 0 <= i < |r| ==> r[i] == AudioAbsPath(folder, audios[i].filePath)
  {
    if audios == [] then [] else [AudioAbsPath(folder, audios[0].filePath)] + PlaylistPaths(folder, audios[1..])
  }

  /** The tag's audio takes part in dispatch: a truthy id whose row exists. */
  predicate AudioUsable(db: Db, tag: Tag)
  {
    Truthy(tag.audioId) && tag.audioId.value in db.audios
  }

  predicate PlaylistUsable(db: Db, tag: Tag)
  {
    Truthy(tag.playlistId) && tag.playlistId.value in db.playlists
  }

  /** What `on_tag_detected` decides for a scanned id. */
  datatype Dispatch =
    | Remember                    // unknown tag: keep it for the association page
    | PlayOne(path: string)       // play the tag's audio file
    | MissingFile(path: string)   // the tag's audio file is not on disk
    | PlayMany(paths: seq<string>)// play the playlist's files that exist
    | NoExistingFile              // none of the playlist's files exist
    | NoTarget                    // the tag has neither a usable audio nor playlist

  function Resolve(db: Db, folder: PurePath, files: set<string>, rfid: string): (r: Dispatch)
    ensures r.Remember? <==> rfid !in db.tags
    ensures r.PlayOne? || r.MissingFile? ==> rfid in db.tags && AudioUsable(db, db.tags[rfid])
    ensures r.PlayMany? || r.NoExistingFile? ==>
      rfid in db.tags && !AudioUsable(db, db.tags[rfid]) && PlaylistUsable(db, db.tags[rfid])
    ensures r.PlayOne? ==> r.path in files
    ensures r.MissingFile? ==> r.path !in files
    ensures r.PlayMany? ==> r.paths != [] && forall p :: p in r.paths ==> p in files
  {
    if rfid !in db.tags then Remember
    else
      var tag := db.tags[rfid];
      if AudioUsable(db, tag) then
        var path := AudioAbsPath(folder, db.audios[tag.audioId.value].filePath);
        if path in files then PlayOne(path) else MissingFile(path)
      else if PlaylistUsable(db, tag) then
        var paths := Existing(PlaylistPaths(folder, db.playlists[tag.playlistId.value].audios), files);
        if paths == [] then NoExistingFile else PlayMany(paths)
      else NoTarget
  }

  /** A usable audio wins: the tag's playlist, whatever it is, plays no part. */
  lemma AudioBeforePlaylist(db: Db, folder: PurePath, files: set<string>, rfid: string, other: Option<int>)
    requires rfid in db.tags && AudioUsable(db, db.tags[rfid])
    ensures var db' := db.(tags := db.tags[rfid := db.tags[rfid].(playlistId := other)]);
      Resolve(db', folder, files, rfid) == Resolve(db, folder, files, rfid)
  {
  }

  /** A single file is played only if it exists and is the tag's audio. */
  lemma PlayOneSpec(db: Db, folder: PurePath, files: set<string>, rfid: string)
    requires Resolve(db, folder, files, rfid).PlayOne?
    ensures rfid in db.tags && AudioUsable(db, db.tags[rfid])
    ensures var path := Resolve(db, folder, files, rfid).path;
      path in files && path == AudioAbsPath(folder, db.audios[db.tags[rfid].audioId.value].filePath)
  {
  }

  /** A playlist is played as its existing files, in playlist order, and only
      when the tag has no usable audio and at least one file exists. */
  lemma PlayManySpec(db: Db, folder: PurePath, files: set<string>, rfid: string)
    requires Resolve(db, folder, files, rfid).PlayMany?
    ensures rfid in db.tags && !AudioUsable(db, db.tags[rfid]) && PlaylistUsable(db, db.tags[rfid])
    ensures var all := PlaylistPaths(folder, db.playlists[db.tags[rfid].playlistId.value].audios);
      var ps := Resolve(db, folder, files, rfid).paths;
      ps == Existing(all, files) && ps != []
      && forall p :: p in ps <==> p in all && p in files
  {
  }

  /** Nothing is played for a playlist none of whose files exist. */
  lemma NoExistingFileSpec(db: Db, folder: PurePath, files: set<string>, rfid: string)
    requires Resolve(db, folder, files, rfid) == NoExistingFile
    ensures rfid in db.tags && PlaylistUsable(db, db.tags[rfid])
    ensures var all := PlaylistPaths(folder, db.playlists[db.tags[rfid].playlistId.value].audios);
      forall i :: 0 <= i < |all| ==> all[i] !in files
  {
    var all := PlaylistPaths(folder, db.playlists[db.tags[rfid].playlistId.value].audios);
    forall i | 0 <= i < |all| ensures all[i] !in files {
      assert all[i] in all;
    }
  }

  /** The tag `save_assignment` writes for a target type and id, or None for
      an invalid type. */
  function AssignedTag(targetType: Option<string>, targetId: Option<int>): (r: Option<Tag>)
    ensures r.None? <==> targetType != Some("audio") && targetType != Some("playlist")
    ensures r.Some? ==> r.value.audioId.None? || r.value.playlistId.None?
  {
    if targetType == Some("audio") then Some(Tag(targetId, None))
    else if targetType == Some("playlist") then Some(Tag(None, targetId))
    else None
  }

  /** With an id, exactly one foreign key is set, the one the type names. */
  lemma AssignedTagExactlyOne(targetType: Option<string>, id: int)
    requires AssignedTag(targetType, Some(id)).Some?
    ensures var t := AssignedTag(targetType, Some(id)).value;
      (t.audioId.Some? != t.playlistId.Some?)
      && (t.audioId == Some(id) <==> targetType == Some("audio"))
      && (t.playlistId == Some(id) <==> targetType == Some("playlist"))
  {
  }

  /** An id the form could not read still saves the tag, with neither
      target, and such a tag dispatches to nothing. */
  lemma AssignedWithoutId(db: Db, folder: PurePath, files: set<string>, rfid: string, targetType: Option<string>)
    requires AssignedTag(targetType, None).Some?
    ensures AssignedTag(targetType, None) == Some(Tag(None, None))
    ensures Resolve(db.(tags := db.tags[rfid := Tag(None, None)]), folder, files, rfid) == NoTarget
  {
  }

  /** After assigning an existing audio, scanning the tag plays that audio
      (or reports its file missing). */
  lemma AssignedAudioDispatches(db: Db, folder: PurePath, files: set<string>, rfid: string, id: int)
    requires id != 0 && id in db.audios
    ensures var db' := db.(tags := db.tags[rfid := AssignedTag(Some("audio"), Some(id)).value]);
      var path := AudioAbsPath(folder, db.audios[id].filePath);
      Resolve(db', folder, files, rfid) == if path in files then PlayOne(path) else MissingFile(path)
  {
  }

  /** After assigning an existing playlist, scanning the tag plays its
      existing files, or nothing if none exist. */
  lemma AssignedPlaylistDispatches(db: Db, folder: PurePath, files: set<string>, rfid: string, id: int)
    requires id != 0 && id in db.playlists
    ensures var db' := db.(tags := db.tags[rfid := AssignedTag(Some("playlist"), Some(id)).value]);
      var ps := Existing(PlaylistPaths(folder, db.playlists[id].audios), files);
      Resolve(db', folder, files, rfid) == if ps == [] then NoExistingFile else PlayMany(ps)
  {
  }

  datatype AssignResult = MissingRfid | InvalidTarget | Assigned(rfid: string)

  /** The answer of the two play routes. */
  datatype RouteResult = NotFound | NoFile | Played | ServerError

  /** The application's shared state: the database, the last unassigned tag
      and the player, plus the upload folder fixed at start-up. */
  class Jukebox {
    const uploadFolder: PurePath
    const player: Player
    var db: Db
    var lastUnassignedTag: Option<string>

    constructor (baseDir: PurePath, init: VlcInit, stored: Db)
      ensures uploadFolder == UploadFolder(baseDir)
      ensures db == stored && lastUnassignedTag == None
      ensures fresh(player) && player.currentPlaylist == []
      ensures player.hasMediaPlayer == (init == ListPlayerFailed || init == Ready)
      ensures player.hasListPlayer == (init == Ready)
    {
      uploadFolder := UploadFolder(baseDir);
      player := new Player(init);
      db := stored;
      lastUnassignedTag := None;
    }

    /** `on_tag_detected`: remembers an unknown tag, or plays what a known
        tag points to. `raised` is the exception `play_file` lets through
        when VLC has a media player but no list player. */
    method OnTagDetected(rfid: string, files: set<string>) returns (raised: bool)
      modifies this, player
      ensures db == old(db)
      ensures player.hasMediaPlayer == old(player.hasMediaPlayer)
      ensures player.hasListPlayer == old(player.hasListPlayer)
      ensures Resolve(db, uploadFolder, files, rfid) == Remember ==> lastUnassignedTag == Some(rfid)
      ensures Resolve(db, uploadFolder, files, rfid) != Remember ==> lastUnassignedTag == old(lastUnassignedTag)
      ensures var d := Resolve(db, uploadFolder, files, rfid);
        !d.PlayOne? && !d.PlayMany? ==>
          !raised && player.currentPlaylist == old(player.currentPlaylist) && player.backend == old(player.backend)
      ensures var d := Resolve(db, uploadFolder, files, rfid);
        d.PlayOne? ==>
          raised == (player.hasMediaPlayer && !player.hasListPlayer)
          && (player.hasMediaPlayer && player.hasListPlayer ==> player.currentPlaylist == [d.path])
          && (!(player.hasMediaPlayer && player.hasListPlayer) ==>
                player.currentPlaylist == old(player.currentPlaylist) && player.backend == old(player.backend))
      ensures var d := Resolve(db, uploadFolder, files, rfid);
        d.PlayMany? ==>
          !raised
          && (player.hasListPlayer ==> player.currentPlaylist == d.paths)
          && (!player.hasListPlayer ==>
                player.currentPlaylist == old(player.currentPlaylist) && player.backend == old(player.backend))
    {
      raised := false;
      if rfid !in db.tags {
        lastUnassignedTag := Some(rfid);
        return;
      }
      var tag := db.tags[rfid];
      if Truthy(tag.audioId) && tag.audioId.value in db.audios {
        var path := AudioAbsPath(uploadFolder, db.audios[tag.audioId.value].filePath);
        if path !in files {
          return;
        }
        var outcome := player.PlayFile(path, files);
        raised := outcome == Raised;
      } else if Truthy(tag.playlistId) && tag.playlistId.value in db.playlists {
        var paths := PlaylistPaths(uploadFolder, db.playlists[tag.playlistId.value].audios);
        var present := Existing(paths, files);
        if present == [] {
          return;
        }
        ExistingIdempotent(paths, files);
        var started := player.PlayPlaylist(present, files);
      }
    }

    /** `api_clear_last_tag`. */
    method ClearLastTag()
      modifies this
      ensures lastUnassignedTag == None && db == old(db)
    {
      lastUnassignedTag := None;
    }

    /** `save_assignment`: the stripped id, then the target, then the write
        and the clearing of the register when it holds that id. */
    method SaveAssignment(rfidField: string, targetType: Option<string>, targetId: Option<int>)
      returns (r: AssignResult)
      modifies this
      ensures Strip(rfidField) == [] ==> r == MissingRfid
      ensures Strip(rfidField) != [] && AssignedTag(targetType, targetId).None? ==> r == InvalidTarget
      ensures !r.Assigned? ==> db == old(db) && lastUnassignedTag == old(lastUnassignedTag)
      ensures r.Assigned? <==> Strip(rfidField) != [] && AssignedTag(targetType, targetId).Some?
      ensures r.Assigned? ==>
        r.rfid == Strip(rfidField)
        && db == old(db).(tags := old(db).tags[r.rfid := AssignedTag(targetType, targetId).value])
        && lastUnassignedTag == if old(lastUnassignedTag) == Some(r.rfid) then None else old(lastUnassignedTag)
    {
      var rfid := Strip(rfidField);
      if rfid == [] {
        return MissingRfid;
      }
      var tag := AssignedTag(targetType, targetId);
      if tag.None? {
        return InvalidTarget;
      }
      db := db.(tags := db.tags[rfid := tag.value]);
      if lastUnassignedTag == Some(rfid) {
        lastUnassignedTag := None;
      }
      r := Assigned(rfid);
    }

    /** The `play_audio` route. */
    method PlayAudioRoute(audioId: int, files: set<string>) returns (r: RouteResult)
      modifies player
      ensures player.hasMediaPlayer == old(player.hasMediaPlayer)
      ensures player.hasListPlayer == old(player.hasListPlayer)
      ensures audioId !in db.audios ==> r == NotFound
      ensures audioId in db.audios ==>
        var path := AudioAbsPath(uploadFolder, db.audios[audioId].filePath);
        (path !in files ==> r == NoFile)
        && (path in files ==>
              r == (if player.hasMediaPlayer && !player.hasListPlayer then ServerError else Played)
              && (player.hasMediaPlayer && player.hasListPlayer ==> player.currentPlaylist == [path]))
      ensures r == NotFound || r == NoFile || r == ServerError || !player.hasMediaPlayer ==>
        player.currentPlaylist == old(player.currentPlaylist) && player.backend == old(player.backend)
    {
      if audioId !in db.audios {
        return NotFound;
      }
      var path := AudioAbsPath(uploadFolder, db.audios[audioId].filePath);
      if path !in files {
        return NoFile;
      }
      var outcome := player.PlayFile(path, files);
      r := if outcome == Raised then ServerError else Played;
    }

    /** The `play_playlist` route: the playlist's existing files, in order. */
    method PlayPlaylistRoute(playlistId: int, files: set<string>) returns (r: RouteResult)
      modifies player
      ensures player.hasMediaPlayer == old(player.hasMediaPlayer)
      ensures player.hasListPlayer == old(player.hasListPlayer)
      ensures playlistId !in db.playlists ==> r == NotFound
      ensures playlistId in db.playlists ==>
        var ps := Existing(PlaylistPaths(uploadFolder, db.playlists[playlistId].audios), files);
        (ps == [] ==> r == NoFile)
        && (ps != [] ==> r == Played && (player.hasListPlayer ==> player.currentPlaylist == ps))
      ensures r == NotFound || r == NoFile || !player.hasListPlayer ==>
        player.currentPlaylist == old(player.currentPlaylist) && player.backend == old(player.backend)
    {
      if playlistId !in db.playlists {
        return NotFound;
      }
      var paths := PlaylistPaths(uploadFolder, db.playlists[playlistId].audios);
      var present := Existing(paths, files);
      if present == [] {
        return NoFile;
      }
      ExistingIdempotent(paths, files);
      var started := player.PlayPlaylist(present, files);
      r := Played;
    }
  }
}
