/** The playback engine: a wrapper around a VLC media player and a VLC list
    player that remembers the files of the current session. VLC itself is
    abstract: what it reports (state, media, time) is the `backend` field,
    which the commands that reach VLC may change in ways left unspecified. */
module Playback {
  import opened Wrappers
  import opened Text

  /** The members of python-vlc's `vlc.State`. */
  datatype VlcState =
    NothingSpecial | Opening | Buffering | Playing | Paused | Stopped | Ended | Error

  function StateName(s: VlcState): (r: string)
    ensures '.' !in r
  {
    match s
    case NothingSpecial => "NothingSpecial"
    case Opening => "Opening"
    case Buffering => "Buffering"
    case Playing => "Playing"
    case Paused => "Paused"
    case Stopped => "Stopped"
    case Ended => "Ended"
    case Error => "Error"
  }

  /** `str(state)` for python-vlc's enumeration: class name, dot, member name. */
  function StateText(s: VlcState): string
  {
    "State." + StateName(s)
  }

  /** What the VLC media player answers when queried. */
  datatype Backend = Backend(state: VlcState, mrl: Option<string>, timeMs: int, lengthMs: int)

  /** How far `_init_vlc` got before an exception, if any. */
  datatype VlcInit =
    | InstanceFailed     // vlc missing or vlc.Instance raised
    | MediaPlayerFailed  // media_player_new raised
    | ListPlayerFailed   // media_list_player_new raised: a media player but no list player
    | Ready              // both players exist

  /** The result of a play call: `True`, `False`, or the AttributeError raised
      when the media player exists but the list player does not. */
  datatype PlayOutcome = Started | Refused | Raised

  /** The time report without the floating-point position. */
  datatype TimeInfo = TimeInfo(time: int, duration: int)

  /** `[p for p in paths if os.path.isfile(p)]`, `files` being the paths that
      are regular files. */
  function Existing(paths: seq<string>, files: set<string>): (r: seq<string>)
    ensures |r| <= |paths|
    ensures forall p :: p in r <==> p in paths && p in files
  {
    if paths == [] then []
    else (if paths[0] in files then [paths[0]] else []) + Existing(paths[1..], files)
  }

  /** The filter works piecewise, so it keeps the order of the paths it keeps. */
  lemma {:induction false} ExistingAppend(a: seq<string>, b: seq<string>, files: set<string>)
    ensures Existing(a + b, files) == Existing(a, files) + Existing(b, files)
  {
    if a == [] {
      assert a + b == b;
    } else {
      var head := if a[0] in files then [a[0]] else [];
      ExistingAppend(a[1..], b, files);
      assert (a + b)[0] == a[0] && (a + b)[1..] == a[1..] + b;
      calc {
        Existing(a + b, files);
        head + Existing(a[1..] + b, files);
        head + (Existing(a[1..], files) + Existing(b, files));
        (head + Existing(a[1..], files)) + Existing(b, files);
      }
    }
  }

  /** Paths that all exist pass the filter unchanged; in particular filtering
      twice is filtering once. */
  lemma {:induction false} ExistingAllPresent(paths: seq<string>, files: set<string>)
    requires forall i :: 0 <= i < |paths| ==> paths[i] in files
    ensures Existing(paths, files) == paths
  {
    if paths != [] {
      ExistingAllPresent(paths[1..], files);
    }
  }

  lemma ExistingIdempotent(paths: seq<string>, files: set<string>)
    ensures Existing(Existing(paths, files), files) == Existing(paths, files)
  {
    var r := Existing(paths, files);
    assert forall i :: 0 <= i < |r| ==> r[i] in files by {
      forall i | 0 <= i < |r| ensures r[i] in files {
        assert r[i] in r;
      }
    }
    ExistingAllPresent(r, files);
  }

  /** `os.path.basename`: the text after the last '/'. */
  function Basename(p: string): (r: string)
    ensures '/' !in r
  {
    AfterLastSpec(p, '/');
    AfterLast(p, '/')
  }

  /** The media name shown for an MRL: "file://" removed, then the basename. */
  function MediaName(mrl: string): (r: string)
    ensures '/' !in r
  {
    Basename(ReplaceAll(mrl, "file://", ""))
  }

  /** A local file's MRL shows the file's own name. */
  lemma MediaNameOfLocalFile(dir: string, name: string)
    requires '/' !in name
    requires !Contains(dir + "/" + name, "file://")
    ensures MediaName("file://" + dir + "/" + name) == name
  {
    var p := dir + "/" + name;
    var mrl := "file://" + dir + "/" + name;
    assert mrl == "file://" + p;
    assert mrl[..7] == "file://" && mrl[7..] == p;
    ReplaceAllAbsent(p, "file://", "");
    assert ReplaceAll(mrl, "file://", "") == p;
    AfterLastOfJoin(dir, '/', name);
  }

  /** `s` whole seconds are what `ms` milliseconds report: their floor, and
      zero for VLC's negative "unknown" answers. */
  predicate WholeSeconds(ms: int, s: int)
  {
    if ms < 0 then s == 0 else s * 1000 <= ms < (s + 1) * 1000
  }

  /** `max(0, ms // 1000)`; Python's `//` floors, which for the positive
      divisor 1000 is Dafny's `/`. */
  function Seconds(ms: int): (s: int)
    ensures s >= 0 && WholeSeconds(ms, s)
  {
    if ms / 1000 > 0 then ms / 1000 else 0
  }

  class Player {
    var hasMediaPlayer: bool
    var hasListPlayer: bool
    var currentPlaylist: seq<string>
    var backend: Backend

    constructor (init: VlcInit)
      ensures hasMediaPlayer == (init == ListPlayerFailed || init == Ready)
      ensures hasListPlayer == (init == Ready)
      ensures hasListPlayer ==> hasMediaPlayer
      ensures currentPlaylist == []
    {
      hasMediaPlayer := init == ListPlayerFailed || init == Ready;
      hasListPlayer := init == Ready;
      currentPlaylist := [];
      backend := Backend(NothingSpecial, None, -1, -1);
    }

    /** Plays one file; `files` are the paths that are regular files. */
    method PlayFile(path: string, files: set<string>) returns (r: PlayOutcome)
      modifies this
      ensures hasMediaPlayer == old(hasMediaPlayer) && hasListPlayer == old(hasListPlayer)
      ensures r == if !hasMediaPlayer || path !in files then Refused
                   else if !hasListPlayer then Raised
                   else Started
      ensures r == Started ==> currentPlaylist == [path]
      ensures r != Started ==> currentPlaylist == old(currentPlaylist) && backend == old(backend)
    {
      if !hasMediaPlayer {
        return Refused;
      }
      if path !in files {
        return Refused;
      }
      if !hasListPlayer {
        // `self._list_player.stop()` on None
        return Raised;
      }
      currentPlaylist := [path];
      r := Started;
    }

    /** Plays the existing files among `paths`, in their order. */
    method PlayPlaylist(paths: seq<string>, files: set<string>) returns (ok: bool)
      modifies this
      ensures hasMediaPlayer == old(hasMediaPlayer) && hasListPlayer == old(hasListPlayer)
      ensures ok == (hasListPlayer && Existing(paths, files) != [])
      ensures ok ==> currentPlaylist == Existing(paths, files)
      ensures !ok ==> currentPlaylist == old(currentPlaylist) && backend == old(backend)
    {
      if !hasListPlayer {
        return false;
      }
      var valid := Existing(paths, files);
      if valid == [] {
        return false;
      }
      currentPlaylist := valid;
      ok := true;
    }

    /** Toggles pause in VLC; the session is untouched. */
    method Pause()
      modifies this
      ensures hasMediaPlayer == old(hasMediaPlayer) && hasListPlayer == old(hasListPlayer)
      ensures currentPlaylist == old(currentPlaylist)
      ensures !hasMediaPlayer ==> backend == old(backend)
    {
      // with a media player: VLC's `pause()`, whose effect on `backend` is VLC's
    }

    /** Stops both players and forgets the session. The list player is
        stopped after the media player, so with no list player the call
        raises with the session still in place. */
    method Stop() returns (raised: bool)
      modifies this
      ensures hasMediaPlayer == old(hasMediaPlayer) && hasListPlayer == old(hasListPlayer)
      ensures raised == (hasMediaPlayer && !hasListPlayer)
      ensures !hasMediaPlayer ==> backend == old(backend)
      ensures currentPlaylist == if hasMediaPlayer && hasListPlayer then [] else old(currentPlaylist)
    {
      raised := false;
      if hasMediaPlayer {
        if !hasListPlayer {
          return true;
        }
        currentPlaylist := [];
      }
    }

    /** Moves to the next track of the list player; the session is untouched. */
    method NextTrack()
      modifies this
      ensures hasMediaPlayer == old(hasMediaPlayer) && hasListPlayer == old(hasListPlayer)
      ensures currentPlaylist == old(currentPlaylist)
      ensures !hasListPlayer ==> backend == old(backend)
    {
      // with a list player: VLC's `next()`, whose effect on `backend` is VLC's
    }

    /** Moves to the previous track of the list player; the session is untouched. */
    method PrevTrack()
      modifies this
      ensures hasMediaPlayer == old(hasMediaPlayer) && hasListPlayer == old(hasListPlayer)
      ensures currentPlaylist == old(currentPlaylist)
      ensures !hasListPlayer ==> backend == old(backend)
    {
      // with a list player: VLC's `previous()`, whose effect on `backend` is VLC's
    }

    /** The VLC state's member name, or "Unavailable" without a media player. */
    function GetState(): (r: string)
      reads this
      ensures !hasMediaPlayer ==> r == "Unavailable"
      ensures hasMediaPlayer ==> r == StateName(backend.state) && '.' !in r
    {
      if !hasMediaPlayer then "Unavailable"
      else
        assert StateText(backend.state) == "State" + ['.'] + StateName(backend.state);
        AfterLastOfJoin("State", '.', StateName(backend.state));
        AfterLast(StateText(backend.state), '.')
    }

    /** The name of the loaded media, if there is a media player and a media. */
    function GetCurrentMediaName(): (r: Option<string>)
      reads this
      ensures !hasMediaPlayer || backend.mrl.None? ==> r == None
      ensures hasMediaPlayer && backend.mrl.Some? ==> r.Some? && r.value == MediaName(backend.mrl.value)
      ensures r.Some? ==> '/' !in r.value
    {
      if !hasMediaPlayer then None
      else
        match backend.mrl
        case None => None
        case Some(mrl) => Some(MediaName(mrl))
    }

    /** Elapsed and total whole seconds, never negative; zeros without a
        media player. */
    function GetTimeInfo(): (r: TimeInfo)
      reads this
      ensures r.time >= 0 && r.duration >= 0
      ensures !hasMediaPlayer ==> r == TimeInfo(0, 0)
      ensures hasMediaPlayer ==> WholeSeconds(backend.timeMs, r.time) && WholeSeconds(backend.lengthMs, r.duration)
    {
      if !hasMediaPlayer then TimeInfo(0, 0)
      else TimeInfo(Seconds(backend.timeMs), Seconds(backend.lengthMs))
    }
  }
}
