// The music player of one guild: its position in the queue, the loop settings, and the
// off-by-one contract between the command handlers and `increment_pos`, the callback the voice
// client runs whenever a track stops playing.

module Player {
  import opened Wrappers
  import opened Text
  import SavedQueues
  import opened Songs
  import opened Paging

  // ------------------------------------------------------------- increment_pos

  /**
   * The position `increment_pos` moves to from `pos` in a queue of `n` tracks. Looping the
   * track takes precedence: a track that ended by itself plays again, a skipped one moves on.
   * Looping the queue wraps past the end to the first track and from 0 to the last.
   */
  function NextPos(pos: int, n: nat, looped: bool, skipped: bool, queueLooped: bool): (r: int)
    ensures looped ==> r == if skipped then pos + 1 else pos
    ensures !looped && !queueLooped ==> r == pos + 1
    ensures !looped && queueLooped && 0 <= pos < n ==> r == pos + 1
    ensures !looped && queueLooped && n > 0 && -1 <= pos <= n ==> 1 <= r <= n
  {
    var p := pos + 1;
    if looped then (if skipped then p else p - 1)
    else if queueLooped then (if p > n then 1 else if p == 0 then n else p)
    else p
  }

  /** `skip` while a track plays: the callback moves to the next track even when the track is looped. */
  lemma SkipLands(pos: int, n: nat, looped: bool, queueLooped: bool)
    requires 1 <= pos <= n
    ensures NextPos(pos, n, looped, true, queueLooped) ==
      if queueLooped && !looped && pos == n then 1 else pos + 1
  {
  }

  /** `jump` while a track plays sets `target - 1`; the callback lands on the target whatever the loop settings. */
  lemma JumpLands(target: int, n: nat, looped: bool, queueLooped: bool)
    requires 1 <= target <= n
    ensures NextPos(target - 1, n, looped, true, queueLooped) == target
  {
  }

  /**
   * `back` while a track plays sets `pos - 2`; the callback lands on `pos - 1`, where `back`
   * puts an idle player directly, except that a looped queue wraps from the first track to the last.
   */
  lemma BackLands(pos: int, n: nat, looped: bool, queueLooped: bool)
    requires 1 <= pos <= n
    ensures NextPos(pos - 2, n, looped, true, queueLooped) ==
      if queueLooped && !looped && pos == 1 then n else pos - 1
  {
  }

  /**
   * Removing the playing track (`n` tracks are left) sets `pos - 1`; without track looping the
   * callback returns to `pos`, the track that moved up into its place, or to the first track
   * when the queue loops and the last track was removed.
   */
  lemma RemoveCurrentLands(pos: int, n: nat, skipped: bool, queueLooped: bool)
    requires 1 <= pos <= n + 1
    ensures NextPos(pos - 1, n, false, skipped, queueLooped) == if queueLooped && pos > n then 1 else pos
  {
  }

  /**
   * As written, `leave`, `remove` and `removerange` offset `pos` by one before the stop without
   * marking the track as skipped; with the track looped the callback does not advance, so the
   * player comes back one track early, on the track before the one it was at.
   */
  lemma OffsetLandsEarlyWhenLooped(pos: int, n: nat, queueLooped: bool)
    ensures NextPos(pos - 1, n, true, false, queueLooped) == pos - 1
  {
  }

  /** The position the callback lands on after a handler's offset by one, when the handler also marks the track as skipped. */
  function ResumeAfterOffset(pos: int, n: nat, looped: bool, queueLooped: bool): int {
    NextPos(pos - 1, n, looped, true, queueLooped)
  }

  /** Marking the track as skipped makes the offset exact: the player comes back to `pos` in every loop setting. */
  lemma ResumeAfterOffsetExact(pos: int, n: nat, looped: bool, queueLooped: bool)
    requires 1 <= pos <= n
    ensures ResumeAfterOffset(pos, n, looped, queueLooped) == pos
  {
  }

  // ------------------------------------------------------------- removerange

  /**
   * The position `removerange(pos1, pos2)` leaves, as written, after `removed` tracks went:
   * unchanged when nothing was removed; one back when `pos` lies in `[pos1, pos2]` and the player
   * is active (playing, paused or meant to be paused); `removed` back when `pos2 < pos`.
   */
  function RangePos(pos: int, pos1: int, pos2: int, removed: nat, active: bool): int {
    if removed == 0 then pos
    else if pos1 <= pos <= pos2 then (if active then pos - 1 else pos)
    else if pos2 < pos then pos - removed
    else pos
  }

  /**
   * With a negative bound the arguments are read as Python slice bounds but the position is
   * adjusted as if they were track numbers: playing track 1 of 5, `removerange(-3, -1)` removes
   * tracks 2 to 4, and the position becomes -2 while track 1 goes on playing.
   */
  lemma RangePosNegativeBounds(q: seq<Song>)
    requires |q| == 5
    ensures SliceRange(-3 - 1, -1, |q|) == (1, 4)
    ensures RangePos(1, -3, -1, 3, true) == -2
  {
  }

  /**
   * The position adjustment for the index range `[lo, hi)` the slice actually removed: one back
   * (with a stop) when the active track is among the removed, `hi - lo` back when all of them
   * come before it.
   */
  function RangePosFixed(pos: int, lo: nat, hi: nat, active: bool): int {
    if hi == lo then pos
    else if lo < pos <= hi then (if active then pos - 1 else pos)
    else if hi < pos then pos - (hi - lo)
    else pos
  }

  /** With the removed range taken from the slice, a track that survives keeps being the track at the new position. */
  lemma RangePosFixedKeepsTrack(q: seq<Song>, pos: int, pos1: int, pos2: int, active: bool)
    requires 1 <= pos <= |q|
    requires var r := SliceRange(pos1 - 1, pos2, |q|); !(r.0 < pos <= r.1)
    ensures var r := SliceRange(pos1 - 1, pos2, |q|);
      var q' := q[..r.0] + q[r.1..];
      var p := RangePosFixed(pos, r.0, r.1, active);
      1 <= p <= |q'| && q'[p - 1] == q[pos - 1]
  {
  }

  /** For track numbers `pos1 >= 1` and `pos2 >= 0` the source's adjustment is the slice-based one. */
  lemma RangePosAgrees(q: seq<Song>, pos: int, pos1: int, pos2: int, active: bool)
    requires 1 <= pos <= |q| && pos1 >= 1 && pos2 >= 0
    ensures var r := SliceRange(pos1 - 1, pos2, |q|);
      RangePos(pos, pos1, pos2, r.1 - r.0, active) == RangePosFixed(pos, r.0, r.1, active)
  {
  }

  /**
   * A second effect of the raw-bound adjustment: playing track 1 of 21, `removerange(-19, -9)`
   * removes the slice `[-20:-9]`, eleven tracks, and moves the position to -10. The 10 tracks
   * left fill one page, and `%queue` opens on `pages[-2]`, which raises IndexError.
   */
  lemma QueueRaisesAfterNegativeRange()
    ensures SliceRange(-19 - 1, -9, 21) == (1, 12)
    ensures RangePos(1, -19, -9, 11, true) == -10
    ensures InitIndex(-10, 21 - 11) == -2 && PageCount(21 - 11) == 1
    ensures PyIndex(InitIndex(-10, 21 - 11), PageCount(21 - 11)).None?
  {
  }

  /** With the slice-based adjustment the position stays at -1 or above, so `%queue` always finds the page it opens on. */
  lemma RangePosFixedQueueShown(pos: int, lo: nat, hi: nat, n: nat, active: bool)
    requires lo <= hi <= n && pos >= -1
    ensures RangePosFixed(pos, lo, hi, active) >= -1
    ensures PyIndex(InitIndex(RangePosFixed(pos, lo, hi, active), n - (hi - lo)), PageCount(n - (hi - lo))).Some?
  {
    InitIndexShown(RangePosFixed(pos, lo, hi, active), n - (hi - lo));
  }

  // ------------------------------------------------------------- requests by position or title

  /** A `jump` or `remove` argument: a track position, or text to look for in the titles. */
  datatype Request = ByPos(pos: int) | ByTitle(title: string)

  /** Why a request names no track. */
  datatype CommandError = OutOfRange(pos: int) | NotFound(title: string)

  /** `target` is the track `request` names in `q`: the position itself, or the first title that matches. */
  predicate Names(q: seq<Song>, request: Request, target: int) {
    1 <= target <= |q| &&
    match request
    case ByPos(p) => target == p
    case ByTitle(t) => TitleMatches(q[target - 1], t) && forall k :: 0 <= k < target - 1 ==> !TitleMatches(q[k], t)
  }

  /** `request` names no track of `q`: a position out of range, or no title that matches. */
  predicate NamesNone(q: seq<Song>, request: Request) {
    match request
    case ByPos(p) => p < 1 || p > |q|
    case ByTitle(t) => forall k :: 0 <= k < |q| ==> !TitleMatches(q[k], t)
  }

  /** A request names at most one track, and names one exactly when it is not unresolvable. */
  lemma NamesUnique(q: seq<Song>, request: Request, a: int, b: int)
    requires Names(q, request, a)
    ensures Names(q, request, b) ==> a == b
    ensures !NamesNone(q, request)
  {
  }

  /** Removing a track other than the current one keeps the current track under the adjusted position. */
  lemma RemoveKeepsCurrent(q: seq<Song>, pos: int, p: int)
    requires 1 <= pos <= |q| && 1 <= p <= |q| && p != pos
    ensures var q' := q[..p - 1] + q[p..];
      var pos' := if p < pos then pos - 1 else pos;
      1 <= pos' <= |q'| && q'[pos' - 1] == q[pos - 1]
  {
  }

  // ------------------------------------------------------------- the player

  /** The player's scalar state: position, flags and the voice client reduced to its status. */
  datatype PlayerState = PlayerState(
    pos: int, skipped: bool, looped: bool, queueLooped: bool, shuffleOnLoop: bool,
    shouldBePaused: bool, connected: bool, playing: bool, paused: bool, advancePending: bool)

  /** `vc.stop()`: a playing or paused track ends and its callback becomes due. */
  function Stopped(s: PlayerState): (r: PlayerState)
    ensures !r.playing && !r.paused
    ensures r.advancePending <==> s.advancePending || s.playing || s.paused
  {
    s.(playing := false, paused := false, advancePending := s.advancePending || s.playing || s.paused)
  }

  /** The player takes part in the offset-and-stop of `remove` and `removerange`: playing, paused, or meant to be paused. */
  predicate Engaged(s: PlayerState) {
    s.playing || s.paused || s.shouldBePaused
  }

  /** The state `remove` leaves after removing track `p`. */
  function AfterRemove(s: PlayerState, p: int): (r: PlayerState)
    ensures p < s.pos ==> r == s.(pos := s.pos - 1)
    ensures p > s.pos ==> r == s
    ensures p == s.pos && Engaged(s) ==> r == Stopped(s).(pos := s.pos - 1)
    ensures p == s.pos && !Engaged(s) ==> r == s
  {
    var s1 := if p == s.pos && Engaged(s) then Stopped(s.(pos := s.pos - 1)) else s;
    if p < s1.pos then s1.(pos := s1.pos - 1) else s1
  }

  /**
   * The state `removerange(pos1, pos2)` leaves after `removed` tracks went: the position
   * `RangePos` gives, and a stop when the position was in `[pos1, pos2]` and the player engaged.
   */
  function AfterRemoveRange(s: PlayerState, pos1: int, pos2: int, removed: nat): PlayerState {
    var p := RangePos(s.pos, pos1, pos2, removed, Engaged(s));
    if removed > 0 && pos1 <= s.pos <= pos2 && Engaged(s) then Stopped(s).(pos := p) else s.(pos := p)
  }

  /**
   * Shuffle-looping implies queue looping, the voice client is never both playing and paused,
   * only a connected client plays, an active track is a track of the `n` in the queue, and the
   * position is never below -1 (where `back` leaves it, at the first track, for the callback).
   */
  predicate ValidState(s: PlayerState, n: nat) {
    (s.shuffleOnLoop ==> s.queueLooped) && !(s.playing && s.paused)
    && ((s.playing || s.paused) ==> s.connected && 1 <= s.pos <= n)
    && s.pos >= -1
  }

  /** `remove` of a track of the queue keeps the state valid. */
  lemma AfterRemoveValid(s: PlayerState, n: nat, p: int)
    requires ValidState(s, n) && 1 <= p <= n
    ensures ValidState(AfterRemove(s, p), n - 1)
  {
  }

  /** The page `%queue` opens on exists in every valid state: the position is never low enough to index before the pages. */
  lemma QueueOpensInValidState(s: PlayerState, n: nat)
    requires ValidState(s, n)
    ensures PyIndex(InitIndex(s.pos, n), PageCount(n)).Some?
  {
    InitIndexShown(s.pos, n);
  }

  /** `removerange` with track numbers as bounds keeps the state valid. */
  lemma AfterRemoveRangeValid(s: PlayerState, n: nat, pos1: int, pos2: int)
    requires ValidState(s, n) && pos1 >= 1 && pos2 >= 0
    ensures var r := SliceRange(pos1 - 1, pos2, n);
      ValidState(AfterRemoveRange(s, pos1, pos2, r.1 - r.0), n - (r.1 - r.0))
  {
    var r := SliceRange(pos1 - 1, pos2, n);
    RangePosStays(s.pos, pos1, pos2, n, Engaged(s));
    var t := AfterRemoveRange(s, pos1, pos2, r.1 - r.0);
    if r.1 > r.0 && pos1 <= s.pos <= pos2 && Engaged(s) {
      assert !t.playing && !t.paused;
    } else {
      assert t == s.(pos := t.pos);
    }
  }

  /**
   * With track numbers as bounds, the position `removerange` leaves is never below -1, and a
   * track that was not among the removed stays inside the shorter queue.
   */
  lemma RangePosStays(pos: int, pos1: int, pos2: int, n: nat, active: bool)
    requires pos >= -1 && pos1 >= 1 && pos2 >= 0
    ensures var r := SliceRange(pos1 - 1, pos2, n);
      var p := RangePos(pos, pos1, pos2, r.1 - r.0, active);
      p >= -1 && (1 <= pos <= n && (r.1 == r.0 || !(pos1 <= pos <= pos2)) ==> 1 <= p <= n - (r.1 - r.0))
  {
    var r := SliceRange(pos1 - 1, pos2, n);
    var lo := if pos1 - 1 <= n then pos1 - 1 else n;
    assert r.0 == lo;
    assert r.1 == if pos2 < lo then lo else if pos2 <= n then pos2 else n;
  }

  /** With a negative bound the state can become invalid: the position of a playing track leaves the queue. */
  lemma AfterRemoveRangeInvalid(s: PlayerState)
    requires ValidState(s, 5) && s.pos == 1 && s.playing
    ensures !ValidState(AfterRemoveRange(s, -3, -1, 3), 2)
  {
  }

  /**
   * `MusicPlayer`. The voice client is reduced to `connected`, `playing` and `paused`;
   * `advancePending` records that a stopped track's callback, `increment_pos`, is due.
   */
  class MusicPlayer {
    const queue: SongQueue
    const guild: string
    var pos: int
    var skipped: bool
    var looped: bool
    var queueLooped: bool
    var shuffleOnLoop: bool
    var shouldBePaused: bool
    var connected: bool
    var playing: bool
    var paused: bool
    var advancePending: bool

    function State(): PlayerState
      reads this
    {
      PlayerState(pos, skipped, looped, queueLooped, shuffleOnLoop, shouldBePaused,
                  connected, playing, paused, advancePending)
    }

    /** A track is playing or paused. */
    predicate Active()
      reads this
    {
      playing || paused
    }

    /**
     * What every handler keeps (`removerange` only with track numbers as bounds): the state is
     * valid for the queue's length, and the queue's name is one the name setter produced.
     */
    predicate Valid()
      reads this, queue
    {
      ValidState(State(), |queue.tracks|) && '{' !in queue.name && '}' !in queue.name
    }

    /** A new player at position 1 of an empty queue named after the guild, with every flag off. */
    constructor(guildName: string)
      ensures guild == guildName && fresh(queue)
      ensures queue.tracks == [] && queue.name == SavedQueues.CleanName(guildName + " Queue")
      ensures State() == PlayerState(1, false, false, false, false, false, false, false, false, false)
      ensures Valid()
    {
      guild := guildName;
      queue := new SongQueue(guildName + " Queue");
      pos := 1;
      skipped := false;
      shouldBePaused := false;
      looped := false;
      queueLooped := false;
      shuffleOnLoop := false;
      connected := false;
      playing := false;
      paused := false;
      advancePending := false;
    }

    // ----------------------------------------------------------- the voice client

    /** `vc.stop()`: a playing or paused track ends and its callback becomes due. */
    method Stop()
      modifies this
      ensures old(Valid()) ==> Valid()
      ensures State() == Stopped(old(State()))
    {
      if playing || paused {
        advancePending := true;
      }
      playing := false;
      paused := false;
    }

    /** `vc.pause()` together with the `pause` handler's flag. */
    method Pause()
      modifies this
      ensures old(Valid()) ==> Valid()
      ensures State() == old(State()).(shouldBePaused := true,
                                        playing := false, paused := old(playing || paused))
    {
      if playing {
        playing := false;
        paused := true;
      }
      shouldBePaused := true;
    }

    /** `vc.resume()` together with the `resume` handler's flag. */
    method Resume()
      modifies this
      ensures old(Valid()) ==> Valid()
      ensures State() == old(State()).(shouldBePaused := false,
                                        playing := old(playing || paused), paused := false)
    {
      if paused {
        paused := false;
        playing := true;
      }
      shouldBePaused := false;
    }

    /**
     * One round of `player_loop` that starts a track: when the player is connected and idle,
     * the track at `pos` exists and the channel has humans, it plays (and is paused right away
     * when it should be).
     */
    method PlayNext(hasHumans: bool) returns (started: Option<Song>)
      modifies this
      ensures old(Valid()) ==> Valid()
      ensures var go := old(connected && !playing && !paused && hasHumans && queue.At(pos).Ok?);
        (go ==> started == Some(old(queue.tracks[pos - 1])) &&
                State() == old(State()).(playing := !shouldBePaused, paused := shouldBePaused)) &&
        (!go ==> started == None && State() == old(State()))
    {
      if !connected || playing || paused || !hasHumans {
        return None;
      }
      var song := queue.At(pos);
      if song.Err? {
        return None;
      }
      playing := true;
      started := Some(song.value);
      if shouldBePaused {
        Pause();
      }
    }

    /** `increment_pos`, the callback run after a track stops playing. */
    method IncrementPos()
      requires !playing && !paused
      modifies this, queue
      ensures old(Valid()) ==> Valid()
      ensures pos == NextPos(old(pos), |old(queue.tracks)|, old(looped), old(skipped), old(queueLooped))
      ensures State() == old(State()).(pos := pos, skipped := false)
      ensures queue.name == old(queue.name)
      ensures var wrap := old(!looped && queueLooped && pos + 1 > |queue.tracks| && shuffleOnLoop);
        (wrap ==> |queue.tracks| == |old(queue.tracks)| && multiset(queue.tracks) == multiset(old(queue.tracks))) &&
        (!wrap ==> queue.tracks == old(queue.tracks))
    {
      pos := pos + 1;
      if looped {
        if !skipped {
          pos := pos - 1;
          Stop();
        }
      } else if queueLooped {
        if pos > |queue.tracks| {
          if shuffleOnLoop {
            queue.Shuffle(0);
            assert queue.tracks[0..] == queue.tracks && old(queue.tracks)[0..] == old(queue.tracks);
          }
          pos := 1;
        } else if pos == 0 {
          pos := |queue.tracks|;
        }
      }
      skipped := false;
    }

    /** The voice client's track ends, by itself or stopped, and the callback runs. */
    method Finish()
      requires playing || paused || advancePending
      modifies this, queue
      ensures old(Valid()) ==> Valid()
      ensures pos == NextPos(old(pos), |old(queue.tracks)|, old(looped), old(skipped), old(queueLooped))
      ensures State() == old(State()).(pos := pos, skipped := false, playing := false, paused := false,
                                        advancePending := false)
      ensures queue.name == old(queue.name) && |queue.tracks| == |old(queue.tracks)|
      ensures multiset(queue.tracks) == multiset(old(queue.tracks))
    {
      playing := false;
      paused := false;
      advancePending := false;
      IncrementPos();
    }

    // ----------------------------------------------------------- basic commands

    /** `join`: the voice client connects; the player continues at the position it left. */
    method Join()
      modifies this
      ensures old(Valid()) ==> Valid()
      ensures State() == old(State()).(connected := true)
    {
      connected := true;
    }

    /**
     * `play`: with no query, or when the download failed (`song == None`), nothing changes.
     * Otherwise the song is appended, and an idle player moves to it so it plays next.
     */
    method Play(query: Option<string>, song: Option<Song>)
      modifies this, queue
      ensures old(Valid()) ==> Valid()
      ensures queue.name == old(queue.name)
      ensures query.None? || song.None? ==> queue.tracks == old(queue.tracks) && State() == old(State())
      ensures query.Some? && song.Some? ==> queue.tracks == old(queue.tracks) + [song.value]
      ensures query.Some? && song.Some? && old(Active()) ==> State() == old(State())
      ensures query.Some? && song.Some? && !old(Active()) ==>
        State() == old(State()).(pos := |queue.tracks|) && queue.At(pos) == Ok(song.value)
    {
      if query.None? || song.None? {
        return;
      }
      queue.AddSong(song.value);
      if !playing && !paused {
        pos := |queue.tracks|;
      }
    }

    /** `leave`: an active track is stopped by the disconnection, so `pos` is offset by one for its callback. */
    method Leave()
      modifies this
      ensures old(Valid()) ==> Valid()
      ensures old(Active()) ==> State() == old(State()).(pos := old(pos) - 1, connected := false,
                                                         playing := false, paused := false, advancePending := true)
      ensures !old(Active()) ==> State() == old(State()).(connected := false)
    {
      if playing || paused {
        pos := pos - 1;
      }
      connected := false;
      Stop();
    }

    // ----------------------------------------------------------- queue traversal

    /** `skip`: mark the track as skipped and stop it; the callback moves on. */
    method Skip()
      modifies this
      ensures old(Valid()) ==> Valid()
      ensures State() == old(State()).(skipped := true, playing := false, paused := false,
                                        advancePending := old(advancePending || playing || paused))
    {
      skipped := true;
      Stop();
    }

    /** `back`: from a position above 0, one track back; when active, two back and a stop, the callback adding one. */
    method Back()
      modifies this
      ensures old(Valid()) ==> Valid()
      ensures old(pos) <= 0 ==> State() == old(State())
      ensures old(pos) > 0 && old(Active()) ==>
        State() == old(State()).(pos := old(pos) - 2, skipped := true, playing := false, paused := false,
                                 advancePending := true)
      ensures old(pos) > 0 && !old(Active()) ==> State() == old(State()).(pos := old(pos) - 1, skipped := true)
    {
      if pos > 0 {
        skipped := true;
        if playing || paused {
          pos := pos - 2;
          Stop();
        } else {
          pos := pos - 1;
        }
      }
    }

    /** The track a request names, through `get_song_pos` for titles. */
    method Resolve(request: Request) returns (r: Result<int, CommandError>)
      ensures r.Ok? ==> Names(queue.tracks, request, r.value)
      ensures r.Err? ==> (NamesNone(queue.tracks, request) &&
        r.error == (if request.ByPos? then OutOfRange(request.pos) else NotFound(request.title)))
    {
      match request
      case ByPos(p) =>
        if p < 1 || p > |queue.tracks| {
          return Err(OutOfRange(p));
        }
        return Ok(p);
      case ByTitle(t) =>
        var found := queue.GetSongPos(t);
        if found.None? {
          return Err(NotFound(t));
        }
        return Ok(found.value);
    }

    /**
     * `jump`: a request naming no track changes nothing. Otherwise the track is marked as
     * skipped and `pos` becomes the target, or `target - 1` with a stop when active.
     */
    method Jump(request: Request) returns (r: Result<int, CommandError>)
      modifies this
      ensures old(Valid()) ==> Valid()
      ensures r.Err? ==> NamesNone(queue.tracks, request) && State() == old(State())
      ensures r.Ok? ==> Names(queue.tracks, request, r.value)
      ensures r.Ok? && old(Active()) ==>
        State() == old(State()).(pos := r.value - 1, skipped := true, playing := false, paused := false,
                                 advancePending := true)
      ensures r.Ok? && !old(Active()) ==> State() == old(State()).(pos := r.value, skipped := true)
    {
      r := Resolve(request);
      if r.Err? {
        return;
      }
      skipped := true;
      if playing || paused {
        pos := r.value - 1;
        Stop();
      } else {
        pos := r.value;
      }
    }

    // ----------------------------------------------------------- queue management

    /**
     * `clear`: an empty queue, or a confirmation not answered yes, changes nothing (`None`).
     * Otherwise the queue is emptied, playback stopped unless disconnected, `pos` reset to 1
     * and the default name restored; the result is the number of songs cleared. The caller
     * passes `disconnected` exactly when the voice client is missing or not connected.
     */
    method Clear(response: Option<bool>, disconnected: bool) returns (cleared: Option<int>)
      requires disconnected == !connected
      modifies this, queue
      ensures old(Valid()) ==> Valid()
      ensures |old(queue.tracks)| == 0 || response != Some(true) ==>
        cleared == None && State() == old(State()) && queue.tracks == old(queue.tracks) && queue.name == old(queue.name)
      ensures |old(queue.tracks)| > 0 && response == Some(true) ==>
        cleared == Some(|old(queue.tracks)|) && queue.tracks == [] && pos == 1 &&
        queue.name == SavedQueues.CleanName(guild + " Queue")
      ensures |old(queue.tracks)| > 0 && response == Some(true) && !disconnected ==>
        State() == old(State()).(pos := 1, playing := false, paused := false,
                                 advancePending := old(advancePending || playing || paused))
      ensures |old(queue.tracks)| > 0 && response == Some(true) && disconnected ==>
        State() == old(State()).(pos := 1)
    {
      if |queue.tracks| == 0 || response != Some(true) {
        return None;
      }
      var num := queue.ClearQueue();
      if !disconnected {
        Stop();
      }
      pos := 1;
      queue.SetName(guild + " Queue");
      return Some(num);
    }

    /**
     * `remove`: a request naming no track changes nothing. Otherwise the track goes; `pos` moves
     * back one when the track was before it, or when it was the current track and the player is
     * active or meant to be paused, in which case playback also stops.
     */
    method Remove(request: Request) returns (r: Result<(int, Song), CommandError>)
      modifies this, queue
      ensures old(Valid()) ==> Valid()
      ensures queue.name == old(queue.name)
      ensures r.Err? ==> (NamesNone(old(queue.tracks), request) && State() == old(State()) &&
        queue.tracks == old(queue.tracks))
      ensures r.Ok? ==> var p := r.value.0;
        Names(old(queue.tracks), request, p) && r.value.1 == old(queue.tracks)[p - 1] &&
        queue.tracks == old(queue.tracks)[..p - 1] + old(queue.tracks)[p..] &&
        State() == AfterRemove(old(State()), p)
    {
      var target := Resolve(request);
      if target.Err? {
        return Err(target.error);
      }
      var p := target.value;
      var removed := queue.PopSong(p);
      AdjustForRemoved(p);
      if old(Valid()) {
        AfterRemoveValid(old(State()), |old(queue.tracks)|, p);
      }
      return Ok((p, removed.value));
    }

    /**
     * How `remove` moves the player once track `p` is gone: removing the current track of an
     * engaged player offsets `pos` by one and stops; removing an earlier track shifts `pos` down.
     */
    method AdjustForRemoved(p: int)
      modifies this
      ensures State() == AfterRemove(old(State()), p)
    {
      if p == pos {
        if playing || paused || shouldBePaused {
          pos := pos - 1;
          Stop();
        }
      }
      if p < pos {
        pos := pos - 1;
      }
    }

    /**
     * `removerange(pos1, pos2)`: the slice `[pos1 - 1:pos2]` goes, and `pos` moves as
     * `RangePos` says; playback stops when the current position was in `[pos1, pos2]` and the
     * player was active or meant to be paused.
     */
    method RemoveRange(pos1: int, pos2: int) returns (removed: int)
      modifies this, queue
      ensures old(Valid()) && pos1 >= 1 && pos2 >= 0 ==> Valid()
      ensures var r := SliceRange(pos1 - 1, pos2, |old(queue.tracks)|);
        removed == r.1 - r.0 && queue.tracks == old(queue.tracks)[..r.0] + old(queue.tracks)[r.1..]
      ensures queue.name == old(queue.name)
      ensures State() == AfterRemoveRange(old(State()), pos1, pos2, removed)
    {
      var songs := queue.PopRange(pos1, pos2);
      removed := |songs|;
      AdjustForRange(pos1, pos2, removed);
      if old(Valid()) && pos1 >= 1 && pos2 >= 0 {
        AfterRemoveRangeValid(old(State()), |old(queue.tracks)|, pos1, pos2);
      }
    }

    /**
     * How `removerange` moves the player once `removed` tracks are gone: nothing when none
     * went; an offset by one and a stop when the engaged position was in `[pos1, pos2]`; a
     * shift by `removed` when `pos2 < pos`.
     */
    method AdjustForRange(pos1: int, pos2: int, removed: nat)
      modifies this
      ensures State() == AfterRemoveRange(old(State()), pos1, pos2, removed)
    {
      if removed == 0 {
        return;
      }
      if pos1 <= pos <= pos2 {
        if playing || paused || shouldBePaused {
          pos := pos - 1;
          Stop();
        }
      } else if pos2 < pos {
        pos := pos - removed;
      }
    }

    /** `shuffle`: the songs after the current position are put in an arbitrary order. */
    method Shuffle()
      modifies queue
      ensures old(Valid()) ==> Valid()
      ensures var p := ShufflePoint(pos, |old(queue.tracks)|);
        |queue.tracks| == |old(queue.tracks)| && queue.tracks[..p] == old(queue.tracks)[..p] &&
        multiset(queue.tracks[p..]) == multiset(old(queue.tracks)[p..])
      ensures queue.name == old(queue.name)
    {
      queue.Shuffle(pos);
    }

    // ----------------------------------------------------------- loop settings

    /** `loop`: no option toggles looping the track, an option sets it. */
    method Loop(option: Option<bool>)
      modifies this
      ensures old(Valid()) ==> Valid()
      ensures State() == old(State()).(looped := if option.None? then !old(looped) else option.value)
    {
      if option.None? {
        looped := !looped;
      } else {
        looped := option.value;
      }
    }

    /** `loopqueue`: no option toggles looping the queue, an option sets it; turning it off also turns shuffle-looping off. */
    method LoopQueue(option: Option<bool>)
      modifies this
      ensures old(Valid()) ==> Valid()
      ensures queueLooped == if option.None? then !old(queueLooped) else option.value
      ensures State() == old(State()).(queueLooped := queueLooped,
                                        shuffleOnLoop := if queueLooped then old(shuffleOnLoop) else false)
    {
      if option.None? {
        queueLooped := !queueLooped;
      } else {
        queueLooped := option.value;
      }
      if !queueLooped {
        shuffleOnLoop := false;
      }
    }

    /** `shuffleloop`: no option toggles shuffling on wrap-around, an option sets it; turning it on also loops the queue. */
    method ShuffleLoop(option: Option<bool>)
      modifies this
      ensures old(Valid()) ==> Valid()
      ensures shuffleOnLoop == if option.None? then !old(shuffleOnLoop) else option.value
      ensures State() == old(State()).(shuffleOnLoop := shuffleOnLoop,
                                        queueLooped := if shuffleOnLoop then true else old(queueLooped))
    {
      if option.None? {
        shuffleOnLoop := !shuffleOnLoop;
      } else {
        shuffleOnLoop := option.value;
      }
      if shuffleOnLoop {
        queueLooped := true;
      }
    }

    // ----------------------------------------------------------- saving

    /** `namequeue`: no name restores the default name, a name is set through the name setter. */
    method NameQueue(name: Option<string>)
      modifies queue
      ensures old(Valid()) ==> Valid()
      ensures queue.tracks == old(queue.tracks)
      ensures queue.name == SavedQueues.CleanName(if name.None? then guild + " Queue" else name.value)
    {
      if name.None? {
        queue.SetName(guild + " Queue");
      } else {
        queue.SetName(name.value);
      }
    }

    /**
     * `savequeue` on the owner's file `content`: the queue is saved under the given name, or
     * its own name by default, and the new file is returned (`None`: nothing written). The
     * queue is renamed for writing its block and its name is restored afterwards.
     */
    method SaveQueue(content: string, queueName: Option<string>, response: Option<bool>)
      returns (written: Option<string>)
      requires '{' !in queue.name && '}' !in queue.name
      modifies queue
      ensures old(Valid()) ==> Valid()
      ensures queue.tracks == old(queue.tracks) && queue.name == old(queue.name)
      ensures written == SavedQueues.SaveFile(content, if queueName.None? then queue.name else queueName.value,
                                              Ids(queue.tracks), response)
    {
      var name := if queueName.None? then queue.name else queueName.value;
      var payload := SavedQueues.GetSavedContents(content, name);
      if payload.Raises? {
        return None;
      }
      var text := content;
      if payload.Saved? {
        if response != Some(true) {
          return None;
        }
        var span := SavedQueues.GetReprSpan(content, payload.savedName);
        if span.None? {
          // TypeError at `span[0]`: nothing is written. A file the bot wrote never gets here
          // (`SavedQueues.SaveSpanFound`); a hand-edited one can (`SavedQueues.SaveSpanMissing`).
          return None;
        }
        text := content[..span.value.0] + content[span.value.1..];
      }
      var temp := queue.name;
      queue.SetName(name);
      text := text + queue.ReprText();
      queue.SetName(temp);
      return Some(text);
    }

    // ----------------------------------------------------------- the %queue message

    /** `format_queue_page(start)`, for a start inside the queue. */
    method FormatQueuePage(start: int) returns (page: Page)
      requires 1 <= start <= |queue.tracks|
      ensures page == PageOf(queue.tracks, pos, start)
    {
      var segment := queue.Segment(start, start + 9);
      var lines: seq<Line> := [];
      var offset := 0;
      while offset < |segment.tracks|
        invariant 0 <= offset <= |segment.tracks|
        invariant |lines| == offset
        invariant forall i :: 0 <= i < offset ==> lines[i] == Line(start + i, segment.tracks[i], start + i == pos)
      {
        lines := lines + [Line(start + offset, segment.tracks[offset], start + offset == pos)];
        offset := offset + 1;
      }
      assert lines == PageLines(segment.tracks, start, pos);
      var pageNum := start / 10 + 1;
      var numPages := (|queue.tracks| - 1) / 10 + 1;
      page := QueuePage(lines, pageNum, numPages, pageNum == numPages);
    }

    /** `get_queue_pages`: one page for at most ten tracks, otherwise a page per ten tracks. */
    method GetQueuePages() returns (pages: seq<Page>)
      ensures pages == QueuePages(queue.tracks, pos)
    {
      var length := |queue.tracks|;
      if length <= 10 {
        if length == 0 {
          return [EmptyQueuePage];
        }
        var page := FormatQueuePage(1);
        return [page];
      }
      pages := [];
      var topPos := 1;
      while topPos <= length
        invariant 1 <= topPos <= length + 10 && (topPos - 1) % 10 == 0
        invariant |pages| == (topPos - 1) / 10
        invariant forall k :: 0 <= k < |pages| ==> pages[k] == PageOf(queue.tracks, pos, 10 * k + 1)
        decreases length - topPos
      {
        var page := FormatQueuePage(topPos);
        pages := pages + [page];
        topPos := topPos + 10;
      }
      assert |pages| == NumPages(length);
    }
  }
}
