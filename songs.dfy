/**
 * Songs and the song queue. A `Song` is reduced to the fields the queue logic and the
 * formatters look at; a `SongQueue` is a list of songs addressed by 1-based track positions,
 * updated in place by the player's commands.
 */
module Songs {
  import opened Wrappers
  import opened Text
  import SavedQueues

  /** A YouTube video: its id, title, duration in seconds and page URL. */
  datatype Song = Song(id: string, title: string, duration: int, webpageUrl: string)

  /** The error `at` raises for a track position outside `[1, len]`. */
  datatype QueueError = IndexError(pos: int)

  // ------------------------------------------------------------- song formatting

  /** `f"{n:02}"`: the number with at least two digits. */
  function Pad2(n: nat): string {
    PadLeft(NatToStr(n), 2, '0')
  }

  /**
   * `Song.duration_str`: the duration modulo one day, as `H:MM:SS` when at least an hour is
   * left and as `MM:SS` otherwise. The minutes field is the total number of minutes, not the
   * minutes past the hour.
   */
  function DurationStr(duration: int): string {
    var total := duration % 86400;
    Clock(total / 3600, total / 60, total % 60)
  }

  /** The f-string of `duration_str`: hours only when positive, minutes and seconds padded to two digits. */
  function Clock(hours: nat, minutes: nat, seconds: nat): string {
    if hours > 0 then NatToStr(hours) + ":" + Pad2(minutes) + ":" + Pad2(seconds)
    else Pad2(minutes) + ":" + Pad2(seconds)
  }

  lemma DigitsNoColon(s: string)
    requires AllDigits(s)
    ensures ':' !in s
  {
    assert forall i :: 0 <= i < |s| ==> IsDigit(s[i]);
  }

  lemma Pad2Digits(n: nat)
    ensures AllDigits(Pad2(n)) && ParseNat(Pad2(n)) == n && ':' !in Pad2(n)
    ensures |Pad2(n)| >= 2 && (n < 100 ==> |Pad2(n)| == 2)
  {
    PadNatRoundTrip(n, 2);
    DigitsNoColon(Pad2(n));
    NatToStrShort(n);
  }

  /** The fields of `a:b` are those of `a` then `b`, when `a` has no colon. */
  lemma ColonFields(a: string, b: string)
    requires ':' !in a && ':' !in b
    ensures SplitOn(a + ":" + b, ':') == [a, b]
  {
    SplitOnConcat(a, b, ':');
    SplitOnNoSep(b, ':');
  }

  /**
   * Reading a duration string back: it has three fields when at least an hour is left and two
   * otherwise, every field is digits, the seconds field has two digits and is below 60, the
   * hours field is the whole hours, and minutes * 60 + seconds recovers the duration modulo one day.
   */
  lemma DurationStrFields(duration: int)
    ensures var total := duration % 86400;
      var parts := SplitOn(DurationStr(duration), ':');
      && |parts| == (if total >= 3600 then 3 else 2)
      && (forall i :: 0 <= i < |parts| ==> AllDigits(parts[i]))
      && |parts[|parts| - 1]| == 2
      && ParseNat(parts[|parts| - 1]) < 60
      && ParseNat(parts[|parts| - 2]) * 60 + ParseNat(parts[|parts| - 1]) == total
      && (|parts| == 3 ==> ParseNat(parts[0]) == total / 3600)
  {
    var total := duration % 86400;
    assert (total / 60) * 60 + total % 60 == total;
    assert total >= 3600 <==> total / 3600 > 0;
    ClockFields(total / 3600, total / 60, total % 60);
  }

  /** The fields of a clock string parse back to its hours (when shown), minutes and seconds. */
  lemma ClockFields(hours: nat, minutes: nat, seconds: nat)
    requires seconds < 60
    ensures var parts := SplitOn(Clock(hours, minutes, seconds), ':');
      && |parts| == (if hours > 0 then 3 else 2)
      && (forall i :: 0 <= i < |parts| ==> AllDigits(parts[i]))
      && |parts[|parts| - 1]| == 2
      && ParseNat(parts[|parts| - 2]) == minutes
      && ParseNat(parts[|parts| - 1]) == seconds
      && (|parts| == 3 ==> ParseNat(parts[0]) == hours)
  {
    var m, s := Pad2(minutes), Pad2(seconds);
    Pad2Digits(minutes);
    Pad2Digits(seconds);
    ColonFields(m, s);
    if hours > 0 {
      NatToStrDigits(hours);
      HourFields(NatToStr(hours), m, s);
    }
  }

  lemma HourFields(h: string, m: string, s: string)
    requires AllDigits(h) && SplitOn(m + ":" + s, ':') == [m, s]
    ensures SplitOn(h + ":" + m + ":" + s, ':') == [h, m, s]
  {
    DigitsNoColon(h);
    assert h + ":" + m + ":" + s == h + [':'] + (m + ":" + s);
    SplitOnConcat(h, m + ":" + s, ':');
  }

  /** One hour, one minute and forty seconds prints its minutes as 61. */
  lemma DurationStrExample(d: int)
    requires d == 3700
    ensures DurationStr(d) == "1:61:40"
  {
    var total := d % 86400;
    assert total / 3600 == 1 && total / 60 == 61 && total % 60 == 40;
    ClockExample(total / 3600, total / 60, total % 60);
  }

  lemma ClockExample(h: nat, m: nat, s: nat)
    requires h == 1 && m == 61 && s == 40
    ensures Clock(h, m, s) == "1:61:40"
  {
    Pad2Of61(m);
    Pad2Of40(s);
    NatToStrOne(h);
    ClockParts(h, m, s, "1", "61", "40");
    ClockLiteral("1", "61", "40");
  }

  lemma ClockLiteral(a: string, b: string, c: string)
    requires a == "1" && b == "61" && c == "40"
    ensures a + ":" + b + ":" + c == "1:61:40"
  {
  }

  lemma NatToStrOne(h: nat)
    requires h == 1
    ensures NatToStr(h) == "1"
  {
  }

  lemma ClockParts(h: nat, m: nat, s: nat, a: string, b: string, c: string)
    requires h > 0 && NatToStr(h) == a && Pad2(m) == b && Pad2(s) == c
    ensures Clock(h, m, s) == a + ":" + b + ":" + c
  {
  }

  lemma Pad2Of61(m: nat)
    requires m == 61
    ensures Pad2(m) == "61"
  {
    assert NatToStr(m) == NatToStr(6) + [DigitChar(1)] == "61";
  }

  lemma Pad2Of40(s: nat)
    requires s == 40
    ensures Pad2(s) == "40"
  {
    assert NatToStr(s) == NatToStr(4) + [DigitChar(0)] == "40";
  }

  /** `str(song)`: a Markdown link to the video. */
  function SongStr(s: Song): string {
    "[" + s.title + "](" + s.webpageUrl + ")"
  }

  /** The title with its square brackets removed. */
  function NoBrackets(t: string): string {
    RemoveTwo(t, '[', ']')
  }

  /** The title shown by `truncstr`: cut to `maxChars` (Python slice `[:maxChars]`), marked with an ellipsis when cut, then stripped of square brackets. */
  function TruncTitle(title: string, maxChars: int): string {
    var cut := PySlice(title, 0, maxChars);
    NoBrackets(if |cut| < |title| then cut + "\U{2026}" else cut)
  }

  /**
   * What `truncstr` shows of a title without square brackets: the whole title when it fits in
   * `maxChars`; otherwise its first `maxChars` characters and an ellipsis; and for a negative
   * bound, as Python slicing reads it, all but the last `-maxChars` characters and an ellipsis.
   */
  lemma {:induction false} TruncTitleCases(title: string, maxChars: int)
    requires '[' !in title && ']' !in title
    ensures maxChars >= |title| ==> TruncTitle(title, maxChars) == title
    ensures 0 <= maxChars < |title| ==> TruncTitle(title, maxChars) == title[..maxChars] + "\U{2026}"
    ensures maxChars < 0 && |title| > 0 ==>
      TruncTitle(title, maxChars) == title[..if |title| + maxChars < 0 then 0 else |title| + maxChars] + "\U{2026}"
    ensures maxChars >= 0 ==> |TruncTitle(title, maxChars)| <= maxChars + 1
  {
    var cut := PySlice(title, 0, maxChars);
    var marked := if |cut| < |title| then cut + "\U{2026}" else cut;
    assert cut == title[..SliceBound(maxChars, |title|)];
    assert '[' !in marked && ']' !in marked by {
      assert forall i :: 0 <= i < |cut| ==> cut[i] == title[i];
    }
  }

  /** `Song.truncstr`: the link with its title truncated; without a bound it is `str(song)`. */
  function TruncStr(s: Song, maxChars: Option<int>): string {
    match maxChars
    case None => SongStr(s)
    case Some(m) => "[" + TruncTitle(s.title, m) + "](" + s.webpageUrl + ")"
  }

  /** A bound the title fits in gives the plain link, when the title has no square brackets. */
  lemma TruncStrFits(s: Song, m: int)
    requires '[' !in s.title && ']' !in s.title && m >= |s.title|
    ensures TruncStr(s, Some(m)) == SongStr(s)
  {
    TruncTitleCases(s.title, m);
  }

  /** Two songs are equal when they are the same video. */
  predicate SameSong(a: Song, b: Song) {
    a.id == b.id
  }

  // ------------------------------------------------------------- queue equality

  /** The comparison `all(self.at(i) == other.at(i) for i ...)` from index `i` on; `None` when `other.at` raises. */
  function EqualsFrom(a: seq<Song>, b: seq<Song>, i: nat): Option<bool>
    requires i <= |a|
    decreases |a| - i
  {
    if i == |a| then Some(|a| == |b|)
    else if i >= |b| then None
    else if !SameSong(a[i], b[i]) then Some(false)
    else EqualsFrom(a, b, i + 1)
  }

  /**
   * `SongQueue.__eq__`: position by position the songs are compared, stopping at the first
   * difference, and then the lengths; `None` stands for the `IndexError` that escapes when the
   * other queue is shorter and agrees with this one as far as it goes.
   */
  function QueueEquals(a: seq<Song>, b: seq<Song>): Option<bool> {
    EqualsFrom(a, b, 0)
  }

  lemma {:induction false} EqualsFromSpec(a: seq<Song>, b: seq<Song>, i: nat)
    requires i <= |a| && i <= |b|
    ensures EqualsFrom(a, b, i) == Some(true) <==>
      |a| == |b| && forall j :: i <= j < |a| ==> SameSong(a[j], b[j])
    ensures EqualsFrom(a, b, i) == None <==>
      |b| < |a| && forall j :: i <= j < |b| ==> SameSong(a[j], b[j])
    decreases |a| - i
  {
    if i < |a| && i < |b| && SameSong(a[i], b[i]) {
      EqualsFromSpec(a, b, i + 1);
    }
  }

  /** Two queues are equal exactly when they have the same length and the same video at every position; the comparison raises exactly when the other queue is a proper prefix. */
  lemma QueueEqualsSpec(a: seq<Song>, b: seq<Song>)
    ensures QueueEquals(a, b) == Some(true) <==>
      |a| == |b| && forall j :: 0 <= j < |a| ==> SameSong(a[j], b[j])
    ensures QueueEquals(a, b) == None <==>
      |b| < |a| && forall j :: 0 <= j < |b| ==> SameSong(a[j], b[j])
  {
    EqualsFromSpec(a, b, 0);
  }

  // ------------------------------------------------------------- specification of the queue operations

  /** The ids of the songs, in order: what `__repr__` writes. */
  function Ids(tracks: seq<Song>): (r: seq<string>)
    ensures |r| == |tracks|
    ensures forall i :: 0 <= i < |r| ==> r[i] == tracks[i].id
  {
    seq(|tracks|, i requires 0 <= i < |tracks| => tracks[i].id)
  }

  /** The search of `get_song_pos`: the lower-cased title contains the lower-cased search text. */
  predicate TitleMatches(s: Song, search: string) {
    Contains(Lower(s.title), Lower(search))
  }

  /** The songs `segment(start, end)` copies: positions `start` to `min(end, len)`, or none when `start` is out of range. */
  function SegmentOf(q: seq<Song>, start: int, end: int): (r: seq<Song>)
    ensures |r| == if 1 <= start <= |q| && start <= end then (if end < |q| then end else |q|) - start + 1 else 0
    ensures forall i :: 0 <= i < |r| ==> 1 <= start + i <= |q| && r[i] == q[start - 1 + i]
  {
    if 1 <= start <= |q| && start <= end then q[start - 1..if end < |q| then end else |q|] else []
  }

  /** `q` with the elements at indices `i` and `j` exchanged. */
  function Swapped(q: seq<Song>, i: nat, j: nat): (r: seq<Song>)
    requires i < |q| && j < |q|
    ensures |r| == |q| && r[i] == q[j] && r[j] == q[i]
    ensures forall k :: 0 <= k < |q| && k != i && k != j ==> r[k] == q[k]
  {
    q[i := q[j]][j := q[i]]
  }

  /** Where `shuffle(pos)` starts: `max(0, pos)`, as far as the queue goes. */
  function ShufflePoint(pos: int, n: nat): (p: nat)
    ensures p <= n
  {
    SliceBound(if pos < 0 then 0 else pos, n)
  }

  // ------------------------------------------------------------- the queue

  /** A queue of songs, addressed by track positions 1 to `|tracks|`. */
  class SongQueue {
    var tracks: seq<Song>
    var name: string

    /** A new empty queue; the name setter strips braces. */
    constructor(name0: string)
      ensures tracks == [] && name == SavedQueues.CleanName(name0)
    {
      tracks := [];
      name := SavedQueues.CleanName(name0);
    }

    /** The `name` setter. */
    method SetName(newName: string)
      modifies this
      ensures name == SavedQueues.CleanName(newName) && tracks == old(tracks)
    {
      name := SavedQueues.CleanName(newName);
    }

    /** `at(pos)`: the song at position `pos`, or `IndexError` outside `[1, len]`. */
    function At(pos: int): (r: Result<Song, QueueError>)
      reads this
      ensures r.Ok? <==> 1 <= pos <= |tracks|
      ensures r.Ok? ==> r.value == tracks[pos - 1]
      ensures r.Err? ==> r.error == IndexError(pos)
    {
      if pos < 1 || pos > |tracks| then Err(IndexError(pos)) else Ok(tracks[pos - 1])
    }

    /** `segment(start, end)`: a new unnamed queue of the songs at positions `start..end`, stopping at the first position out of range. */
    method Segment(start: int, end: int) returns (r: SongQueue)
      ensures fresh(r) && r.name == "" && r.tracks == SegmentOf(tracks, start, end)
    {
      r := new SongQueue("");
      var pos := start;
      while pos <= end
        invariant r != this && r.name == ""
        invariant pos == start || (1 <= start < pos <= end + 1 && pos - 1 <= |tracks|)
        invariant r.tracks == SegmentOf(tracks, start, pos - 1)
        decreases end - pos
      {
        var song := At(pos);
        if song.Err? {
          assert SegmentOf(tracks, start, pos - 1) == SegmentOf(tracks, start, end);
          break;
        }
        r.AddSong(song.value);
        pos := pos + 1;
      }
    }

    /** `add_song`: append at the end. */
    method AddSong(song: Song)
      modifies this
      ensures tracks == old(tracks) + [song] && name == old(name)
    {
      tracks := tracks + [song];
    }

    /** `get_song_pos(search)`: the first position whose title contains the search text, ignoring case. */
    method GetSongPos(search: string) returns (r: Option<int>)
      ensures r.Some? ==> 1 <= r.value <= |tracks| && TitleMatches(tracks[r.value - 1], search)
      ensures r.Some? ==> forall k :: 0 <= k < r.value - 1 ==> !TitleMatches(tracks[k], search)
      ensures r.None? ==> forall k :: 0 <= k < |tracks| ==> !TitleMatches(tracks[k], search)
    {
      var key := Lower(search);
      var pos := 1;
      while pos <= |tracks|
        invariant 1 <= pos <= |tracks| + 1
        invariant forall k :: 0 <= k < pos - 1 ==> !TitleMatches(tracks[k], search)
      {
        if Contains(Lower(tracks[pos - 1].title), key) {
          return Some(pos);
        }
        pos := pos + 1;
      }
      return None;
    }

    /** `pop_song(pos)`: validated through `at`, then removed from the queue. */
    method PopSong(pos: int) returns (r: Result<Song, QueueError>)
      modifies this
      ensures r == old(At(pos)) && name == old(name)
      ensures r.Ok? ==> tracks == old(tracks[..pos - 1] + tracks[pos..])
      ensures r.Err? ==> tracks == old(tracks)
    {
      r := At(pos);
      if r.Ok? {
        tracks := tracks[..pos - 1] + tracks[pos..];
      }
    }

    /** `pop_range(pos1, pos2)`: remove and return the slice `[pos1 - 1:pos2]`, with Python's slice bounds. */
    method PopRange(pos1: int, pos2: int) returns (songs: seq<Song>)
      modifies this
      ensures var r := SliceRange(pos1 - 1, pos2, |old(tracks)|);
        songs == old(tracks)[r.0..r.1] && tracks == old(tracks)[..r.0] + old(tracks)[r.1..]
      ensures name == old(name)
    {
      var r := SliceRange(pos1 - 1, pos2, |tracks|);
      songs := tracks[r.0..r.1];
      tracks := tracks[..r.0] + tracks[r.1..];
    }

    /** `clear_queue`: empty the queue and report how many songs it held. */
    method ClearQueue() returns (num: int)
      modifies this
      ensures num == |old(tracks)| && tracks == [] && name == old(name)
    {
      num := |tracks|;
      tracks := [];
    }

    /** `swap_pos(pos1, pos2)`: both positions are validated through `at` before the two songs change places. */
    method SwapPos(pos1: int, pos2: int) returns (r: Result<(Song, Song), QueueError>)
      modifies this
      ensures name == old(name)
      ensures old(At(pos1)).Err? ==> r == Err(IndexError(pos1)) && tracks == old(tracks)
      ensures old(At(pos1)).Ok? && old(At(pos2)).Err? ==> r == Err(IndexError(pos2)) && tracks == old(tracks)
      ensures old(At(pos1)).Ok? && old(At(pos2)).Ok? ==>
        r == Ok((old(tracks[pos1 - 1]), old(tracks[pos2 - 1]))) && tracks == Swapped(old(tracks), pos1 - 1, pos2 - 1)
    {
      var a := At(pos1);
      if a.Err? {
        return Err(a.error);
      }
      var b := At(pos2);
      if b.Err? {
        return Err(b.error);
      }
      r := Ok((a.value, b.value));
      var temp := tracks[pos1 - 1];
      tracks := tracks[pos1 - 1 := tracks[pos2 - 1]];
      tracks := tracks[pos2 - 1 := temp];
    }

    /** `shuffle(pos)`: the songs after position `max(0, pos)` are put in an arbitrary order. */
    method Shuffle(pos: int)
      modifies this
      ensures var p := ShufflePoint(pos, |old(tracks)|);
        |tracks| == |old(tracks)| && tracks[..p] == old(tracks)[..p]
        && multiset(tracks[p..]) == multiset(old(tracks)[p..])
      ensures name == old(name)
    {
      var p := ShufflePoint(pos, |tracks|);
      var tail :| multiset(tail) == multiset(tracks[p..]);
      tracks := tracks[..p] + tail;
      assert tracks[p..] == tail;
    }

    /** `__repr__`: the saved-queue block for this queue. */
    function ReprText(): string
      reads this
    {
      SavedQueues.Repr(name, Ids(tracks))
    }
  }

  // ------------------------------------------------------------- properties of the queue operations

  /** Popping position `pos` keeps the other songs in their order and loses exactly that one. */
  lemma PopSongSpec(q: seq<Song>, pos: int)
    requires 1 <= pos <= |q|
    ensures var r := q[..pos - 1] + q[pos..];
      && |r| == |q| - 1
      && (forall k :: 0 <= k < pos - 1 ==> r[k] == q[k])
      && (forall k :: pos - 1 <= k < |r| ==> r[k] == q[k + 1])
      && multiset(r) + multiset{q[pos - 1]} == multiset(q)
  {
    var r := q[..pos - 1] + q[pos..];
    assert q == q[..pos - 1] + [q[pos - 1]] + q[pos..];
    assert multiset(q) == multiset(q[..pos - 1]) + multiset{q[pos - 1]} + multiset(q[pos..]);
  }

  /** `pop_range` splits the queue into what stays before, what it returns, and what stays after. */
  lemma PopRangeSplit(q: seq<Song>, pos1: int, pos2: int)
    ensures var r := SliceRange(pos1 - 1, pos2, |q|);
      q == q[..r.0] + q[r.0..r.1] + q[r.1..]
  {
  }

  /** From a valid first position and a non-negative last one, `pop_range` returns the songs `segment` would copy: positions `pos1` to `min(pos2, len)`. */
  lemma PopRangeIsSegment(q: seq<Song>, pos1: int, pos2: int)
    requires pos1 >= 1 && pos2 >= 0
    ensures var r := SliceRange(pos1 - 1, pos2, |q|);
      q[r.0..r.1] == SegmentOf(q, pos1, pos2)
  {
    var r := SliceRange(pos1 - 1, pos2, |q|);
    var g := SegmentOf(q, pos1, pos2);
    assert |q[r.0..r.1]| == |g|;
  }

  /** A negative last position counts from the end: `pop_range(1, -1)` takes every song but the last. */
  lemma PopRangeNegativeEnd(q: seq<Song>)
    requires |q| >= 1
    ensures var r := SliceRange(1 - 1, -1, |q|);
      q[r.0..r.1] == q[..|q| - 1] && SegmentOf(q, 1, -1) == []
  {
  }

  /** With a first position of 0 the slice starts at index -1, the last song: `pop_range(0, len)` removes only the last song. */
  lemma PopRangeFromZero(q: seq<Song>, pos2: int)
    requires |q| >= 1 && pos2 >= |q|
    ensures var r := SliceRange(0 - 1, pos2, |q|);
      q[r.0..r.1] == [q[|q| - 1]] && q[..r.0] + q[r.1..] == q[..|q| - 1]
  {
  }

  /** Swapping is undone by swapping again. */
  lemma SwappedTwice(q: seq<Song>, i: nat, j: nat)
    requires i < |q| && j < |q|
    ensures Swapped(Swapped(q, i, j), i, j) == q
  {
    var r := Swapped(Swapped(q, i, j), i, j);
    assert forall k :: 0 <= k < |q| ==> r[k] == q[k];
  }

  /** Swapping never changes which songs are queued. */
  lemma SwappedSameSongs(q: seq<Song>, i: nat, j: nat)
    requires i < |q| && j < |q|
    ensures multiset(Swapped(q, i, j)) == multiset(q)
  {
    var u := q[i := q[j]];
    assert multiset(u) == multiset(q) - multiset{q[i]} + multiset{q[j]};
    assert multiset(u[j := q[i]]) == multiset(u) - multiset{u[j]} + multiset{q[i]};
  }

  /** Shuffling from any position keeps the same songs. */
  lemma ShuffleSameSongs(q: seq<Song>, r: seq<Song>, p: nat)
    requires p <= |q| && |r| == |q| && r[..p] == q[..p] && multiset(r[p..]) == multiset(q[p..])
    ensures multiset(r) == multiset(q)
  {
    assert q == q[..p] + q[p..];
    assert r == r[..p] + r[p..];
  }

  /** What `__repr__` writes, the lookup under the same name reads back: the name and exactly the ids, none for an empty queue. */
  lemma ReprRoundTrip(name: string, tracks: seq<Song>)
    requires SavedQueues.ValidName(name) && SavedQueues.ValidIds(Ids(tracks))
    ensures SavedQueues.GetSavedContents(SavedQueues.Repr(name, Ids(tracks)), name) == SavedQueues.Saved(name, Ids(tracks))
  {
    SavedQueues.GetSavedContentsRepr(name, Ids(tracks), name);
  }
}
