// The paging arithmetic of the `%queue` message: ten tracks per page, the page the message
// opens on, the arrow reactions and the page index each of them moves to.

module Paging {
  import opened Wrappers
  import opened Text
  import opened Songs

  // ------------------------------------------------------------- page count

  /** `num_pages = (n - 1) // 10 + 1`: the number of ten-track pages `n` tracks fill. */
  function NumPages(n: nat): (r: int)
    ensures n == 0 ==> r == 0
    ensures n > 0 ==> 1 <= r && 10 * (r - 1) < n <= 10 * r
  {
    assert 10 * ((n - 1) / 10) + (n - 1) % 10 == n - 1;
    (n - 1) / 10 + 1
  }

  /** How many pages `get_queue_pages` returns: one page even for an empty queue. */
  function PageCount(n: nat): (r: nat)
    ensures r >= 1
    ensures n > 0 ==> r == NumPages(n)
  {
    if n == 0 then 1 else NumPages(n)
  }

  // ------------------------------------------------------------- page contents

  /** One line of a page: the track's position, its song, and whether it is the current track. */
  datatype Line = Line(pos: nat, song: Song, current: bool)

  /** The text of a line without the highlight: `"{pos}) {truncstr(50)} | {duration}"`. */
  function LineBody(l: Line): string {
    NatToStr(l.pos) + ") " + TruncStr(l.song, Some(50)) + " | " + DurationStr(l.song.duration)
  }

  /** The text of a line: its body, in bold with a pointer for the current track. */
  function LineText(l: Line): (r: string)
    ensures |r| >= 2 && (l.current <==> r[..2] == "**")
  {
    NatToStrDigits(l.pos);
    assert LineBody(l)[0] == NatToStr(l.pos)[0];
    if l.current then "**" + LineBody(l) + "** \U{1F448}" else LineBody(l)
  }

  /** The number before the first `)` of a line's body reads back as the track position. */
  lemma LineBodyNumber(l: Line)
    ensures var n := |NatToStr(l.pos)|;
      && FirstIndex(LineBody(l), ')') == Some(n)
      && AllDigits(LineBody(l)[..n])
      && ParseNat(LineBody(l)[..n]) == l.pos
  {
    NatToStrDigits(l.pos);
    var n := NatToStr(l.pos);
    var body := LineBody(l);
    assert body[..|n|] == n;
    assert body[|n|] == ')';
    forall j | 0 <= j < |n|
      ensures body[j] != ')'
    {
      assert body[j] == n[j] && IsDigit(n[j]);
    }
    FirstIndexIs(body, ')', |n|);
  }

  /** The highlight of the current track is a frame around the body that can be taken off again. */
  lemma LineTextFrame(l: Line)
    ensures var r := LineText(l);
      && |r| >= 4
      && (l.current ==> r == "**" + r[2..|r| - 4] + "** \U{1F448}" && r[2..|r| - 4] == LineBody(l))
      && (!l.current ==> r == LineBody(l))
  {
    NatToStrDigits(l.pos);
    var r := LineText(l);
    if l.current {
      assert r == "**" + LineBody(l) + "** \U{1F448}";
      assert r[2..|r| - 4] == LineBody(l);
    }
  }

  /**
   * A line shows the track number, `) `, the song's link cut to 50 title characters, ` | ` and
   * the duration, wrapped in bold with a pointer for the current track; the number before the
   * first `)` reads back as the track position.
   */
  lemma LineTextParts(l: Line)
    ensures var r := LineText(l);
      var body := if l.current then r[2..|r| - 4] else r;
      && |r| >= 4
      && (l.current ==> r == "**" + body + "** \U{1F448}")
      && body == NatToStr(l.pos) + ") " + TruncStr(l.song, Some(50)) + " | " + DurationStr(l.song.duration)
      && FirstIndex(body, ')') == Some(|NatToStr(l.pos)|)
      && AllDigits(body[..|NatToStr(l.pos)|])
      && ParseNat(body[..|NatToStr(l.pos)|]) == l.pos
  {
    LineTextFrame(l);
    LineBodyNumber(l);
  }

  /**
   * What `format_queue_page(start)` shows: a line per track of `segment(start, start + 9)`,
   * the page number `start // 10 + 1`, the page count, and whether the footer says the queue
   * ends on this page.
   */
  datatype Page =
    | EmptyQueuePage
    | QueuePage(lines: seq<Line>, pageNum: int, numPages: int, atEnd: bool)

  /** The lines for the songs `seg` numbered from `start`, with the player at `pos`. */
  function PageLines(seg: seq<Song>, start: nat, pos: int): (r: seq<Line>)
    ensures |r| == |seg|
    ensures forall i :: 0 <= i < |seg| ==> r[i] == Line(start + i, seg[i], start + i == pos)
  {
    seq(|seg|, i requires 0 <= i < |seg| => Line(start + i, seg[i], start + i == pos))
  }

  /** The page of queue `q` starting at track `start`, with the player at `pos`. */
  function PageOf(q: seq<Song>, pos: int, start: nat): Page {
    var pageNum := start / 10 + 1;
    QueuePage(PageLines(SegmentOf(q, start, start + 9), start, pos), pageNum, NumPages(|q|), pageNum == NumPages(|q|))
  }

  /** The pages `get_queue_pages` builds: one per ten tracks, starting at tracks 1, 11, 21, ... */
  function QueuePages(q: seq<Song>, pos: int): (r: seq<Page>)
    ensures |r| == PageCount(|q|)
  {
    if |q| == 0 then [EmptyQueuePage]
    else seq(NumPages(|q|), k requires 0 <= k < NumPages(|q|) => PageOf(q, pos, 10 * k + 1))
  }

  /** Page `k` is numbered `k + 1` of `|pages|`, and only the last page says the queue ends there. */
  lemma PagesNumbered(q: seq<Song>, pos: int, k: nat)
    requires |q| > 0 && k < |QueuePages(q, pos)|
    ensures QueuePages(q, pos)[k].QueuePage?
    ensures QueuePages(q, pos)[k].pageNum == k + 1
    ensures QueuePages(q, pos)[k].numPages == |QueuePages(q, pos)|
    ensures QueuePages(q, pos)[k].atEnd <==> k == |QueuePages(q, pos)| - 1
  {
    assert (10 * k + 1) / 10 == k;
  }

  /** Page `k` holds ten tracks, except the last, which holds the rest. */
  lemma PageSize(q: seq<Song>, pos: int, k: nat)
    requires |q| > 0 && k < |QueuePages(q, pos)|
    ensures |QueuePages(q, pos)[k].lines| == if |q| - 10 * k < 10 then |q| - 10 * k else 10
  {
  }

  /**
   * Every track is on exactly one page: track `p` is line `(p - 1) % 10` of page `(p - 1) // 10`,
   * and that line is marked exactly when `p` is the player's position.
   */
  lemma TrackOnPage(q: seq<Song>, pos: int, p: int)
    requires 1 <= p <= |q|
    ensures var page := QueuePages(q, pos)[(p - 1) / 10];
      page.QueuePage? && (p - 1) % 10 < |page.lines| &&
      page.lines[(p - 1) % 10] == Line(p, q[p - 1], p == pos)
  {
    var k := (p - 1) / 10;
    assert 10 * k + (p - 1) % 10 == p - 1;
    assert k < NumPages(|q|);
  }

  // ------------------------------------------------------------- the page `%queue` opens on

  /** `init_index = (min(pos, n) - 1) // 10`; -1 when the player is before the first track. */
  function InitIndex(pos: int, n: nat): int {
    ((if pos < n then pos else n) - 1) / 10
  }

  /** Python's `pages[i]`: negative indices count from the end; `None` is the `IndexError`. */
  function PyIndex(i: int, len: nat): (r: Option<nat>)
    ensures r.Some? <==> -(len as int) <= i < len
    ensures r.Some? ==> r.value < len && (r.value == i || r.value == i + len)
  {
    if 0 <= i < len then Some(i) else if -(len as int) <= i < 0 then Some(i + len) else None
  }

  /**
   * The page `%queue` opens on exists for every position from -9 on, which includes every
   * position a valid player holds (`Player.ValidState` keeps `pos >= -1`). It is the page with
   * the current track when the player is inside the queue, and the last page otherwise.
   */
  lemma InitIndexShown(pos: int, n: nat)
    requires pos >= -9
    ensures PyIndex(InitIndex(pos, n), PageCount(n)).Some?
    ensures 1 <= pos <= n ==>
      PyIndex(InitIndex(pos, n), PageCount(n)).value == (pos - 1) / 10 && InitIndex(pos, n) == (pos - 1) / 10
    ensures !(1 <= pos <= n) ==> PyIndex(InitIndex(pos, n), PageCount(n)).value == PageCount(n) - 1
  {
    var m := if pos < n then pos else n;
    if m >= 1 {
      assert 10 * ((m - 1) / 10) + (m - 1) % 10 == m - 1;
      assert (m - 1) / 10 < NumPages(n);
      if m == n {
        assert 10 * ((n - 1) / 10) + (n - 1) % 10 == n - 1;
      }
    } else {
      assert (m - 1) / 10 == -1;
    }
  }

  // ------------------------------------------------------------- arrows

  /** The reactions `%queue` reacts to: 🔄 ⏫ ⬆ ⬇ ⏬, and any other emoji. */
  datatype Reaction = Refresh | Top | Up | Down | Bottom | OtherEmoji

  /** The arrows a message with `count` pages needs: 🔄 always, ⬆⬇ from two pages, ⏫⏬ from three. */
  function ArrowSet(count: nat): set<Reaction> {
    {Refresh} + (if count > 1 then {Up, Down} else {}) + (if count > 2 then {Top, Bottom} else {})
  }

  /** The reactions `%queue` adds to its message, in order. */
  function QueueArrows(count: nat): (r: seq<Reaction>)
    ensures forall a :: a in r <==> a in ArrowSet(count)
    ensures forall i, j :: 0 <= i < j < |r| ==> r[i] != r[j]
  {
    [Refresh] + (if count > 2 then [Top] else []) + (if count > 1 then [Up, Down] else [])
      + (if count > 2 then [Bottom] else [])
  }

  /**
   * `update_arrows` with the bot's reactions `present` and `count` pages: from three pages on,
   * a message missing ⏫ or ⏬ gets the whole set anew; at two pages ⬆⬇ are added.
   */
  function UpdateArrows(present: set<Reaction>, count: nat): set<Reaction> {
    if count > 2 then
      (if Top in present && Bottom in present then present else {Refresh, Top, Up, Down, Bottom})
    else if count > 1 then present + {Up, Down}
    else present
  }

  /** Starting from the arrows of `c0` pages, the update leaves the arrows of the larger count: arrows are added as pages grow and never removed. */
  lemma UpdateArrowsGrow(c0: nat, c: nat)
    ensures UpdateArrows(ArrowSet(c0), c) == ArrowSet(if c0 < c then c else c0)
  {
  }

  // ------------------------------------------------------------- navigation

  /** The index an arrow moves to from `index` among `count` pages; `None` for an ignored emoji. */
  function Navigate(r: Reaction, index: int, count: nat): Option<int>
    requires r != Refresh
  {
    match r
    case Up => Some(if index - 1 < 0 then 0 else index - 1)
    case Down => Some(if count - 1 < index + 1 then count - 1 else index + 1)
    case Top => Some(0)
    case Bottom => Some(count - 1)
    case OtherEmoji => None
  }

  /**
   * One turn of `queue_listener_loop`: the new page index and page count after reaction `r`,
   * with the player at `pos` in a queue of `n` tracks; 🔄 rebuilds the pages and goes back to
   * the opening index. `None` means the emoji is ignored.
   */
  function ListenerStep(r: Reaction, index: int, count: nat, pos: int, n: nat): Option<(int, nat)> {
    if r == Refresh then Some((InitIndex(pos, n), PageCount(n)))
    else match Navigate(r, index, count)
      case None => None
      case Some(i) => Some((i, count))
  }

  /**
   * For every position from -9 on, `pages[current_index]` never raises: an index the listener
   * holds (the opening index, or one an arrow produced) always names a page, so every step
   * keeps it valid.
   */
  lemma ListenerStepValid(r: Reaction, index: int, count: nat, pos: int, n: nat)
    requires count >= 1 && PyIndex(index, count).Some? && pos >= -9
    ensures var s := ListenerStep(r, index, count, pos, n);
      s.Some? ==> s.value.1 >= 1 && PyIndex(s.value.0, s.value.1).Some?
    ensures ListenerStep(r, index, count, pos, n).None? <==> r == OtherEmoji
  {
    if r == Refresh {
      InitIndexShown(pos, n);
    }
  }

  /** From a page shown by a non-negative index, ⬆ and ⬇ move one page and stop at the ends; ⏫ and ⏬ go to the first and last page. */
  lemma NavigateClamps(index: int, count: nat)
    requires 0 <= index < count
    ensures Navigate(Up, index, count) == Some(if index == 0 then 0 else index - 1)
    ensures Navigate(Down, index, count) == Some(if index == count - 1 then index else index + 1)
    ensures Navigate(Top, index, count) == Some(0) && Navigate(Bottom, index, count) == Some(count - 1)
  {
  }

  /**
   * As written, an index of -1 (the last page, shown when the player is before the first track)
   * is clamped as if it were before the first page: with two or more pages ⬆ and ⬇ both go to
   * the first page, although the last page is the one on screen.
   */
  lemma NavigateFromLastAlias(count: nat)
    requires count >= 2
    ensures PyIndex(-1, count) == Some(count - 1)
    ensures Navigate(Up, -1, count) == Some(0) && Navigate(Down, -1, count) == Some(0)
  {
  }

  /** Navigation relative to the page on screen: the index is resolved as `pages[index]` resolves it before it moves. */
  function NavigateShown(r: Reaction, index: int, count: nat): Option<int>
    requires r != Refresh && PyIndex(index, count).Some?
  {
    Navigate(r, PyIndex(index, count).value, count)
  }

  /** With the index resolved first, ⬆ and ⬇ move one page from the page on screen, for every index the listener holds. */
  lemma NavigateShownClamps(r: Reaction, index: int, count: nat)
    requires r != Refresh && PyIndex(index, count).Some?
    ensures var shown := PyIndex(index, count).value;
      (r == Up ==> NavigateShown(r, index, count) == Some(if shown == 0 then 0 else shown - 1)) &&
      (r == Down ==> NavigateShown(r, index, count) == Some(if shown == count - 1 then shown else shown + 1))
    ensures 0 <= index ==> NavigateShown(r, index, count) == Navigate(r, index, count)
  {
  }
}
