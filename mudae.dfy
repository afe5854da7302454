// The Mudae cog's parsing rules: the date formats `%exchanges` tries, the claim count read
// from Mudae's `$left` reply, the message-count clamp, and the year fix-up of a parsed date.

module Mudae {
  import opened Wrappers
  import opened Text

  // ------------------------------------------------------------------ date formats

  /** The seven formats every other one extends: a month and a day, at least. */
  const BaseFormats: seq<string> := ["%m/%d", "%m/%d", "%m-%d", "%m-%d", "%b %d", "%d %b %y", "%d %b"]

  /** The year endings added to each base format. */
  const YearSuffixes: seq<string> := ["/%Y", "/%y", "-%Y", "-%y", " %Y", " %y", ", %Y", ", %y"]

  /** The time endings added to each format so far. */
  const TimeSuffixes: seq<string> := [" %H", " %H:%M", " %H:%M:%S"]

  /** `fmt` with each suffix appended, in order: the tuple one `extend` call adds. */
  function Block(fmt: string, suffixes: seq<string>): (r: seq<string>)
    ensures |r| == |suffixes|
    ensures forall j :: 0 <= j < |suffixes| ==> r[j] == fmt + suffixes[j]
  {
    seq(|suffixes|, j requires 0 <= j < |suffixes| => fmt + suffixes[j])
  }

  /** The blocks of all of `fmts`, one after another. */
  function Suffixed(fmts: seq<string>, suffixes: seq<string>): seq<string> {
    if fmts == [] then [] else Block(fmts[0], suffixes) + Suffixed(fmts[1..], suffixes)
  }

  /** What one loop of `datetime_formats` leaves: the formats, then each one's block in turn. */
  function Extended(fmts: seq<string>, suffixes: seq<string>): seq<string> {
    fmts + Suffixed(fmts, suffixes)
  }

  /** The list `datetime_formats` returns. */
  function DatetimeFormatList(): seq<string> {
    Extended(Extended(BaseFormats, YearSuffixes), TimeSuffixes)
  }

  /** Extending by one more format appends that format's block. */
  lemma {:induction false} SuffixedSnoc(fmts: seq<string>, f: string, suffixes: seq<string>)
    ensures Suffixed(fmts + [f], suffixes) == Suffixed(fmts, suffixes) + Block(f, suffixes)
    decreases |fmts|
  {
    if fmts == [] {
      assert fmts + [f] == [f];
    } else {
      assert (fmts + [f])[1..] == fmts[1..] + [f];
      SuffixedSnoc(fmts[1..], f, suffixes);
    }
  }

  lemma {:induction false} SuffixedLength(fmts: seq<string>, suffixes: seq<string>)
    ensures |Suffixed(fmts, suffixes)| == |fmts| * |suffixes|
    decreases |fmts|
  {
    if fmts != [] {
      SuffixedLength(fmts[1..], suffixes);
      assert |Suffixed(fmts, suffixes)| == |suffixes| + |Suffixed(fmts[1..], suffixes)|;
      assert |fmts| * |suffixes| == |suffixes| + (|fmts| - 1) * |suffixes|;
    }
  }

  /** `s` begins with one of `bases`. */
  predicate StartsWithOneOf(s: string, bases: seq<string>) {
    exists b :: b in bases && b <= s
  }

  /** Every format in the blocks of `fmts` begins with one of `fmts`. */
  lemma {:induction false} SuffixedPrefix(fmts: seq<string>, suffixes: seq<string>)
    ensures forall x :: x in Suffixed(fmts, suffixes) ==> StartsWithOneOf(x, fmts)
    decreases |fmts|
  {
    if fmts != [] {
      SuffixedPrefix(fmts[1..], suffixes);
      forall x | x in Suffixed(fmts, suffixes)
        ensures StartsWithOneOf(x, fmts)
      {
        if x in Block(fmts[0], suffixes) {
          var j :| 0 <= j < |suffixes| && Block(fmts[0], suffixes)[j] == x;
          assert fmts[0] <= x && fmts[0] in fmts;
        } else {
          assert x in Suffixed(fmts[1..], suffixes);
          var b :| b in fmts[1..] && b <= x;
          assert b in fmts;
        }
      }
    }
  }

  /** Every format of an extended list begins with one of the formats it extends, which come first. */
  lemma ExtendedPrefix(fmts: seq<string>, suffixes: seq<string>)
    ensures Extended(fmts, suffixes)[..|fmts|] == fmts
    ensures forall x :: x in Extended(fmts, suffixes) ==> StartsWithOneOf(x, fmts)
  {
    SuffixedPrefix(fmts, suffixes);
    forall x | x in fmts
      ensures StartsWithOneOf(x, fmts)
    {
      assert x <= x;
    }
  }

  /** A prefix of a prefix. */
  lemma StartsWithTransitive(x: string, mid: seq<string>, bases: seq<string>)
    requires StartsWithOneOf(x, mid)
    requires forall m :: m in mid ==> StartsWithOneOf(m, bases)
    ensures StartsWithOneOf(x, bases)
  {
    var m :| m in mid && m <= x;
    var b :| b in bases && b <= m;
    assert b <= x;
  }

  /**
   * 7 base formats, 56 with a year, then 3 times as many with a time: 252 formats, the first
   * seven being the bases (duplicates kept), and every one starting with a base format, so every
   * one reads at least a month and a day.
   */
  lemma DatetimeFormatsShape()
    ensures |DatetimeFormatList()| == 252
    ensures DatetimeFormatList()[..7] == BaseFormats
    ensures forall f :: f in DatetimeFormatList() ==> StartsWithOneOf(f, BaseFormats)
  {
    var years := Extended(BaseFormats, YearSuffixes);
    SuffixedLength(BaseFormats, YearSuffixes);
    SuffixedLength(years, TimeSuffixes);
    ExtendedPrefix(BaseFormats, YearSuffixes);
    ExtendedPrefix(years, TimeSuffixes);
    assert DatetimeFormatList()[..7] == years[..7];
    forall f | f in DatetimeFormatList()
      ensures StartsWithOneOf(f, BaseFormats)
    {
      StartsWithTransitive(f, years, BaseFormats);
    }
  }

  /** `datetime_formats`: the base list, extended by year endings, then by time endings, each loop over a copy. */
  method DatetimeFormats() returns (formats: seq<string>)
    ensures formats == DatetimeFormatList()
  {
    formats := BaseFormats;
    formats := ExtendAll(formats, YearSuffixes);
    formats := ExtendAll(formats, TimeSuffixes);
  }

  /** One loop of `datetime_formats`: for each format of a copy of the list, extend the list by its block. */
  method ExtendAll(fmts: seq<string>, suffixes: seq<string>) returns (formats: seq<string>)
    ensures formats == Extended(fmts, suffixes)
  {
    formats := fmts;
    var copy := fmts;
    var i := 0;
    while i < |copy|
      invariant 0 <= i <= |copy|
      invariant formats == copy + Suffixed(copy[..i], suffixes)
    {
      var fmt := copy[i];
      SuffixedSnoc(copy[..i], fmt, suffixes);
      assert copy[..i + 1] == copy[..i] + [fmt];
      formats := formats + Block(fmt, suffixes);
      i := i + 1;
    }
    assert copy[..i] == copy;
  }

  // ------------------------------------------------------------------ chars_claimed

  /** The literal text before the count in `claimed:\*\* (\d+)/`. */
  const ClaimedTag: string := "claimed:** "

  /** The count of a match of `claimed:** <digits>/` starting at index `i`, if one starts there. */
  function ClaimedAt(s: string, i: nat): Option<nat>
    requires i <= |s|
  {
    var d := i + |ClaimedTag|;
    if d <= |s| && s[i..d] == ClaimedTag then
      var e := DigitRunEnd(s, d);
      if d < e < |s| && s[e] == '/' then Some(ParseNat(s[d..e])) else None
    else None
  }

  /** Where the leftmost match at or after `i` starts, as `search` finds it. */
  function FirstClaimed(s: string, i: nat): (r: Option<nat>)
    requires i <= |s|
    ensures r.None? <==> forall j :: i <= j <= |s| ==> ClaimedAt(s, j).None?
    ensures r.Some? ==> i <= r.value <= |s| && ClaimedAt(s, r.value).Some?
    ensures r.Some? ==> forall k :: i <= k < r.value ==> ClaimedAt(s, k).None?
    decreases |s| - i
  {
    if ClaimedAt(s, i).Some? then Some(i)
    else if i == |s| then None
    else FirstClaimed(s, i + 1)
  }

  /**
   * `chars_claimed`: for a message by Mudae, the count in its first `claimed:** <n>/`; `None` for
   * any other author or a message without that text.
   */
  function CharsClaimed(authorId: nat, content: string, mudaeId: nat): (r: Option<nat>)
    ensures authorId != mudaeId ==> r.None?
    ensures authorId == mudaeId ==> (r.None? <==> forall j :: 0 <= j <= |content| ==> ClaimedAt(content, j).None?)
    ensures r.Some? ==> exists j :: (0 <= j <= |content| && ClaimedAt(content, j) == r &&
      forall k :: 0 <= k < j ==> ClaimedAt(content, k).None?)
  {
    if authorId != mudaeId then None
    else match FirstClaimed(content, 0)
      case None => None
      case Some(j) => ClaimedAt(content, j)
  }

  /** Mudae's `$left` reply reports the count it shows, whatever text without `c` comes before it. */
  lemma CharsClaimedRoundTrip(before: string, n: nat, after: string, mudaeId: nat)
    requires forall i :: 0 <= i < |before| ==> before[i] != 'c'
    ensures CharsClaimed(mudaeId, before + ClaimedTag + NatToStr(n) + "/" + after, mudaeId) == Some(n)
  {
    var s := before + ClaimedTag + NatToStr(n) + "/" + after;
    ClaimedAfter(s, before, n, after);
    NoClaimBefore(s, before);
    FirstClaimedAt(s, 0, |before|);
    assert CharsClaimed(mudaeId, s, mudaeId) == ClaimedAt(s, |before|);
  }

  lemma NoClaimBefore(s: string, before: string)
    requires before <= s
    requires forall i :: 0 <= i < |before| ==> before[i] != 'c'
    ensures forall j :: 0 <= j < |before| ==> ClaimedAt(s, j).None?
  {
    forall j | 0 <= j < |before|
      ensures ClaimedAt(s, j).None?
    {
      assert s[j] == before[j];
    }
  }

  lemma ClaimedAfter(s: string, before: string, n: nat, after: string)
    requires s == before + ClaimedTag + NatToStr(n) + "/" + after
    ensures before <= s && ClaimedAt(s, |before|) == Some(n)
  {
    var digits := NatToStr(n);
    NatToStrDigits(n);
    var d := |before| + |ClaimedTag|;
    var e := d + |digits|;
    assert s == (before + ClaimedTag) + digits + ("/" + after);
    assert s[|before|..d] == ClaimedTag;
    assert s[d..e] == digits;
    assert s[e] == '/';
    assert IsDigit(digits[0]);
    DigitRunStops(s, d, e);
  }

  /** A run of digits followed by a non-digit ends there. */
  lemma {:induction false} DigitRunStops(s: string, i: nat, e: nat)
    requires i <= e < |s| && AllDigits(s[i..e]) && !IsDigit(s[e])
    ensures DigitRunEnd(s, i) == e
    decreases e - i
  {
    if i < e {
      assert IsDigit(s[i..e][0]);
      assert s[i + 1..e] == s[i..e][1..];
      DigitRunStops(s, i + 1, e);
    }
  }

  lemma {:induction false} FirstClaimedAt(s: string, i: nat, j: nat)
    requires i <= j <= |s| && ClaimedAt(s, j).Some?
    requires forall k :: i <= k < j ==> ClaimedAt(s, k).None?
    ensures FirstClaimed(s, i) == Some(j)
    decreases j - i
  {
    if i < j {
      FirstClaimedAt(s, i + 1, j);
    }
  }

  // ------------------------------------------------------------------ exchanges

  /** `max(1, min(1000, num_messages))`: how many messages `%exchanges` reads. */
  function ClampMessages(n: int): (r: int)
    ensures 1 <= r <= 1000
    ensures 1 <= n <= 1000 ==> r == n
    ensures n < 1 ==> r == 1
    ensures n > 1000 ==> r == 1000
  {
    if n > 1000 then 1000 else if n < 1 then 1 else n
  }

  function Distance(a: int, b: int): nat {
    if a < b then b - a else a - b
  }

  /** Clamping is idempotent, and the clamped count is the allowed count nearest the requested one. */
  lemma ClampMessagesNearest(n: int, m: int)
    requires 1 <= m <= 1000
    ensures ClampMessages(ClampMessages(n)) == ClampMessages(n)
    ensures Distance(n, ClampMessages(n)) <= Distance(n, m)
  {
  }

  /** A date as `strptime` returns it. */
  datatype DateTime = DateTime(year: int, month: int, day: int, hour: int, minute: int, second: int)

  predicate LeapYear(y: int) {
    y % 4 == 0 && (y % 100 != 0 || y % 400 == 0)
  }

  /** The earliest year `%exchanges` keeps: Discord did not exist before 2015. */
  const DiscordEpochYear: int := 2015

  /**
   * The fix-up of a parsed date: a year before 2015 (no year given parses as 1900) becomes the
   * current year. `replace` raises ValueError for 29 February when the current year is not a
   * leap year (`None`).
   */
  function FixYear(d: DateTime, nowYear: int): (r: Option<DateTime>)
    ensures d.year >= DiscordEpochYear ==> r == Some(d)
    ensures d.year < DiscordEpochYear && r.Some? ==> r.value == d.(year := nowYear)
    ensures r.None? <==> d.year < DiscordEpochYear && d.month == 2 && d.day == 29 && !LeapYear(nowYear)
  {
    if d.year < DiscordEpochYear then
      if d.month == 2 && d.day == 29 && !LeapYear(nowYear) then None else Some(d.(year := nowYear))
    else Some(d)
  }

  /** What the argument loop of `%exchanges` leaves in `before`: a date, `None`, or an exception that escapes the command. */
  datatype BeforeArg = BeforeDate(date: DateTime) | NoBefore | BeforeRaises

  /**
   * The argument loop as written. `before` is rebound to the parsed date before the fix-up, so
   * once a fix-up raises ValueError, the next format's `strptime` receives a datetime and raises
   * TypeError, which the loop does not catch. Only when that format was the last does the
   * `for`-`else` set `None`.
   */
  function ParseBeforeOutcome(parses: seq<Option<DateTime>>, nowYear: int): BeforeArg {
    if parses == [] then NoBefore
    else if parses[0].None? then ParseBeforeOutcome(parses[1..], nowYear)
    else match FixYear(parses[0].value, nowYear)
      case Some(d) => BeforeDate(d)
      case None => if |parses| == 1 then NoBefore else BeforeRaises
  }

  /**
   * The argument loop of `%exchanges`, as written: try each format in turn (`parses[i]` is what
   * `strptime` gives with format `i`, `None` when it raises ValueError); the first format that
   * parses rebinds `before`, and the loop stops there when the fix-up succeeds.
   */
  method ParseBefore(parses: seq<Option<DateTime>>, nowYear: int) returns (before: BeforeArg)
    ensures before == ParseBeforeOutcome(parses, nowYear)
  {
    var rebound := false;
    var i := 0;
    while i < |parses|
      invariant 0 <= i <= |parses|
      invariant !rebound ==> ParseBeforeOutcome(parses, nowYear) == ParseBeforeOutcome(parses[i..], nowYear)
      invariant rebound ==> (0 < i && parses[i - 1].Some? && FixYear(parses[i - 1].value, nowYear).None? &&
        ParseBeforeOutcome(parses, nowYear) == (if i == |parses| then NoBefore else BeforeRaises))
    {
      if rebound {
        // `strptime` of a datetime: TypeError escapes.
        return BeforeRaises;
      }
      assert parses[i..][1..] == parses[i + 1..];
      if parses[i].Some? {
        rebound := true;
        var fixed := FixYear(parses[i].value, nowYear);
        if fixed.Some? {
          return BeforeDate(fixed.value);
        }
      }
      i := i + 1;
    }
    before := NoBefore;
  }

  /**
   * As written, the command raises exactly when the first format that parses fails its fix-up
   * and is not the last format.
   */
  lemma {:induction false} ParseBeforeRaisesIff(parses: seq<Option<DateTime>>, nowYear: int)
    ensures ParseBeforeOutcome(parses, nowYear) == BeforeRaises <==>
      exists i :: 0 <= i < |parses| - 1 && parses[i].Some? && FixYear(parses[i].value, nowYear).None? &&
        forall k :: 0 <= k < i ==> parses[k].None?
  {
    if parses != [] && parses[0].None? {
      ParseBeforeRaisesIff(parses[1..], nowYear);
      if ParseBeforeOutcome(parses, nowYear) == BeforeRaises {
        var i :| 0 <= i < |parses[1..]| - 1 && parses[1..][i].Some? && FixYear(parses[1..][i].value, nowYear).None? &&
          forall k :: 0 <= k < i ==> parses[1..][k].None?;
        assert forall k :: 0 <= k < i + 1 ==> parses[k].None? by {
          forall k | 0 <= k < i + 1 ensures parses[k].None? {
            if k > 0 { assert parses[k] == parses[1..][k - 1]; }
          }
        }
      }
      if exists i :: (0 <= i < |parses| - 1 && parses[i].Some? && FixYear(parses[i].value, nowYear).None? &&
        forall k :: 0 <= k < i ==> parses[k].None?) {
        var i :| 0 <= i < |parses| - 1 && parses[i].Some? && FixYear(parses[i].value, nowYear).None? &&
          forall k :: 0 <= k < i ==> parses[k].None?;
        assert i > 0;
        assert parses[1..][i - 1] == parses[i];
        assert forall k :: 0 <= k < i - 1 ==> parses[1..][k].None?;
      }
    } else if parses != [] {
      if ParseBeforeOutcome(parses, nowYear) == BeforeRaises {
        assert 0 < |parses| - 1;
      }
    }
  }

  /**
   * An example of the discrepancy: `%exchanges 100 02/29/2012` in a year that is not a leap
   * year. The first format that parses gives 29 February 2012; its fix-up raises, and the next
   * format receives a datetime, so the command fails instead of falling back to `None`.
   */
  lemma ParseBeforeLeapDayRaises(parses: seq<Option<DateTime>>, nowYear: int)
    requires |parses| >= 2 && parses[0] == Some(DateTime(2012, 2, 29, 0, 0, 0)) && !LeapYear(nowYear)
    ensures ParseBeforeOutcome(parses, nowYear) == BeforeRaises
    ensures FirstFixed(parses, nowYear) == FirstFixed(parses[1..], nowYear)
  {
  }

  /**
   * The loop as intended, binding the parse to a fresh name: the first format whose parse
   * survives the fix-up, `None` when none does. It never raises.
   */
  function FirstFixed(parses: seq<Option<DateTime>>, nowYear: int): Option<DateTime> {
    if parses == [] then None
    else if parses[0].Some? && FixYear(parses[0].value, nowYear).Some? then FixYear(parses[0].value, nowYear)
    else FirstFixed(parses[1..], nowYear)
  }

  /** Where no fix-up fails before the last format, the loop as written gives what the intended one gives. */
  lemma {:induction false} ParseBeforeAgrees(parses: seq<Option<DateTime>>, nowYear: int)
    requires forall i :: 0 <= i < |parses| - 1 && parses[i].Some? ==> FixYear(parses[i].value, nowYear).Some?
    ensures ParseBeforeOutcome(parses, nowYear) ==
      match FirstFixed(parses, nowYear) case Some(d) => BeforeDate(d) case None => NoBefore
  {
    if parses != [] && parses[0].None? {
      assert forall i :: 0 <= i < |parses[1..]| - 1 && parses[1..][i].Some? ==>
        FixYear(parses[1..][i].value, nowYear).Some? by {
        forall i | 0 <= i < |parses[1..]| - 1 && parses[1..][i].Some?
          ensures FixYear(parses[1..][i].value, nowYear).Some?
        {
          assert parses[1..][i] == parses[i + 1];
        }
      }
      ParseBeforeAgrees(parses[1..], nowYear);
    }
  }

  /** With the current year at or after 2015, a date `%exchanges` accepts is never before 2015, and it comes from some format's parse. */
  lemma {:induction false} FirstFixedYear(parses: seq<Option<DateTime>>, nowYear: int)
    requires nowYear >= DiscordEpochYear
    ensures var r := FirstFixed(parses, nowYear);
      r.Some? ==> (r.value.year >= DiscordEpochYear &&
        exists i :: 0 <= i < |parses| && parses[i].Some? && FixYear(parses[i].value, nowYear) == r)
  {
    if parses != [] && !(parses[0].Some? && FixYear(parses[0].value, nowYear).Some?) {
      FirstFixedYear(parses[1..], nowYear);
      var r := FirstFixed(parses, nowYear);
      if r.Some? {
        var i :| 0 <= i < |parses[1..]| && parses[1..][i].Some? && FixYear(parses[1..][i].value, nowYear) == r;
        assert parses[i + 1] == parses[1..][i];
      }
    }
  }
}
