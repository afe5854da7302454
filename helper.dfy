// The bot's shared helpers that decide something: who counts as a listener, how a yes/no
// confirmation is read, how a colour code and a mention are written, and how long a
// delete-on-reaction offer stays open.

module Helper {
  import opened Wrappers
  import opened Text

  /** A guild member, reduced to what the helpers look at. */
  datatype Member = Member(id: nat, name: string, bot: bool)

  // ------------------------------------------------------------------ has_humans

  /** `has_humans`: whether a voice channel with these members has a member who is not a bot. */
  function HasHumans(members: seq<Member>): (r: bool)
    ensures r <==> exists i :: 0 <= i < |members| && !members[i].bot
  {
    if members == [] then false
    else if !members[0].bot then true
    else
      var rest := HasHumans(members[1..]);
      assert forall i :: 1 <= i < |members| ==> members[i] == members[1..][i - 1];
      rest
  }

  /** Bots joining or leaving a channel never change whether it has humans. */
  lemma HasHumansIgnoresBots(members: seq<Member>, bots: seq<Member>)
    requires forall i :: 0 <= i < |bots| ==> bots[i].bot
    ensures HasHumans(members + bots) == HasHumans(members)
    ensures HasHumans(bots + members) == HasHumans(members)
  {
    if HasHumans(members) {
      var i :| 0 <= i < |members| && !members[i].bot;
      assert (members + bots)[i] == members[i];
      assert (bots + members)[|bots| + i] == members[i];
    }
  }

  // ------------------------------------------------------------------ confirmation

  /** A message seen while waiting for a confirmation: from the asking user and channel or not, and its text. */
  datatype Reply = Reply(sameAuthor: bool, sameChannel: bool, content: string)

  /** What `confirm_check` makes of a message: keep waiting (`False`), confirm (`True`) or decline (it raises). */
  datatype Verdict = KeepWaiting | Confirm | Decline

  /** `confirm_check`: only the asking user in the asking channel counts; `y`/`yes` confirm and `n`/`no` decline, in any case. */
  function ConfirmCheck(m: Reply): (r: Verdict)
    ensures r == Confirm <==> m.sameAuthor && m.sameChannel && (CaseEq(m.content, "y") || CaseEq(m.content, "yes"))
    ensures r == Decline <==> m.sameAuthor && m.sameChannel && (CaseEq(m.content, "n") || CaseEq(m.content, "no"))
  {
    CaseEqLower(m.content, "y");
    CaseEqLower(m.content, "yes");
    CaseEqLower(m.content, "n");
    CaseEqLower(m.content, "no");
    assert Lower("y") == "y" && Lower("yes") == "yes" && Lower("n") == "n" && Lower("no") == "no";
    if !m.sameAuthor || !m.sameChannel then KeepWaiting
    else if Lower(m.content) in ["y", "yes"] then Confirm
    else if Lower(m.content) in ["n", "no"] then Decline
    else KeepWaiting
  }

  /**
   * The value `ask_for_confirmation` returns, given the messages that arrive before the timeout:
   * `True` at the first confirming message, `False` at the first declining one, `None` when the
   * time runs out first.
   */
  function Confirmation(replies: seq<Reply>): (r: Option<bool>)
    ensures r.Some? <==> exists i :: 0 <= i < |replies| && ConfirmCheck(replies[i]) != KeepWaiting
  {
    if replies == [] then None
    else match ConfirmCheck(replies[0])
      case Confirm => Some(true)
      case Decline => Some(false)
      case KeepWaiting =>
        var rest := Confirmation(replies[1..]);
        assert forall i :: 1 <= i < |replies| ==> replies[i] == replies[1..][i - 1];
        rest
  }

  /** The answer is the one the first deciding message gives; every message before it is ignored. */
  lemma {:induction false} ConfirmationFirstDecides(replies: seq<Reply>, k: nat)
    requires k < |replies| && ConfirmCheck(replies[k]) != KeepWaiting
    requires forall i :: 0 <= i < k ==> ConfirmCheck(replies[i]) == KeepWaiting
    ensures Confirmation(replies) == Some(ConfirmCheck(replies[k]) == Confirm)
    decreases k
  {
    if k > 0 {
      ConfirmationFirstDecides(replies[1..], k - 1);
    }
  }

  /** The footer written under the question once it is settled. */
  function Footer(name: string, answer: Option<bool>): string {
    name + match answer
      case Some(true) => " responded with yes \U{2705}"
      case Some(false) => " responded with no \U{274C}"
      case None => " did not respond in time \U{231B}"
  }

  /** The footer tells the three outcomes apart: it names the answer that was returned. */
  lemma FooterNamesAnswer(name: string, a: Option<bool>, b: Option<bool>)
    ensures Footer(name, a) == Footer(name, b) <==> a == b
  {
    if Footer(name, a) == Footer(name, b) {
      var f := Footer(name, a);
      assert f[|f| - 1] == Footer(name, b)[|f| - 1];
    }
  }

  // ------------------------------------------------------------------ to_hexcode

  /** `hex(v).removeprefix("0x").rjust(2, "0")`: a negative value keeps its `-0x` prefix. */
  function HexField(v: int): (r: string)
    ensures 0 <= v < 256 ==> |r| == 2 && forall i :: 0 <= i < 2 ==> IsHexDigit(r[i])
  {
    if v >= 0 then
      NatToHexRoundTrip(v);
      HexFieldShort(v);
      PadLeft(NatToHex(v), 2, '0')
    else "-0x" + NatToHex(-v)
  }

  lemma HexFieldShort(v: nat)
    ensures v < 16 ==> |NatToHex(v)| == 1
    ensures 16 <= v < 256 ==> |NatToHex(v)| == 2
  {
  }

  /** `to_hexcode(red, green, blue)`: `#` and the three values in two-digit lower-case hex. */
  function ToHexcode(red: int, green: int, blue: int): (r: string)
    ensures 0 <= red < 256 && 0 <= green < 256 && 0 <= blue < 256 ==>
      |r| == 7 && r[0] == '#' && forall i :: 1 <= i < 7 ==> IsHexDigit(r[i])
  {
    var rr, gg, bb := HexField(red), HexField(green), HexField(blue);
    if 0 <= red < 256 && 0 <= green < 256 && 0 <= blue < 256 then
      HexCodeDigits(rr, gg, bb);
      "#" + rr + gg + bb
    else "#" + rr + gg + bb
  }

  lemma HexCodeDigits(r: string, g: string, b: string)
    requires |r| == 2 && |g| == 2 && |b| == 2
    requires forall i :: 0 <= i < 2 ==> IsHexDigit(r[i]) && IsHexDigit(g[i]) && IsHexDigit(b[i])
    ensures var code := "#" + r + g + b; |code| == 7 && code[0] == '#' && forall i :: 1 <= i < 7 ==> IsHexDigit(code[i])
  {
    var code := "#" + r + g + b;
    assert forall i :: 1 <= i < 3 ==> code[i] == r[i - 1];
    assert forall i :: 3 <= i < 5 ==> code[i] == g[i - 3];
    assert forall i :: 5 <= i < 7 ==> code[i] == b[i - 5];
  }

  /** A two-digit field reads back as the value it was made from. */
  lemma HexFieldRoundTrip(v: nat)
    requires v < 256
    ensures ParseHex(HexField(v)) == v
  {
    NatToHexRoundTrip(v);
    if v < 16 {
      ParseHexLeadingZero(NatToHex(v));
      assert HexField(v) == "0" + NatToHex(v);
    }
  }

  /** The two hex digits of `s` at index `k` read as `v`. */
  predicate HexPair(s: string, k: nat, v: nat) {
    k + 2 <= |s| && IsHexDigit(s[k]) && IsHexDigit(s[k + 1]) && ParseHex(s[k..k + 2]) == v
  }

  /** For colour values, each pair of digits of the code reads back as its value. */
  lemma ToHexcodeRoundTrip(red: nat, green: nat, blue: nat)
    requires red < 256 && green < 256 && blue < 256
    ensures var code := ToHexcode(red, green, blue);
      HexPair(code, 1, red) && HexPair(code, 3, green) && HexPair(code, 5, blue)
  {
    HexFieldRoundTrip(red);
    HexFieldRoundTrip(green);
    HexFieldRoundTrip(blue);
    HexCodeFields(HexField(red), HexField(green), HexField(blue), red, green, blue);
  }

  lemma HexCodeFields(r: string, g: string, b: string, red: nat, green: nat, blue: nat)
    requires |r| == 2 && |g| == 2 && |b| == 2
    requires forall i :: 0 <= i < 2 ==> IsHexDigit(r[i]) && IsHexDigit(g[i]) && IsHexDigit(b[i])
    requires ParseHex(r) == red && ParseHex(g) == green && ParseHex(b) == blue
    ensures var code := "#" + r + g + b;
      HexPair(code, 1, red) && HexPair(code, 3, green) && HexPair(code, 5, blue)
  {
    var code := "#" + r + g + b;
    assert code[1..3] == r && code[3..5] == g && code[5..7] == b;
  }

  // ------------------------------------------------------------------ realname

  /** `realname`: the name listed for a user id, `None` for an unlisted id. */
  function RealName(userId: nat, realNames: map<nat, string>): (r: Option<string>)
    ensures r.Some? <==> userId in realNames
    ensures r.Some? ==> r.value == realNames[userId]
  {
    if userId in realNames then Some(realNames[userId]) else None
  }

  // ------------------------------------------------------------------ get_mention

  /** The id of a mention `<@digits>` or `<@!digits>` that starts at index `i` of `text`, if one does. */
  function MentionAt(text: string, i: nat): (r: Option<nat>)
    requires i <= |text|
  {
    if i + 2 <= |text| && text[i..i + 2] == "<@" then
      var d := if i + 2 < |text| && text[i + 2] == '!' then i + 3 else i + 2;
      var e := DigitRunEnd(text, d);
      if d < e < |text| && text[e] == '>' then Some(ParseNat(text[d..e])) else None
    else None
  }

  /** Where the first mention at or after index `i` starts: the leftmost match `re.search` reports. */
  function FirstMention(text: string, i: nat): (r: Option<nat>)
    requires i <= |text|
    ensures r.None? <==> forall j :: i <= j <= |text| ==> MentionAt(text, j).None?
    ensures r.Some? ==> i <= r.value <= |text| && MentionAt(text, r.value).Some?
    ensures r.Some? ==> forall k :: i <= k < r.value ==> MentionAt(text, k).None?
    decreases |text| - i
  {
    if MentionAt(text, i).Some? then Some(i)
    else if i == |text| then None
    else FirstMention(text, i + 1)
  }

  /** The id `get_mention` parses from `text`: that of its first mention, `None` without one. */
  function MentionedId(text: string): (r: Option<nat>)
    ensures r.None? <==> forall j :: 0 <= j <= |text| ==> MentionAt(text, j).None?
    ensures r.Some? ==> exists j :: (0 <= j <= |text| && MentionAt(text, j) == r &&
      forall k :: 0 <= k < j ==> MentionAt(text, k).None?)
  {
    match FirstMention(text, 0)
    case None => None
    case Some(j) => MentionAt(text, j)
  }

  /**
   * `get_mention`: the user whose id the first mention in `text` carries, looked up among the
   * users the bot knows (`bot.get_user`); `None` without a mention or for an unknown id.
   */
  function GetMention<U>(text: string, users: map<nat, U>): (r: Option<U>)
    ensures r.Some? <==> MentionedId(text).Some? && MentionedId(text).value in users
    ensures r.Some? ==> r.value == users[MentionedId(text).value]
  {
    match MentionedId(text)
    case None => None
    case Some(uid) => if uid in users then Some(users[uid]) else None
  }

  /**
   * A message that mentions a user (`tag` is `<@`, or `<@!` for a nickname mention) reports that
   * user's id, whatever text without `<` comes before it.
   */
  lemma MentionRoundTrip(before: string, tag: string, uid: nat, after: string)
    requires tag == "<@" || tag == "<@!"
    requires forall i :: 0 <= i < |before| ==> before[i] != '<'
    ensures MentionedId(before + tag + NatToStr(uid) + ">" + after) == Some(uid)
  {
    var text := before + tag + NatToStr(uid) + ">" + after;
    MentionAfter(text, before, tag, uid, after);
    NoMentionBefore(text, before);
    FirstMentionAt(text, 0, |before|);
    assert MentionedId(text) == MentionAt(text, |before|);
  }

  lemma MentionAfter(text: string, before: string, tag: string, uid: nat, after: string)
    requires tag == "<@" || tag == "<@!"
    requires text == before + tag + NatToStr(uid) + ">" + after
    ensures before <= text && MentionAt(text, |before|) == Some(uid)
  {
    var digits := NatToStr(uid);
    NatToStrDigits(uid);
    var b, d := |before|, |before| + |tag|;
    MentionLayout(text, before, tag, digits, after);
    MentionAtTag(text, b, d, d + |digits|);
  }

  lemma MentionLayout(text: string, before: string, tag: string, digits: string, after: string)
    requires tag == "<@" || tag == "<@!"
    requires text == before + tag + digits + ">" + after
    ensures before <= text && text[|before|..|before| + 2] == "<@"
    ensures |tag| == 3 ==> text[|before| + 2] == '!'
    ensures text[|before| + |tag|..|before| + |tag| + |digits|] == digits
    ensures text[|before| + |tag| + |digits|] == '>'
  {
    assert text == before + tag + digits + (">" + after);
    MiddleSlice(before + tag, digits, ">" + after);
    MiddleSlice(before, tag, digits + ">" + after);
  }

  /** `<@`, an optional `!`, a run of digits and `>` at index `b` make a mention of the number the digits spell. */
  lemma MentionAtTag(text: string, b: nat, d: nat, e: nat)
    requires b + 2 <= d < e < |text| && text[b..b + 2] == "<@"
    requires d == b + 2 || (d == b + 3 && text[b + 2] == '!')
    requires AllDigits(text[d..e]) && text[e] == '>'
    ensures MentionAt(text, b) == Some(ParseNat(text[d..e]))
  {
    assert IsDigit(text[d..e][0]);
    DigitRunSpans(text, d, e);
  }

  /** No mention starts inside text that holds no `<`. */
  lemma NoMentionBefore(text: string, before: string)
    requires before <= text
    requires forall i :: 0 <= i < |before| ==> before[i] != '<'
    ensures forall j :: 0 <= j < |before| ==> MentionAt(text, j).None?
  {
    forall j | 0 <= j < |before|
      ensures MentionAt(text, j).None?
    {
      assert text[j] == before[j];
    }
  }

  lemma MiddleSlice(p: string, m: string, q: string)
    ensures (p + m + q)[|p|..|p| + |m|] == m && (p + m + q)[..|p|] == p
  {
  }

  /** A run of digits followed by a non-digit ends there. */
  lemma {:induction false} DigitRunSpans(s: string, i: nat, e: nat)
    requires i <= e < |s| && AllDigits(s[i..e]) && !IsDigit(s[e])
    ensures DigitRunEnd(s, i) == e
    decreases e - i
  {
    if i < e {
      assert IsDigit(s[i..e][0]);
      assert s[i + 1..e] == s[i..e][1..];
      DigitRunSpans(s, i + 1, e);
    }
  }

  /** The scan stops at the first index holding a mention. */
  lemma {:induction false} FirstMentionAt(text: string, i: nat, j: nat)
    requires i <= j <= |text| && MentionAt(text, j).Some?
    requires forall k :: i <= k < j ==> MentionAt(text, k).None?
    ensures FirstMention(text, i) == Some(j)
    decreases j - i
  {
    if i < j {
      FirstMentionAt(text, i + 1, j);
    }
  }

  // ------------------------------------------------------------------ reactremove

  /** The number of seconds `reactremove` listens when no usable timeout is given. */
  const ReactRemoveTimeout: real := 180.0

  /** `reactremove`'s timeout: the default for none or zero, the absolute value otherwise. */
  function ListenTime(timeout: Option<real>): (r: real)
    ensures r > 0.0
    ensures timeout.None? || timeout.value == 0.0 ==> r == ReactRemoveTimeout
    ensures timeout.Some? && timeout.value != 0.0 ==> r == timeout.value || r == -timeout.value
  {
    match timeout
    case None => ReactRemoveTimeout
    case Some(t) => if t == 0.0 then ReactRemoveTimeout else if t < 0.0 then -t else t
  }

  /** Normalising is idempotent: a normalised timeout is kept as it is. */
  lemma ListenTimeIdempotent(timeout: Option<real>)
    ensures ListenTime(Some(ListenTime(timeout))) == ListenTime(timeout)
  {
  }
}
