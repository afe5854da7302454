// The `%annoy` game: per guild, at most one member whose every message the bot answers.

module Misc {
  import opened Wrappers
  import opened Helper

  /** The messages `%annoy` sends. */
  datatype AnnoyReply =
    | StopAnnoying
    | NiceTry
    | NowAnnoying(name: string)
    | NoLongerAnnoying(name: string)

  function ReplyText(r: AnnoyReply): string {
    match r
    case StopAnnoying => "Fine, I'll stop."
    case NiceTry => "Nice try! Nothing happened!"
    case NowAnnoying(name) => "Now annoying **" + name + "**!"
    case NoLongerAnnoying(name) => "No longer annoying **" + name + "**."
  }

  /** The guild's current target; a guild without an entry has none. */
  function TargetOf(targets: map<nat, Option<Member>>, guild: nat): Option<Member> {
    if guild in targets then targets[guild] else None
  }

  /**
   * The target map after `%annoy [member]` in `guild`: no member clears the target, the bot
   * itself changes nothing, a member becomes the target when there is none, and naming the
   * current target again clears it while naming another member switches to them. Members are
   * compared by id.
   */
  function AnnoyStep(targets: map<nat, Option<Member>>, guild: nat, member: Option<Member>, botId: nat)
    : map<nat, Option<Member>>
  {
    var target := TargetOf(targets, guild);
    if member.None? then targets[guild := None]
    else if member.value.id == botId then targets
    else if target.None? then targets[guild := member]
    else if member.value.id == target.value.id then targets[guild := None]
    else targets[guild := member]
  }

  /** The messages `%annoy` sends in each of those cases. */
  function AnnoyReplies(targets: map<nat, Option<Member>>, guild: nat, member: Option<Member>, botId: nat)
    : seq<AnnoyReply>
  {
    var target := TargetOf(targets, guild);
    if member.None? then [StopAnnoying]
    else if member.value.id == botId then [NiceTry]
    else if target.None? then [NowAnnoying(member.value.name)]
    else [NoLongerAnnoying(target.value.name), NowAnnoying(member.value.name)]
  }

  /** The bot is never the target of a guild. */
  predicate BotNeverTarget(targets: map<nat, Option<Member>>, botId: nat) {
    forall g :: g in targets && targets[g].Some? ==> targets[g].value.id != botId
  }

  /**
   * `%annoy` keeps the bot out of the targets, touches only its own guild, and leaves the guild
   * with the member as target exactly when the member is a new target there.
   */
  lemma AnnoyStepSpec(targets: map<nat, Option<Member>>, guild: nat, member: Option<Member>, botId: nat)
    requires BotNeverTarget(targets, botId)
    ensures var t := AnnoyStep(targets, guild, member, botId);
      BotNeverTarget(t, botId) &&
      (forall g :: g != guild ==> TargetOf(t, g) == TargetOf(targets, g)) &&
      (member.None? ==> TargetOf(t, guild).None?) &&
      (member.Some? && member.value.id == botId ==> t == targets) &&
      (member.Some? && member.value.id != botId ==>
        (TargetOf(t, guild) == member <==>
          TargetOf(targets, guild).None? || TargetOf(targets, guild).value.id != member.value.id))
  {
  }

  /** `%annoy @m` twice in a row, starting without a target, ends without one: the command toggles. */
  lemma AnnoyToggles(targets: map<nat, Option<Member>>, guild: nat, m: Member, botId: nat)
    requires TargetOf(targets, guild).None? && m.id != botId
    ensures AnnoyStep(AnnoyStep(targets, guild, Some(m), botId), guild, Some(m), botId) == targets[guild := None]
  {
    var once := AnnoyStep(targets, guild, Some(m), botId);
    assert TargetOf(once, guild) == Some(m);
  }

  /**
   * As written, naming the current target again sends "No longer annoying" and then "Now
   * annoying" with the same name, although the guild is left without a target.
   */
  lemma AnnoyClearAnnouncesTarget(targets: map<nat, Option<Member>>, guild: nat, m: Member, botId: nat)
    requires TargetOf(targets, guild) == Some(m) && m.id != botId
    ensures TargetOf(AnnoyStep(targets, guild, Some(m), botId), guild).None?
    ensures AnnoyReplies(targets, guild, Some(m), botId)[1] == NowAnnoying(m.name)
  {
  }

  /** The messages as intended: clearing the target by naming it again only says it is no longer annoyed. */
  function AnnoyRepliesFixed(targets: map<nat, Option<Member>>, guild: nat, member: Option<Member>, botId: nat)
    : seq<AnnoyReply>
  {
    var target := TargetOf(targets, guild);
    if member.None? then [StopAnnoying]
    else if member.value.id == botId then [NiceTry]
    else if target.None? then [NowAnnoying(member.value.name)]
    else if member.value.id == target.value.id then [NoLongerAnnoying(target.value.name)]
    else [NoLongerAnnoying(target.value.name), NowAnnoying(member.value.name)]
  }

  /** With the corrected messages, "Now annoying m" is said exactly when `m` becomes the target. */
  lemma AnnoyRepliesFixedTruthful(targets: map<nat, Option<Member>>, guild: nat, member: Option<Member>, botId: nat)
    ensures var replies := AnnoyRepliesFixed(targets, guild, member, botId);
      var t := TargetOf(AnnoyStep(targets, guild, member, botId), guild);
      (exists i :: 0 <= i < |replies| && replies[i].NowAnnoying?) <==> (t.Some? && t != TargetOf(targets, guild))
    ensures var replies := AnnoyRepliesFixed(targets, guild, member, botId);
      forall i :: 0 <= i < |replies| && replies[i].NowAnnoying? ==>
        TargetOf(AnnoyStep(targets, guild, member, botId), guild).value.name == replies[i].name
  {
    var replies := AnnoyRepliesFixed(targets, guild, member, botId);
    var t := TargetOf(AnnoyStep(targets, guild, member, botId), guild);
    if t.Some? && t != TargetOf(targets, guild) {
      assert replies[|replies| - 1].NowAnnoying?;
    }
  }

  /**
   * The name the bot uses when it answers the target's message in `guild` (`None` for a direct
   * message): the author's listed real name, or "Bro". `None` means no answer.
   */
  function OnMessage(targets: map<nat, Option<Member>>, guild: Option<nat>, author: Member, realNames: map<nat, string>)
    : (r: Option<string>)
    ensures r.Some? <==>
      guild.Some? && guild.value in targets && targets[guild.value].Some? && targets[guild.value].value.id == author.id
    ensures r.Some? && author.id in realNames ==> r.value == realNames[author.id]
    ensures r.Some? && author.id !in realNames ==> r.value == "Bro"
  {
    if guild.None? || guild.value !in targets then None
    else
      var target := targets[guild.value];
      if target.Some? && target.value.id == author.id then
        Some(match RealName(author.id, realNames) case Some(n) => n case None => "Bro")
      else None
  }

  /** After `%annoy @m` sets a new target, the bot answers `m` in that guild and no other author there. */
  lemma AnnoyThenReply(targets: map<nat, Option<Member>>, guild: nat, m: Member, botId: nat,
                       author: Member, realNames: map<nat, string>)
    requires TargetOf(targets, guild).None? && m.id != botId
    ensures OnMessage(AnnoyStep(targets, guild, Some(m), botId), Some(guild), author, realNames).Some? <==>
      author.id == m.id
  {
  }

  /** The cog's state: the bot's own id and the target of each guild. */
  class MiscCog {
    const botId: nat
    var annoyTargets: map<nat, Option<Member>>

    predicate Valid()
      reads this
    {
      BotNeverTarget(annoyTargets, botId)
    }

    constructor(bot: nat)
      ensures botId == bot && annoyTargets == map[] && Valid()
    {
      botId := bot;
      annoyTargets := map[];
    }

    /** `%annoy [member]` in `guild`: updates the guild's target and returns the messages sent. */
    method Annoy(guild: nat, member: Option<Member>) returns (replies: seq<AnnoyReply>)
      requires Valid()
      modifies this
      ensures Valid()
      ensures annoyTargets == AnnoyStep(old(annoyTargets), guild, member, botId)
      ensures replies == AnnoyReplies(old(annoyTargets), guild, member, botId)
    {
      AnnoyStepSpec(annoyTargets, guild, member, botId);
      var target: Option<Member> := if guild in annoyTargets then annoyTargets[guild] else None;
      if member.None? {
        annoyTargets := annoyTargets[guild := None];
        replies := [StopAnnoying];
      } else if member.value.id == botId {
        replies := [NiceTry];
      } else if target.None? {
        annoyTargets := annoyTargets[guild := member];
        replies := [NowAnnoying(member.value.name)];
      } else {
        replies := [NoLongerAnnoying(target.value.name)];
        if member.value.id == target.value.id {
          annoyTargets := annoyTargets[guild := None];
        } else {
          annoyTargets := annoyTargets[guild := member];
        }
        replies := replies + [NowAnnoying(member.value.name)];
      }
    }
  }
}
