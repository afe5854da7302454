// The music cog's own decisions: one player per guild, who may command the player, where
// `%join` and `%play` may take the bot, how an `on`/`off` argument is read, and which commands
// still run while the bot is disconnected.

module MusicCog {
  import opened Wrappers
  import opened Text
  import opened Helper
  import Player

  /** A voice channel, compared by id as Discord objects are. */
  datatype VoiceChannel = VoiceChannel(id: nat, members: seq<Member>)

  /** The player's voice client: whether it is connected, and to which channel. */
  datatype VoiceClient = VoiceClient(connected: bool, channel: VoiceChannel)

  /** `channel != player.vc.channel`, where the caller's channel may be missing (`None`). */
  predicate OtherChannel(caller: Option<VoiceChannel>, bot: VoiceChannel) {
    caller.None? || caller.value.id != bot.id
  }

  predicate BotConnected(vc: Option<VoiceClient>) {
    vc.Some? && vc.value.connected
  }

  // ------------------------------------------------------------------ registry

  /** The cog: a player per guild id, made on first use. */
  class Music {
    var players: map<nat, Player.MusicPlayer>

    constructor()
      ensures players == map[]
    {
      players := map[];
    }

    /**
     * `get_player`: the player stored for the guild, or a new one stored under its id. Either
     * way the guild now maps to the returned player, so every later call returns that object.
     */
    method GetPlayer(guildId: nat, guildName: string) returns (p: Player.MusicPlayer)
      modifies this
      ensures guildId in players && players[guildId] == p
      ensures guildId in old(players) ==> p == old(players[guildId]) && players == old(players)
      ensures guildId !in old(players) ==>
        fresh(p) && p.Valid() && p.guild == guildName && players == old(players)[guildId := p]
    {
      if guildId in players {
        p := players[guildId];
      } else {
        p := new Player.MusicPlayer(guildName);
        players := players[guildId := p];
      }
    }
  }

  // ------------------------------------------------------------------ check_caller

  /** The outcome of `check_caller`, by the message it sends. */
  datatype CallerCheck = Allowed | CallerNotInVoice | BotNotConnected | InUseElsewhere

  /**
   * `check_caller` with the caller's voice channel (`None` when not in voice) and the player's
   * voice client. The last message set wins: a disconnected bot is reported before anything
   * else, and a channel in use elsewhere before the caller's own absence from voice.
   */
  function CheckCaller(caller: Option<VoiceChannel>, vc: Option<VoiceClient>): (r: CallerCheck)
    ensures r == Allowed <==>
      caller.Some? && BotConnected(vc) &&
      (caller.value.id == vc.value.channel.id || !HasHumans(vc.value.channel.members))
    ensures r == BotNotConnected <==> !BotConnected(vc)
    ensures r == CallerNotInVoice ==> caller.None?
  {
    if !BotConnected(vc) then BotNotConnected
    else if OtherChannel(caller, vc.value.channel) && HasHumans(vc.value.channel.members) then InUseElsewhere
    else if caller.None? then CallerNotInVoice
    else Allowed
  }

  /** Humans in the bot's channel lock it: only a caller in that same channel may command it. */
  lemma CheckCallerLocked(caller: Option<VoiceChannel>, vc: VoiceClient, human: Member)
    requires vc.connected && human in vc.channel.members && !human.bot
    ensures CheckCaller(caller, Some(vc)) == Allowed <==> caller.Some? && caller.value.id == vc.channel.id
  {
  }

  /** A bot left alone (or with bots only) in its channel may be commanded from any voice channel. */
  lemma CheckCallerAlone(c: VoiceChannel, vc: VoiceClient)
    requires vc.connected && forall m :: m in vc.channel.members ==> m.bot
    ensures CheckCaller(Some(c), Some(vc)) == Allowed
  {
  }

  // ------------------------------------------------------------------ join and play

  /** Why `%join` or `%play` refuse. */
  datatype Refusal = NoChannel | InUse

  /**
   * `%join [channel]`: the channel to connect (or move) to, which is the one given or else the
   * caller's; refused without a channel, or when the bot sits with humans in another channel.
   * The in-use message is set last and wins.
   */
  function JoinTarget(given: Option<VoiceChannel>, caller: Option<VoiceChannel>, vc: Option<VoiceClient>)
    : (r: Result<VoiceChannel, Refusal>)
    ensures r.Ok? <==>
      (given.Some? || caller.Some?) &&
      !(BotConnected(vc) && HasHumans(vc.value.channel.members) &&
        OtherChannel(if given.Some? then given else caller, vc.value.channel))
    ensures r.Ok? ==> r.value == if given.Some? then given.value else caller.value
  {
    var channel := if given.Some? then given else caller;
    if BotConnected(vc) && HasHumans(vc.value.channel.members) && OtherChannel(channel, vc.value.channel) then
      Err(InUse)
    else if channel.None? then Err(NoChannel)
    else Ok(channel.value)
  }

  /** What `%play` does with the voice connection before queueing. */
  datatype Summon = Connect(to: VoiceChannel) | MoveTo(to: VoiceChannel) | Stay

  /**
   * `%play`'s checks: a caller outside voice is refused; a disconnected bot connects to the
   * caller's channel; a connected bot moves there when its channel has no humans, stays when it
   * is already there, and is refused when humans listen elsewhere.
   */
  function PlayTarget(caller: Option<VoiceChannel>, vc: Option<VoiceClient>): (r: Result<Summon, Refusal>)
    ensures r.Err? <==>
      caller.None? ||
      (BotConnected(vc) && HasHumans(vc.value.channel.members) && caller.value.id != vc.value.channel.id)
    ensures r.Ok? && r.value != Stay ==> r.value.to == caller.value
  {
    if caller.None? then Err(NoChannel)
    else if !BotConnected(vc) then Ok(Connect(caller.value))
    else if !HasHumans(vc.value.channel.members) then Ok(MoveTo(caller.value))
    else if caller.value.id != vc.value.channel.id then Err(InUse)
    else Ok(Stay)
  }

  /**
   * `%join` and `%play` take the bot only where `check_caller` would then let the caller in:
   * after a successful summon the caller (in the target channel) passes the check.
   */
  lemma SummonThenAllowed(caller: VoiceChannel, vc: Option<VoiceClient>)
    requires PlayTarget(Some(caller), vc).Ok?
    ensures var after := match PlayTarget(Some(caller), vc).value
      case Stay => vc.value
      case Connect(to) => VoiceClient(true, to)
      case MoveTo(to) => VoiceClient(true, to);
      CheckCaller(Some(caller), Some(after)) == Allowed
  {
  }

  /** `%join` with no channel given decides as `%play` does whenever it is not refused. */
  lemma JoinAgreesWithPlay(caller: Option<VoiceChannel>, vc: Option<VoiceClient>)
    ensures JoinTarget(None, caller, vc).Ok? <==> PlayTarget(caller, vc).Ok?
  {
  }

  // ------------------------------------------------------------------ on / off

  /** The `option` of `%loop`, `%loopqueue` and `%shuffleloop`: `on` and `off` in any case, anything else toggles. */
  function ParseOption(option: Option<string>): (r: Option<bool>)
    ensures r == Some(true) <==> option.Some? && CaseEq(option.value, "on")
    ensures r == Some(false) <==> option.Some? && CaseEq(option.value, "off")
  {
    if option.None? then None
    else
      CaseEqLower(option.value, "on");
      CaseEqLower(option.value, "off");
      assert Lower("on") == "on" && Lower("off") == "off";
      if Lower(option.value) == "on" then Some(true)
      else if Lower(option.value) == "off" then Some(false)
      else None
  }

  /** Any other word, like no word at all, leaves the choice to the player's toggle. */
  lemma ParseOptionOther(option: string)
    requires !CaseEq(option, "on") && !CaseEq(option, "off")
    ensures ParseOption(Some(option)) == ParseOption(None) == None
  {
  }

  // ------------------------------------------------------------------ disconnected commands

  /** How the cog routes `%clear` and `%namequeue`. */
  datatype Route = RunDisconnected | RunConnected | Refused(why: CallerCheck)

  /**
   * `%clear` and `%namequeue` run without `check_caller` while the bot is disconnected (`%clear`
   * is told so), and only past `check_caller` while it is connected.
   */
  function QueueCommandRoute(caller: Option<VoiceChannel>, vc: Option<VoiceClient>): (r: Route)
    ensures r == RunDisconnected <==> !BotConnected(vc)
    ensures r == RunConnected <==> CheckCaller(caller, vc) == Allowed
  {
    if !BotConnected(vc) then RunDisconnected
    else
      var check := CheckCaller(caller, vc);
      if check == Allowed then RunConnected else Refused(check)
  }

  /** The bypass never refuses: a refusal for these commands is always about the caller, never the connection. */
  lemma QueueCommandRouteRefusal(caller: Option<VoiceChannel>, vc: Option<VoiceClient>)
    ensures QueueCommandRoute(caller, vc).Refused? ==>
      QueueCommandRoute(caller, vc).why in {CallerNotInVoice, InUseElsewhere}
  {
  }
}
