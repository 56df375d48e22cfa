/**
 The `/setup` slash command: its declaration, and its handler, which confirms the
 chosen channel to the invoker and then stores that channel as the logging
 channel.
 */
module SetupCommand {
  import opened Wrappers
  import opened Handlers

  /** The channel kinds the platform distinguishes, as far as this command cares. */
  datatype ChannelType = GuildText | GuildVoice | GuildCategory | GuildAnnouncement | GuildForum

  datatype Permission = BanMembers | KickMembers | ManageChannels | Administrator

  datatype ChannelOptionDecl = ChannelOptionDecl(name: string, description: string, channelTypes: seq<ChannelType>, required: bool)

  datatype CommandDecl = CommandDecl(name: string, description: string, options: seq<ChannelOptionDecl>, defaultMemberPermission: Permission)

  /** The declaration the command registers. */
  const Declaration: CommandDecl :=
    CommandDecl(
      "setup",
      "Used to setup the Image moderation bot.",
      [ChannelOptionDecl("channel", "The channel that you wish to use for logging", [GuildText], true)],
      BanMembers)

  /** The platform offers a channel of this kind for the option. */
  predicate Accepts(option: ChannelOptionDecl, kind: ChannelType)
  {
    kind in option.channelTypes
  }

  /** One required option, `channel`, that only text channels satisfy; by default
      only members who may ban can invoke the command. */
  lemma DeclarationShape()
    ensures Declaration.name == "setup"
    ensures |Declaration.options| == 1
    ensures Declaration.options[0].name == "channel" && Declaration.options[0].required
    ensures forall k :: Accepts(Declaration.options[0], k) <==> k == GuildText
    ensures Declaration.defaultMemberPermission == BanMembers
  {
  }

  /** The channel chosen in the option. */
  datatype Channel = Channel(id: ChannelId, name: string, kind: ChannelType)

  /** What the handler did and the logging channel it left. */
  datatype SetupResult = SetupResult(actions: seq<Action>, logging: Option<ChannelId>)

  /** `execute`: the confirmation reply is awaited first and the store comes after,
      so a rejected reply (`replyDelivered` false) throws before the store and the
      configuration keeps its old value. */
  function Execute(logging: Option<ChannelId>, channel: Channel, replyDelivered: bool): (r: SetupResult)
    ensures replyDelivered ==> r.logging == Some(channel.id) && r.actions == [ConfirmSetup(channel.name)]
    ensures !replyDelivered ==> r.logging == logging && r.actions == []
  {
    if replyDelivered then SetupResult([ConfirmSetup(channel.name)], UpdateLoggingChannel(logging, channel.id))
    else SetupResult([], logging)
  }

  /** The reply reads the fixed sentence, then the channel's name, then a full stop,
      so the name can be read back from it. */
  lemma ReplyNamesChannel(env: Env, name: string)
    ensures Render(env, ConfirmSetup(name)).Reply?
    ensures var t := Render(env, ConfirmSetup(name)).text;
            && |t| == |SetupReplyPrefix| + |name| + 1
            && t[..|SetupReplyPrefix|] == SetupReplyPrefix
            && t[|SetupReplyPrefix|..|t| - 1] == name
            && t[|t| - 1] == '.'
  {
    var t := Render(env, ConfirmSetup(name)).text;
    assert t == SetupReplyPrefix + name + ".";
  }

  /** Running the command twice on one channel leaves what running it once leaves;
      on two channels, the second wins. */
  lemma SetupOverwrites(logging: Option<ChannelId>, c1: Channel, c2: Channel)
    ensures Execute(Execute(logging, c1, true).logging, c1, true) == Execute(logging, c1, true)
    ensures Execute(Execute(logging, c1, true).logging, c2, true).logging == Some(c2.id)
  {
  }
}
