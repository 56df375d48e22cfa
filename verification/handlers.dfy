/**
 The routing layer: what the bot sends when a message with attachments arrives
 or a member joins, given the configured logging channel (if any) and the
 classifier's replies. Console logging is not modelled; every other effect is an
 `Action`.
 */
module Handlers {
  import opened Wrappers
  import opened Json
  import opened ImageValidity
  import opened Verdict

  type ChannelId = string
  type UserId = string

  /** The embed author line: the bot's tag and default avatar. */
  datatype Author = Author(name: string, iconUrl: string)

  datatype Embed = Embed(title: string, description: string, author: Author, color: string)

  /** A report the bot files in the logging channel: a flagged attachment (origin
      channel, poster, the reply), an attachment the validity filter refused
      (origin channel, poster), or a flagged avatar (member, the reply). */
  datatype Report =
    | FlaggedImage(channel: ChannelId, user: UserId, response: JValue)
    | InvalidImage(channel: ChannelId, user: UserId)
    | FlaggedAvatar(user: UserId, response: JValue)

  /** What the bot does, before rendering: the setup reminder to a channel, a report
      to a channel, or the confirmation reply to a `/setup` invocation. */
  datatype Action =
    | Remind(channel: ChannelId)
    | File(channel: ChannelId, report: Report)
    | ConfirmSetup(channelName: string)

  /** What goes over the wire: text or an embed to a channel, or a command reply. */
  datatype Sent =
    | SendText(channel: ChannelId, text: string)
    | SendEmbed(channel: ChannelId, embed: Embed)
    | Reply(text: string)

  /** A posted message: its channel, its author and the URLs of its attachments. */
  datatype Message = Message(channel: ChannelId, author: UserId, attachments: seq<string>)

  /** A joining member and the URL of their display avatar. */
  datatype Member = Member(id: UserId, avatarUrl: string)

  /** What the handlers consult but do not compute: the classifier request (a
      failed request is `None`), the JSON serializer used for reports, and the
      bot's own identity. */
  datatype Env = Env(classify: string -> Option<JValue>, serialize: JValue -> string, bot: Author)

  /** Effects of handling one event: messages sent, URLs sent to the classifier
      (in order), and the module flag left behind. */
  datatype Handled = Handled(actions: seq<Action>, queried: seq<string>, flag: bool)

  const ReminderText: string :=
    "Please set up the logging channel with the /setup command. You may need a staff member to do this."
  const Red: string := "#FF0000"
  const Amber: string := "#FFBF00"

  // ---------------------------------------------------------------------------
  // Mentions

  /** Reads a mention `<` sigil id `>` back into its id. */
  function ParseMention(sigil: char, s: string): Option<string>
  {
    if |s| >= 3 && s[0] == '<' && s[1] == sigil && s[|s| - 1] == '>' then Some(s[2..|s| - 1]) else None
  }

  /** A mention: `<`, the sigil, the id, `>`. It reads back as its id under its own
      sigil and as nothing under any other. */
  function Mention(sigil: char, id: string): (m: string)
    ensures ParseMention(sigil, m) == Some(id)
    ensures forall other :: other != sigil ==> ParseMention(other, m) == None
  {
    ['<', sigil] + id + ">"
  }

  function ChannelMention(id: ChannelId): string
  {
    Mention('#', id)
  }

  function UserMention(id: UserId): string
  {
    Mention('@', id)
  }

  /** A mention determines both its sigil and its id: distinct ids give distinct
      mentions, and a channel mention is never a user mention. */
  lemma MentionsInjective(s1: char, a: string, s2: char, b: string)
    ensures Mention(s1, a) == Mention(s2, b) <==> s1 == s2 && a == b
  {
    if Mention(s1, a) == Mention(s2, b) {
      assert ParseMention(s1, Mention(s2, b)) == Some(a);
    }
  }

  // ---------------------------------------------------------------------------
  // Reports

  predicate ContainsAt(s: string, t: string, k: nat)
  {
    k + |t| <= |s| && s[k..k + |t|] == t
  }

  predicate Contains(s: string, t: string)
  {
    exists k: nat :: k <= |s| && ContainsAt(s, t, k)
  }

  lemma ContainsMiddle(a: string, t: string, b: string)
    ensures Contains(a + t + b, t)
  {
    assert (a + t + b)[|a|..|a| + |t|] == t;
    assert ContainsAt(a + t + b, t, |a|);
  }

  /** `p + x + q + y + r + z` contains each of `x`, `y` and `z`. */
  lemma ContainsParts(p: string, x: string, q: string, y: string, r: string, z: string)
    ensures Contains(p + x + q + y + r + z, x)
    ensures Contains(p + x + q + y + r + z, y)
    ensures Contains(p + x + q + y + r + z, z)
  {
    var d := p + x + q + y + r + z;
    assert d == p + x + (q + y + r + z);
    ContainsMiddle(p, x, q + y + r + z);
    assert d == (p + x + q) + y + (r + z);
    ContainsMiddle(p + x + q, y, r + z);
    assert d == (p + x + q + y + r) + z + [];
    ContainsMiddle(p + x + q + y + r, z, []);
  }

  /** `p + x + q + y + r` contains `x` and `y`. */
  lemma ContainsBoth(p: string, x: string, q: string, y: string, r: string)
    ensures Contains(p + x + q + y + r, x)
    ensures Contains(p + x + q + y + r, y)
  {
    var d := p + x + q + y + r;
    assert d == p + x + (q + y + r);
    ContainsMiddle(p, x, q + y + r);
    assert d == (p + x + q) + y + r;
    ContainsMiddle(p + x + q, y, r);
  }

  /** The red embed on an inappropriate attachment. Its description names the
      channel and the poster and carries the serialized reply. */
  function ImageEmbed(bot: Author, channel: ChannelId, user: UserId, response: string): (e: Embed)
    ensures e.title == "Inappropriate Image detected." && e.color == Red && e.author == bot
    ensures Contains(e.description, ChannelMention(channel))
    ensures Contains(e.description, UserMention(user))
    ensures Contains(e.description, response)
  {
    var head := "Inappropriate image detected posted in the channel: ";
    var mid := "\nPosted by: ";
    var tail := "\nAPI Response: ";
    ContainsParts(head, ChannelMention(channel), mid, UserMention(user), tail, response);
    Embed("Inappropriate Image detected.",
          head + ChannelMention(channel) + mid + UserMention(user) + tail + response,
          bot, Red)
  }

  /** The amber embed on an attachment the validity filter refused. */
  function InvalidImageEmbed(bot: Author, channel: ChannelId, user: UserId): (e: Embed)
    ensures e.title == "Image unable to be analyzed." && e.color == Amber && e.author == bot
    ensures Contains(e.description, ChannelMention(channel))
    ensures Contains(e.description, UserMention(user))
  {
    var head := "Invalid image type detected, posted in the channel:";
    var mid := "\nThe image was posted by: ";
    var tail := " and was unable to be analysed.";
    ContainsBoth(head, ChannelMention(channel), mid, UserMention(user), tail);
    Embed("Image unable to be analyzed.",
          head + ChannelMention(channel) + mid + UserMention(user) + tail,
          bot, Amber)
  }

  /** The red embed on an inappropriate avatar: it names the member and carries the
      serialized reply. */
  function AvatarEmbed(bot: Author, user: UserId, response: string): (e: Embed)
    ensures e.title == "Inappropriate Avatar detected." && e.color == Red && e.author == bot
    ensures Contains(e.description, UserMention(user))
    ensures Contains(e.description, response)
  {
    var head := "Inappropriate Avatar of: ";
    var tail := "\nAPI Response: ";
    ContainsBoth(head, UserMention(user), tail, response, []);
    assert head + UserMention(user) + tail + response + [] == head + UserMention(user) + tail + response;
    Embed("Inappropriate Avatar detected.", head + UserMention(user) + tail + response, bot, Red)
  }

  function RenderReport(env: Env, r: Report): Embed
  {
    match r
    case FlaggedImage(c, u, resp) => ImageEmbed(env.bot, c, u, env.serialize(resp))
    case InvalidImage(c, u) => InvalidImageEmbed(env.bot, c, u)
    case FlaggedAvatar(u, resp) => AvatarEmbed(env.bot, u, env.serialize(resp))
  }

  /** The message an action puts on the wire. A report is red exactly when it is
      about flagged content, and amber exactly when the image could not be analysed;
      each kind of report carries its own title and names whom and what it is about. */
  function Render(env: Env, a: Action): (m: Sent)
    ensures a.Remind? ==> m == SendText(a.channel, ReminderText)
    ensures a.File? ==> m.SendEmbed? && m.channel == a.channel
    ensures a.File? ==> (m.embed.color == Red <==> !a.report.InvalidImage?)
    ensures a.File? ==> (m.embed.color == Amber <==> a.report.InvalidImage?)
    ensures a.File? && a.report.FlaggedImage? ==>
              && m.embed.title == "Inappropriate Image detected." && m.embed.author == env.bot
              && Contains(m.embed.description, ChannelMention(a.report.channel))
              && Contains(m.embed.description, UserMention(a.report.user))
              && Contains(m.embed.description, env.serialize(a.report.response))
    ensures a.File? && a.report.InvalidImage? ==>
              && m.embed.title == "Image unable to be analyzed." && m.embed.author == env.bot
              && Contains(m.embed.description, ChannelMention(a.report.channel))
              && Contains(m.embed.description, UserMention(a.report.user))
    ensures a.File? && a.report.FlaggedAvatar? ==>
              && m.embed.title == "Inappropriate Avatar detected." && m.embed.author == env.bot
              && Contains(m.embed.description, UserMention(a.report.user))
              && Contains(m.embed.description, env.serialize(a.report.response))
    ensures a.ConfirmSetup? ==> m.Reply?
  {
    match a
    case Remind(c) => SendText(c, ReminderText)
    case File(c, r) => SendEmbed(c, RenderReport(env, r))
    case ConfirmSetup(name) => Reply(SetupReplyText(name))
  }

  /** The `/setup` reply text (the command itself is `SetupCommand.Execute`). It
      lives here because `Render` puts it on the wire. */
  const SetupReplyPrefix: string := "The channel that will be used for logging will be: "

  /** The `/setup` confirmation. */
  function SetupReplyText(name: string): string
  {
    SetupReplyPrefix + name + "."
  }

  /** A message-path notice: the setup reminder to the origin channel while no
      logging channel is set, the report to the logging channel after. */
  function Notice(logging: Option<ChannelId>, origin: ChannelId, report: Report): Action
  {
    if logging.None? then Remind(origin) else File(logging.value, report)
  }

  // ---------------------------------------------------------------------------
  // Message path

  /** One attachment of `messageHandler`. Refused by the validity filter: a notice
      carrying the invalid-image report, and no classifier call. Accepted: one
      classifier call; a notice carrying the flagged-image report when the reply is
      flagged; nothing when it is not, and nothing when the call fails
      (destructuring its `undefined` result throws and is caught). */
  function HandleAttachment(logging: Option<ChannelId>, msg: Message, url: string, flag: bool, env: Env): (h: Handled)
    ensures h.queried == (if IsValidImage(url) then [url] else [])
    ensures !IsValidImage(url) ==> h.actions == [Notice(logging, msg.channel, InvalidImage(msg.channel, msg.author))]
    ensures IsValidImage(url) && Classify(env.classify(url)).Inappropriate? ==>
              h.actions == [Notice(logging, msg.channel, FlaggedImage(msg.channel, msg.author, env.classify(url).value))]
    ensures IsValidImage(url) && !Classify(env.classify(url)).Inappropriate? ==> h.actions == []
    ensures logging.None? ==> forall a :: a in h.actions ==> a == Remind(msg.channel)
    ensures logging.Some? ==> forall a :: a in h.actions ==> a.File? && a.channel == logging.value
  {
    if !IsValidImage(url) then
      Handled([Notice(logging, msg.channel, InvalidImage(msg.channel, msg.author))], [], flag)
    else
      var c := CheckImage(flag, env.classify(url));
      if c.result.Some? && c.result.value.inappropriateImage then
        var report := FlaggedImage(msg.channel, msg.author, c.result.value.response);
        Handled([Notice(logging, msg.channel, report)], [url], c.flag)
      else
        Handled([], [url], c.flag)
  }

  /** The URLs the validity filter accepts, in order. */
  function ValidOnly(urls: seq<string>): (vs: seq<string>)
    ensures |vs| <= |urls|
    ensures forall u :: u in vs ==> u in urls && IsValidImage(u)
    ensures forall u :: u in urls && IsValidImage(u) ==> u in vs
  {
    if |urls| == 0 then []
    else (if IsValidImage(urls[0]) then [urls[0]] else []) + ValidOnly(urls[1..])
  }

  /** Silent on an attachment: it passed the filter and its reply is not flagged. */
  predicate Silent(url: string, env: Env)
  {
    IsValidImage(url) && !Classify(env.classify(url)).Inappropriate?
  }

  /** Every URL is silent iff the first is and every later one is. */
  lemma SilentCons(urls: seq<string>, env: Env)
    requires |urls| > 0
    ensures (forall i :: 0 <= i < |urls| ==> Silent(urls[i], env))
        <==> Silent(urls[0], env) && forall i :: 0 <= i < |urls[1..]| ==> Silent(urls[1..][i], env)
  {
    assert forall i :: 1 <= i < |urls| ==> urls[i] == urls[1..][i - 1];
  }

  /** The attachments, one after the other, with the module flag threaded through.
      What is asked of the classifier and when nothing is sent are the lemmas below. */
  function HandleAttachments(logging: Option<ChannelId>, msg: Message, urls: seq<string>, flag: bool, env: Env): (h: Handled)
    ensures |h.actions| <= |urls|
    ensures logging.None? ==> forall a :: a in h.actions ==> a == Remind(msg.channel)
    ensures logging.Some? ==> forall a :: a in h.actions ==> a.File? && a.channel == logging.value
    decreases |urls|
  {
    if |urls| == 0 then Handled([], [], flag)
    else
      var first := HandleAttachment(logging, msg, urls[0], flag, env);
      var rest := HandleAttachments(logging, msg, urls[1..], first.flag, env);
      assert forall a :: a in first.actions + rest.actions ==> a in first.actions || a in rest.actions;
      Handled(first.actions + rest.actions, first.queried + rest.queried, rest.flag)
  }

  lemma ConcatAssoc<T>(a: seq<T>, b: seq<T>, c: seq<T>)
    ensures a + (b + c) == (a + b) + c
  {
  }

  /** One unfolding of `HandleAttachments` on its actions. */
  lemma AttachmentsUnfold(logging: Option<ChannelId>, msg: Message, urls: seq<string>, flag: bool, env: Env)
    requires |urls| > 0
    ensures var first := HandleAttachment(logging, msg, urls[0], flag, env);
            HandleAttachments(logging, msg, urls, flag, env).actions
              == first.actions + HandleAttachments(logging, msg, urls[1..], first.flag, env).actions
  {
  }

  /** The classifier is asked about exactly the attachments that pass the validity
      filter, in order. */
  lemma {:induction false} AttachmentsQueryValidOnly(logging: Option<ChannelId>, msg: Message, urls: seq<string>, flag: bool, env: Env)
    ensures HandleAttachments(logging, msg, urls, flag, env).queried == ValidOnly(urls)
    decreases |urls|
  {
    if |urls| > 0 {
      var first := HandleAttachment(logging, msg, urls[0], flag, env);
      AttachmentsQueryValidOnly(logging, msg, urls[1..], first.flag, env);
    }
  }

  /** Nothing at all is sent for a message's attachments exactly when every one of
      them passed the filter and none has a flagged reply. */
  lemma {:induction false} AttachmentsSilentIff(logging: Option<ChannelId>, msg: Message, urls: seq<string>, flag: bool, env: Env)
    ensures HandleAttachments(logging, msg, urls, flag, env).actions == []
        <==> forall i :: 0 <= i < |urls| ==> Silent(urls[i], env)
    decreases |urls|
  {
    if |urls| > 0 {
      var first := HandleAttachment(logging, msg, urls[0], flag, env);
      AttachmentsUnfold(logging, msg, urls, flag, env);
      AttachmentsSilentIff(logging, msg, urls[1..], first.flag, env);
      var rest := HandleAttachments(logging, msg, urls[1..], first.flag, env).actions;
      assert first.actions + rest == [] <==> first.actions == [] && rest == [];
      assert first.actions == [] <==> Silent(urls[0], env);
      SilentCons(urls, env);
    }
  }

  /** `messageHandler`: a message without attachments produces nothing; otherwise
      every attachment is handled. */
  function HandleMessage(logging: Option<ChannelId>, msg: Message, flag: bool, env: Env): (h: Handled)
    ensures msg.attachments == [] ==> h.actions == [] && h.queried == []
    ensures h.queried == ValidOnly(msg.attachments)
    ensures |h.actions| <= |msg.attachments|
    ensures logging.None? ==> forall a :: a in h.actions ==> a == Remind(msg.channel)
    ensures logging.Some? ==> forall a :: a in h.actions ==> a.File? && a.channel == logging.value
  {
    AttachmentsQueryValidOnly(logging, msg, msg.attachments, flag, env);
    if |msg.attachments| > 0 then HandleAttachments(logging, msg, msg.attachments, flag, env)
    else Handled([], [], flag)
  }

  /** What is sent for the attachments does not depend on the flag found on entry. */
  lemma {:induction false} AttachmentsIgnoreFlag(logging: Option<ChannelId>, msg: Message, urls: seq<string>, f1: bool, f2: bool, env: Env)
    ensures HandleAttachments(logging, msg, urls, f1, env).actions == HandleAttachments(logging, msg, urls, f2, env).actions
    decreases |urls|
  {
    if |urls| > 0 {
      var a := HandleAttachment(logging, msg, urls[0], f1, env);
      var b := HandleAttachment(logging, msg, urls[0], f2, env);
      assert a.actions == b.actions;
      AttachmentsIgnoreFlag(logging, msg, urls[1..], a.flag, b.flag, env);
    }
  }

  /** Each attachment is decided on its own: handling `us + vs` sends what handling
      `us` sends, followed by what handling `vs` sends. */
  lemma {:induction false} AttachmentsSplit(logging: Option<ChannelId>, msg: Message, us: seq<string>, vs: seq<string>, flag: bool, env: Env)
    ensures HandleAttachments(logging, msg, us + vs, flag, env).actions
         == HandleAttachments(logging, msg, us, flag, env).actions + HandleAttachments(logging, msg, vs, false, env).actions
    decreases |us|
  {
    if |us| == 0 {
      assert us + vs == vs;
      AttachmentsIgnoreFlag(logging, msg, vs, flag, false, env);
    } else {
      var first := HandleAttachment(logging, msg, us[0], flag, env);
      assert (us + vs)[0] == us[0];
      assert (us + vs)[1..] == us[1..] + vs;
      AttachmentsUnfold(logging, msg, us + vs, flag, env);
      AttachmentsUnfold(logging, msg, us, flag, env);
      AttachmentsSplit(logging, msg, us[1..], vs, first.flag, env);
      ConcatAssoc(first.actions, HandleAttachments(logging, msg, us[1..], first.flag, env).actions,
                  HandleAttachments(logging, msg, vs, false, env).actions);
    }
  }

  // ---------------------------------------------------------------------------
  // Avatar path

  /** `profilePictureHandler`: the avatar goes to the classifier without the
      validity filter. A flagged avatar is reported to the logging channel when one
      is set; with none set, sending to the missing channel throws and is caught,
      so nothing is sent, and no reminder is ever sent on this path. */
  function HandleMember(logging: Option<ChannelId>, member: Member, flag: bool, env: Env): (h: Handled)
    ensures h.queried == [member.avatarUrl]
    ensures forall a :: a in h.actions ==> a.File?
    ensures h.actions != [] <==> logging.Some? && Classify(env.classify(member.avatarUrl)).Inappropriate?
    ensures h.actions != [] ==>
              h.actions == [File(logging.value, FlaggedAvatar(member.id, env.classify(member.avatarUrl).value))]
  {
    var c := CheckImage(flag, env.classify(member.avatarUrl));
    if c.result.Some? && c.result.value.inappropriateImage && logging.Some? then
      Handled([File(logging.value, FlaggedAvatar(member.id, c.result.value.response))], [member.avatarUrl], c.flag)
    else
      Handled([], [member.avatarUrl], c.flag)
  }

  // ---------------------------------------------------------------------------
  // From event to wire

  /** With a logging channel stored, a valid attachment whose reply is flagged puts
      exactly one message on the wire: the red image report in the logging channel,
      naming the origin channel and the poster and carrying the serialized reply. */
  lemma FlaggedAttachmentOnWire(logChannel: ChannelId, msg: Message, url: string, flag: bool, env: Env)
    requires IsValidImage(url) && Classify(env.classify(url)).Inappropriate?
    ensures var h := HandleAttachment(Some(logChannel), msg, url, flag, env);
            && |h.actions| == 1
            && var m := Render(env, h.actions[0]);
            && m.SendEmbed? && m.channel == logChannel && m.embed.color == Red
            && m.embed.title == "Inappropriate Image detected."
            && Contains(m.embed.description, ChannelMention(msg.channel))
            && Contains(m.embed.description, UserMention(msg.author))
            && Contains(m.embed.description, env.serialize(env.classify(url).value))
  {
  }

  /** With a logging channel stored, an attachment the filter refuses puts exactly
      one message on the wire: the amber report naming the origin channel and the
      poster. */
  lemma InvalidAttachmentOnWire(logChannel: ChannelId, msg: Message, url: string, flag: bool, env: Env)
    requires !IsValidImage(url)
    ensures var h := HandleAttachment(Some(logChannel), msg, url, flag, env);
            && |h.actions| == 1 && h.queried == []
            && var m := Render(env, h.actions[0]);
            && m.SendEmbed? && m.channel == logChannel && m.embed.color == Amber
            && m.embed.title == "Image unable to be analyzed."
            && Contains(m.embed.description, ChannelMention(msg.channel))
            && Contains(m.embed.description, UserMention(msg.author))
  {
  }

  /** While no logging channel is stored, any attachment that would be reported
      instead puts the setup reminder into the channel it was posted in. */
  lemma ReminderOnWire(msg: Message, url: string, flag: bool, env: Env)
    requires !Silent(url, env)
    ensures var h := HandleAttachment(None, msg, url, flag, env);
            && |h.actions| == 1
            && Render(env, h.actions[0]) == SendText(msg.channel, ReminderText)
  {
  }

  /** With a logging channel stored, a flagged avatar puts exactly one message on the
      wire: the red avatar report naming the member and carrying the serialized reply. */
  lemma FlaggedAvatarOnWire(logChannel: ChannelId, member: Member, flag: bool, env: Env)
    requires Classify(env.classify(member.avatarUrl)).Inappropriate?
    ensures var h := HandleMember(Some(logChannel), member, flag, env);
            && |h.actions| == 1
            && var m := Render(env, h.actions[0]);
            && m.SendEmbed? && m.channel == logChannel && m.embed.color == Red
            && m.embed.title == "Inappropriate Avatar detected."
            && Contains(m.embed.description, UserMention(member.id))
            && Contains(m.embed.description, env.serialize(env.classify(member.avatarUrl).value))
  {
  }

  // ---------------------------------------------------------------------------
  // Configuration store

  /** `updateLoggingChannel`: the single stored id is overwritten. */
  function UpdateLoggingChannel(logging: Option<ChannelId>, id: ChannelId): Option<ChannelId>
  {
    Some(id)
  }
}
