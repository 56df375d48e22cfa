# Image moderation bot: verdict and routing model

This project is a Dafny model of the moderation pipeline of a chat bot. The bot checks images that users post, and the avatars of members who join, against an external moderation classifier. It then reports violations to a configured logging channel. Two layers are modelled:

- **Verdict logic** (`functions.js`):
  - The validity filter (`checkImageValidity`). It accepts a URL when its lower-cased form ends in `jpeg`, `jpg`, `png`, `webp` or `gif`.
  - The walk over the classifier's JSON reply (`analyseImageAPIData` / `compareAPIData`). It folds the reply into the module-wide `inappropriateImage` flag with an inclusive 0.5 threshold.
  - `checkImage`. It resets the flag, folds the reply in, and resolves with `{response, inappropriateImage}`, or with nothing on failure.
- **Routing** (`handlers.js`, `commands/logging/setup.js`):
  - What is sent for each attachment of a message and for a joining member's avatar. This depends on validity, on the classifier outcome, and on whether a logging channel is stored.
  - The `/setup` command, which confirms the channel and then stores its id.

The model is functional throughout:
- The reply is a `Json.JValue`.
- The module flag is passed in and handed back explicitly.
- The classifier request, the JSON serializer and the bot's identity are parameters (`Handlers.Env`).
- Handlers return a sequence of `Handlers.Action` values: a reminder, a filed report, or the setup confirmation. `Handlers.Render` turns each action into the exact text or embed sent.
- `Bot.Step` / `Bot.Run` run the whole bot as a state machine. The state is the stored logging channel plus the flag. The events are `/setup`, a posted message and a member joining.

Files: `wrappers.dfy` (`Option`), `json.dfy` (JSON values and `Object.keys`), `validity.dfy`, `verdict.dfy`, `handlers.dfy`, `setup.dfy`, `bot.dfy`.

### How the walk reads a reply

- **Only two levels are read.** The walk is not recursive:
  - top-level numbers are compared whatever their key, so `{timestamp: 0.99}` alone flags the image (`Verdict.MetadataKeysOnlyInner`);
  - inside a top-level object or array, only number children are compared, and only under keys other than `timestamp`, `operations` and `none`;
  - anything deeper is ignored (`Verdict.PruneKeepsVerdict`).
- **Every category score counts.** Any non-metadata inner number counts, so `{nudity: {raw: 0.4, safe: 0.9}}` is flagged through `safe` (`Verdict.VerdictExamples`).
- **A null aborts the walk.** `typeof null` is `'object'`, so a null reply, or a null top-level value, makes `Object.keys` throw. `checkImage` then resolves with no value, and the handlers send nothing.

## Model

| member | source | states |
|---|---|---|
| ImageValidity.CheckImageValidity | functions.js:41-50 | the loop over the allow-list returns true exactly when the lower-cased URL ends in one of the allowed types, equivalently when its last three or four characters are one |
| ImageValidity.ValidityBySuffix | functions.js:42-45 | the allow-list rule agrees on every string with the suffix-length reading: three-letter `jpg`/`png`/`gif` or four-letter `jpeg`/`webp`, no dot required |
| ImageValidity.CaseInsensitive | functions.js:45 | a string and its lower-cased form get the same answer |
| ImageValidity.ValidityTestVectors | tests/functions.test.js:8-10 | `...jpeg` is accepted; a string with no extension and a `.tiff` name are refused |
| ImageValidity.ValidityLooseExamples | functions.js:45 | `notapng` (no dot) and `a.JPG` (upper case) are accepted |
| Verdict.Compare | functions.js:91-96 | a confidence at or above 0.5 raises the flag; below it the flag is returned unchanged, so a raised flag stays raised |
| Verdict.CompareExamples | tests/functions.test.js:18-19 | on a fresh flag 0.4 reads false and a following 0.7 reads true; 0.4 on a raised flag reads true; 0.5 flags and 0.49 does not |
| Verdict.InnerWalk | functions.js:62-73 | after the inner loop the flag is raised iff it was raised before or some number child under a non-metadata key reaches 0.5 |
| Verdict.TopWalk | functions.js:58-77 | the outer loop never lowers the flag; it aborts iff some top-level value is null; when it completes, the flag is raised iff it was before or some top-level entry is a hit (a number at or above 0.5, or an object or array holding an inner hit) |
| Verdict.Analyse | functions.js:57-78 | the walk aborts exactly on unanalysable replies; otherwise the flag afterwards is the old flag or-ed with the two-level existential verdict `Flagged` |
| Verdict.AnalyseIsMonotoneOr | functions.js:57-96 | folding a reply into a raised flag gives the old flag or-ed with what folding it into a lowered flag gives |
| Verdict.MetadataKeysOnlyInner | functions.js:61-76 | a top-level numeric `timestamp` is compared and flags; inner `timestamp` and `none` numbers are skipped |
| Verdict.VerdictExamples | functions.js:57-78 | 0.5 flags and 0.49 does not; a non-metadata inner score such as `safe` flags; a value three levels down does not; a null category aborts the walk |
| Verdict.PruneKeepsVerdict | functions.js:61-75 | erasing everything below the second level, every non-number inner value and every inner metadata number leaves the walk's result unchanged, including the flag of an aborted walk |
| Verdict.CheckImage | functions.js:13-33 | a failed request resolves with no value and a lowered flag; otherwise it resolves with no value iff the reply is unanalysable, else with the reply and a verdict that is true iff the reply is flagged, and the flag left equals that verdict |
| Verdict.CheckImageIgnoresEarlierFlag | functions.js:14-25 | because the flag is reset first, the call's outcome is the same whatever flag an earlier call left; it fails iff the reply-level classification fails and is inappropriate iff the reply is flagged |
| Verdict.FoldReply | functions.js:24-32 | one reply folded into the shared flag without a reset: no value exactly when the request fails or the walk aborts; a failed request leaves the flag as it was; a completed fold leaves exactly the old flag or-ed with whether this reply is flagged, so it reads true whenever the reply is flagged and never lowers a raised flag |
| Verdict.InterleavedVerdicts | functions.js:13-25 | as written, with all resets done before replies arrive: one verdict per reply, none missing its own hit, and no value exactly for failed replies |
| Verdict.InterleavedVerdictsLeak | handlers.js:17-22 | a flagged reply followed by an unflagged one makes both calls read back true |
| Verdict.SequentialVerdicts | functions.js:14-25 | with a reset before each fold, each verdict is exactly the verdict of its own reply |
| Handlers.Mention | handlers.js:14-15 | a mention `<` sigil id `>` (`#` for the channel, `@` for the poster) reads back as its id under its own sigil and as nothing under any other |
| Handlers.MentionsInjective | handlers.js:14-15 | two mentions are equal iff they have the same sigil and the same id, so a channel mention is never a user mention |
| Handlers.ImageEmbed | handlers.js:28-38 | the red `Inappropriate Image detected.` embed, authored by the bot, whose description contains the channel mention, the poster's mention and the serialized reply |
| Handlers.InvalidImageEmbed | handlers.js:51-60 | the amber `Image unable to be analyzed.` embed, authored by the bot, whose description contains the channel and poster mentions |
| Handlers.AvatarEmbed | handlers.js:81-90 | the red `Inappropriate Avatar detected.` embed whose description contains the member's mention and the serialized reply |
| Handlers.Render | handlers.js:24-90 | a reminder is the fixed setup text to the origin channel; a report is an embed to its channel, red iff about flagged content and amber iff about an invalid image; a flagged-image report is titled `Inappropriate Image detected.` and names the origin channel, the poster and the serialized reply; an invalid-image report is titled `Image unable to be analyzed.` and names the channel and the poster; an avatar report is titled `Inappropriate Avatar detected.` and names the member and the serialized reply |
| Handlers.HandleAttachment | handlers.js:17-62 | refused by the filter: no classifier call, and the reminder (no channel stored) or the amber report (channel stored); accepted and flagged: one call, then the reminder or the red report; accepted and not flagged, or the call failed: one call and nothing sent |
| Handlers.HandleAttachments | handlers.js:17-63 | at most one action per attachment; while no channel is stored every action is the reminder to the origin channel, once one is every action is a report to it |
| Handlers.AttachmentsQueryValidOnly | handlers.js:19-22 | the classifier is asked about exactly the attachments that pass the filter, in order |
| Handlers.AttachmentsSilentIff | handlers.js:20-45 | nothing is sent iff every attachment passes the filter and none has a flagged reply |
| Handlers.AttachmentsIgnoreFlag | handlers.js:22 | what is sent for the attachments does not depend on the flag found on entry |
| Handlers.AttachmentsSplit | handlers.js:17 | each attachment is decided on its own: handling `us + vs` sends what `us` sends followed by what `vs` sends |
| Handlers.HandleMessage | handlers.js:13-65 | a message without attachments sends nothing and asks nothing; the classifier is asked about the valid attachments only; reminders only while no channel is stored, reports only after |
| Handlers.HandleMember | handlers.js:75-97 | the avatar is always sent to the classifier, with no validity filter; a report is filed iff a channel is stored and the reply is flagged; no reminder is ever sent |
| Handlers.FlaggedAttachmentOnWire | handlers.js:23-38 | with a logging channel stored, a valid attachment with a flagged reply sends exactly one message: the red `Inappropriate Image detected.` embed in the logging channel naming the origin channel, the poster and the serialized reply |
| Handlers.InvalidAttachmentOnWire | handlers.js:46-60 | with a logging channel stored, a refused attachment is not sent to the classifier and sends exactly one message: the amber `Image unable to be analyzed.` embed in the logging channel naming the origin channel and the poster |
| Handlers.ReminderOnWire | handlers.js:24-49 | while no logging channel is stored, an attachment that would be reported instead sends exactly the setup reminder to the channel it was posted in |
| Handlers.FlaggedAvatarOnWire | handlers.js:78-90 | with a logging channel stored, a flagged avatar sends exactly one message: the red `Inappropriate Avatar detected.` embed in the logging channel naming the member and carrying the serialized reply |
| SetupCommand.DeclarationShape | commands/logging/setup.js:11-19 | the command is `setup`, with one required option `channel` that only text channels satisfy, and BanMembers as the default permission |
| SetupCommand.Execute | commands/logging/setup.js:20-26 | a delivered reply is followed by storing the channel's id; a rejected reply leaves the stored channel as it was |
| SetupCommand.ReplyNamesChannel | commands/logging/setup.js:22 | the reply is the fixed sentence, the channel's name, then a full stop, so the name reads back from it |
| SetupCommand.SetupOverwrites | commands/logging/setup.js:25 | running the command twice on one channel equals running it once; on two channels the second wins |
| Bot.Step | index.js:54-96 | only a successful `/setup` changes the stored channel; an event sends no report while no channel is stored and no reminder once one is |
| Bot.RunStoresLastSetup | handlers.js:105-107 | after any sequence of events, the stored channel is the one from the last successful `/setup`, or the initial one if there was none |
| Bot.RemindersThenReports | handlers.js:24-51 | from a configured state no reminder is ever sent; from an unconfigured state, with no successful `/setup`, no report is ever filed |
| Bot.SetupIdempotentAndLastWins | commands/logging/setup.js:25 | at the event level, a repeated `/setup` on one channel leaves the same state as a single one, and on a second channel the second wins |

## Left out

- Console output (`console.log`, `console.error`) is not modelled. Every such path is simply one that sends nothing.
- The classifier HTTP request is the parameter `Env.classify`, and `None` stands for a failed request. The model therefore gives one URL the same reply every time it is asked.
- `checkImage` resolves with the whole HTTP response, of which the handlers read only `data`. `Verdict.CheckResult.response` holds that `data`, the parsed reply.
- `JSON.stringify` is the opaque parameter `Env.serialize`. `EmbedBuilder` is the `Embed` record. The bot's tag and default avatar are `Env.bot`.
- The channel-cache lookup is not modelled. A stored logging id is assumed to resolve to a channel. An unknown id would make `send` throw: in the invalid-image branch that throw is outside any `try`, and in the other branches it is caught.
- Attachments of one message are handled one after the other. The asynchronous `forEach` interleaving appears only in the finding below.
- Events are atomic in `Bot.Step` / `Bot.Run`: each event is handled to completion before the next one starts. In the program, the handlers read the stored channel only when the classifier replies (handlers.js:24, 28 and 81), while a refused attachment reads it at once (handlers.js:48-51). So a `/setup` that completes while a request is pending changes where that attachment's notice goes. One message can then send both a reminder and a report, which the per-event contracts of `Bot.Step` and `Handlers.HandleMessage` exclude.
- The shared flag is also reset across events: a member joining, or a second message, while a request is pending runs the reset at functions.js:14 over the first event's flag. The model threads the flag through events in order and does not model this overlap. Within one message it is the finding below.
- `index.js` is left out: the command loader, presence, login, and the generic error reply after a failed command. `deploy-commands.js` is left out too: a directory scan and a registration request.
- Lower-casing maps ASCII letters only. No other character lower-cases to a sequence ending in a letter of an allowed type (`İ` becomes `i` plus a combining dot, which no allowed suffix contains), so the filter's answers are the same.
- A `JNum` holds the exact value of the parsed double, so rounding of decimal text to a double is not modelled. A `JObj` lists its keys in `Object.keys` order and is assumed to repeat none.
- Verdict.InterleavedVerdicts: states only that no verdict misses its own reply's hit and which verdicts are missing. It does not give the full prefix characterisation of the shared flag.
- Verdict.Analyse: for an aborted walk it states only that the flag never drops, not which prefix of the reply was folded in before the abort.
- Handlers.UpdateLoggingChannel carries no contract of its own. Its overwrite behaviour is stated by `Bot.RunStoresLastSetup` and `SetupCommand.SetupOverwrites`.

## Findings

| source | as written | input that shows it | evidently intended | confidence | as-written member | corrected member |
|---|---|---|---|---|---|---|
| functions.js:14-25 | `checkImage` resets the module-wide flag, then suspends on the request. For a message with several attachments, every reset therefore runs before any reply is folded in, and each call reads back a flag that replies arriving earlier may have raised. | a message with two valid attachments whose replies arrive as `{nudity: 0.9}` and then `{nudity: 0.1}`: both calls read back true, and with a logging channel stored the harmless image is reported red | each verdict reflects only its own reply | not executed; high, from JavaScript's run-to-completion order for `forEach` with async callbacks | Verdict.InterleavedVerdictsLeak | Verdict.SequentialVerdicts |
