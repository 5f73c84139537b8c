# Gofency captcha lifecycle, modelled in Dafny

Gofency is a Telegram group bot. It challenges each member who joins a chat with a four-digit captcha image. If the member answers with the right digits, the challenge record is cleared. A wrong answer, or no answer within thirty seconds, gets the member banned for ten minutes. This project models the core of that lifecycle and proves properties of the model, in these modules:

- `Registry` (`registry.dfy`): the captcha registry, `CaptchaFSM`. It is a class whose field `states` is a map from user id to the pending `CaptchaData` record. Methods set, get and delete a record, test expiry, and sweep expired records. Laws about these operations are stated on the map they act on.
- `CaptchaService` (`captcha_service.dfy`): the challenge generator.
  - The answer loop draws four digits from a random source, which is an input sequence.
  - It paints a 200×80 canvas held in an `array2` of RGBA pixels, updated in place: background fill, ten noise lines, the seven-segment glyphs of the answer at fixed centres, and a hundred noise dots.
  - Lines are drawn with integer Bresenham and a two-pixel thickening, clipped to the canvas.
  - The generator also reads an answer back from an asset file name.
- `Telegram` (`telegram.dfy`): the users, messages and updates the handlers read. Transport calls are written into an action log instead of being sent.
- `Mention` (`mention.dfy`): `EscapeMarkdown`, proved equal to a per-character escape, and `GenerateMention` with its four shapes.
- `CaptchaCallback` (`captcha_callback.dfy`): the answer handler. It is a function `AnswerStep` of the registry and the transport's replies, and a method over the registry object proved equal to it.
- `CaptchaJoin` (`captcha_join.dfy`): the join handler's per-member loop, and the timeout check that evicts a member whose answer window has passed. Each is a function and a method proved equal to it.
- `Localization` (`localization.dfy`): how the bot chooses the language of an update, over a user repository reduced to a map.
- `Routing` (`routing.dfy`): the default handler's choice between the join handler and the answer handler.
- `Lifecycle` (`lifecycle.dfy`): properties that span handlers. The registry stays well formed across join, answer and timeout steps. Whichever of the answer and the timeout comes first consumes the record, and the other then does nothing. The model also walks through one scenario end to end.
- `Base` (`base.dfy`): `Option`, decimal rendering of integers (`fmt`'s `%d`, big.Int's `String`), and a parser that is its inverse.

Time is an integer number of nanoseconds. The answer handler and the timeout check each take one instant `now` and use it for every clock read they make. The join handler reads the clock once per member when it writes the record (internal/telegrambot/handlers/captcha.go:83), and the model gives each member its own instant, `Attempt.now`. The answer handler reads the clock twice: in IsExpired (internal/fsm/captcha.go:69) and for the ban date (internal/telegrambot/handlers/captcha_callback.go:95). The timeout check also reads it twice: in IsExpired (internal/telegrambot/handlers/captcha.go:108) and for the ban date (internal/telegrambot/handlers/captcha.go:122). In the model both reads of the answer handler, and both reads of the timeout check, see the same `now`. `time.Time.After` is strict, so a record is still live at exactly its expiry instant (`Registry.ExpiryBoundary`). The ban date `int(t.Add(10 * time.Minute).Unix())` is modelled by `BanUntil`: whole seconds, rounded down.

The model follows two behaviours of the code as written. The answer handler acts in the chat the answer was sent to and never compares it with the chat stored in the record. So an answer sent from another chat, a private chat with the bot say, consumes the record; a wrong one bans the sender there and not in the group, and the later timeout check finds nothing (`CaptchaCallback.AnswerChatNotChecked`, `Lifecycle.AnswerBeatsTimeout`). And although a comment in the wrong-answer path speaks of banning and then unbanning to kick, the code only bans, for ten minutes, and so does the model. Challenge photos are always posted with a Markdown caption, so `SendPhoto` carries no formatting flag.

## Model

| member | source | states |
|---|---|---|
| Registry.Lookup | internal/fsm/captcha.go:47-52 | a record is found exactly when the user id is a key, and it is the stored record |
| Registry.Swept | internal/fsm/captcha.go:73-82 | the sweep keeps exactly the records whose expiry `now` is not strictly after, each with its value unchanged |
| Registry.CaptchaFSM.constructor | internal/fsm/captcha.go:33-37 | a new registry is empty |
| Registry.CaptchaFSM.SetState | internal/fsm/captcha.go:40-44 | the map afterwards is the old map with the user's entry replaced or added |
| Registry.CaptchaFSM.GetState | internal/fsm/captcha.go:47-52 | present exactly when the user has a record, and then that record; nothing changes |
| Registry.CaptchaFSM.DeleteState | internal/fsm/captcha.go:55-59 | the map afterwards is the old map without the user's key, whether or not it was there |
| Registry.CaptchaFSM.IsExpired | internal/fsm/captcha.go:62-70 | true exactly when the user has no record or `now` is strictly after its expiry |
| Registry.CaptchaFSM.CleanupExpired | internal/fsm/captcha.go:73-82 | the key-by-key deletion loop leaves exactly the swept map |
| Registry.SetThenGet | internal/fsm/captcha.go:40-52 | after SetState(u, d), GetState(u) gives d |
| Registry.LastWriteWins | internal/fsm/captcha.go:40-44 | of two writes to the same key, the second wins |
| Registry.DeleteLaws | internal/fsm/captcha.go:55-59 | after a delete the key is absent; deleting twice is deleting once; deleting an absent key changes nothing |
| Registry.OtherKeysUnchanged | internal/fsm/captcha.go:40-59 | setting or deleting key u leaves every other key's lookup unchanged |
| Registry.ExpiryBoundary | internal/fsm/captcha.go:62-70 | an absent record is expired; a present one is expired exactly when now > expiry, so not at the expiry instant, and once expired it stays expired later |
| Registry.SweptExactly | internal/fsm/captcha.go:73-82 | a record survives the sweep exactly when its expiry is at or after `now`, and keeps its value |
| Registry.SweptIdempotent | internal/fsm/captcha.go:73-82 | sweeping twice at one instant equals sweeping once |
| Registry.SweptAllExpired | internal/fsm/captcha.go:73-82 | when every record is expired the sweep leaves an empty registry |
| Registry.DeletedStaysAbsent | internal/fsm/captcha.go:40-59 | after a delete of u, any sequence of operations that never sets u leaves u absent |
| Registry.KeyedByUserPreserved | internal/fsm/captcha.go:40-44 | if every write keys a record by its own user id, every record stays keyed by its own user id |
| Base.NatToString | internal/captcha/service.go:50 | a non-empty string of decimal digits without a leading zero, one digit below ten |
| Base.IntToString | internal/telegrambot/handlers/captcha_callback.go:140 | `%d` of an int: digits, with a leading minus sign exactly for negative numbers |
| Base.NatToStringValue | internal/captcha/service.go:50 | the digits written for n have value n |
| Base.IntToStringRoundTrip | internal/telegrambot/handlers/captcha_callback.go:140 | reading back the decimal rendering of any int gives the int |
| CaptchaService.DrawAnswer | internal/captcha/service.go:44-51 | fails exactly when some draw fails; otherwise four decimal digits, digit i being the rendering of draw i |
| CaptchaService.EveryAnswerDrawable | internal/captcha/service.go:44-51 | every four-digit string, leading zeros included, comes from some sequence of draws below ten |
| CaptchaService.Plot | internal/captcha/service.go:185-194 | the point and its east and south neighbours get the colour where they are on the canvas; every other pixel is unchanged, and an off-canvas point changes nothing |
| CaptchaService.Fill | internal/captcha/service.go:57 | every pixel of the canvas gets the colour |
| CaptchaService.BresenhamStep | internal/captcha/service.go:200-208 | with a and b the distances still to go, the error term moves x only when a > 0 and y only when b > 0, moves at least one of them, and keeps `err = dx - dy + dy·a - dx·b` |
| CaptchaService.DrawLine | internal/captcha/service.go:171-210 | the loop ends; the visited points start at (x1, y1), end at (x2, y2), change each coordinate by at most one per step and stay in the end points' bounding box; the pixels changed are exactly those near a visited point, set to `col` |
| CaptchaService.DigitSegments | internal/captcha/service.go:144-160 | every segment end point of every glyph lies in x ∈ [-10, 10], y ∈ [-20, 20]; a character has segments exactly when it is a decimal digit |
| CaptchaService.DrawSegment | internal/captcha/service.go:162-169 | a line between the segment's end points shifted by the offset; only its pixels change |
| CaptchaService.DrawDigit | internal/captcha/service.go:130-138 | one line per table segment, in table order; the pixels changed are exactly those covered by a stroke, set to the digit colour |
| CaptchaService.UnclippedPlotsAll | internal/captcha/service.go:185-194 | a point whose thickening fits on the canvas plots all three of its pixels |
| CaptchaService.GlyphInsideCanvas | internal/captcha/service.go:65-69 | at any of the four centres (i·50 + 12, 40), every point in any segment's bounding box is drawn unclipped |
| CaptchaService.GlyphStrokesUnclipped | internal/captcha/service.go:65-70 | every point of every stroke of a glyph at a digit centre is drawn unclipped |
| CaptchaService.DrawNoiseLine | internal/captcha/service.go:212-220 | a line between the drawn end points in the noise colour; only its pixels change |
| CaptchaService.NoiseLineInCanvas | internal/captcha/service.go:212-219 | a noise line between two canvas points stays on the canvas |
| CaptchaService.DrawNoiseDot | internal/captcha/service.go:222-228 | exactly the drawn pixel takes the dot colour |
| CaptchaService.FinalColorInPalette | internal/captcha/service.go:57-75 | every generated pixel is the background, noise-line, digit or noise-dot colour |
| CaptchaService.DrawNoiseLines | internal/captcha/service.go:60-62 | stroke i is a line between the end points of noise line i; over the background, the pixels covered by a stroke take the noise colour and the others stay background |
| CaptchaService.DigitCentre | internal/captcha/service.go:65-68 | each of the four digit centres lies on the canvas, at half its height |
| CaptchaService.GlyphFramesApart | internal/captcha/service.go:65-68 | the frames 10 pixels either side of two different digit centres do not overlap |
| CaptchaService.DrawAnswerDigits | internal/captcha/service.go:65-70 | glyph i is one line per segment of the answer's digit i, in table order, centred at digit centre i; the digit strokes are the four glyphs in order, none clipped; a pixel covered by a digit stroke takes the digit colour, otherwise it keeps the noise-line or background colour |
| CaptchaService.DrawNoiseDots | internal/captcha/service.go:73-75 | exactly the drawn points take the dot colour; every other pixel is unchanged |
| CaptchaService.Generate | internal/captcha/service.go:41-78 | with the PNG encoding left out, fails exactly when a digit draw fails; otherwise a fresh 200×80 canvas whose answer digit i is the rendering of draw i; glyph i is the glyph of answer digit i at digit centre i, and the digit strokes are the four glyphs in order; each pixel is the colour of the last layer covering it (dots over digits over lines over background); the lines stay on the canvas and the digits are never clipped |
| CaptchaService.DigitStrokesShown | internal/captcha/service.go:64-75 | every point of every stroke of answer digit i shows the digit colour in the finished image unless a noise dot was drawn on it |
| CaptchaService.AnswerFromFilename | internal/captcha/service.go:113-115 | the answer is the file name minus its last four characters, so the two rejoin to the name |
| CaptchaService.AssetNameRoundTrip | internal/captcha/service.go:113-115 | naming a file `<answer>.png` and reading its answer back gives the answer |
| CaptchaService.AssetNameExample | internal/captcha/service.go:113 | "5647.png" gives "5647" |
| Telegram.BanUntil | internal/telegrambot/handlers/captcha_callback.go:95 | the whole second, rounded down, of the instant ten minutes after now |
| Mention.ReplaceAll | internal/telegrambot/handlers/captcha_callback.go:133 | when the replacement does not contain the needle, no occurrence of the needle is left |
| Mention.SpecialsDistinct | internal/telegrambot/handlers/captcha_callback.go:131 | the eighteen special characters are distinct and do not include the backslash |
| Mention.EscapeTurn | internal/telegrambot/handlers/captcha_callback.go:132-134 | one ReplaceAll turn extends the per-character escape to one more special character |
| Mention.EscapeMarkdown | internal/telegrambot/handlers/captcha_callback.go:130-136 | the loop of ReplaceAll calls equals the per-character map: each special character prefixed with one backslash, every other character copied |
| Mention.EscapedLength | internal/telegrambot/handlers/captcha_callback.go:131-135 | the escaped length is the input length plus the number of special characters |
| Mention.NoSpecialsUnchanged | internal/telegrambot/handlers/captcha_callback.go:131-135 | a text without special characters comes back unchanged |
| Mention.UnescapeEscaped | internal/telegrambot/handlers/captcha_callback.go:130-136 | removing the backslash before each special character restores the text, so nothing is escaped twice |
| Mention.SpecialsArePrefixed | internal/telegrambot/handlers/captcha_callback.go:130-136 | every special character in the escaped text directly follows a backslash |
| Mention.Link | internal/telegrambot/handlers/captcha_callback.go:140-146 | a Markdown link: '[', the text, then `](tg://user?id=ID)` |
| Mention.GenerateMention | internal/telegrambot/handlers/captcha_callback.go:138-147 | every mention opens with '[' and ends with `](tg://user?id=ID)` for the user's own id |
| Mention.MentionShapes | internal/telegrambot/handlers/captcha_callback.go:138-147 | first and last name give `[first last](tg://user?id=ID)` escaped; first name only gives `[first](…)`; username only gives `[@](…)`; no name gives `[User](…)` |
| Mention.UsernameOnlyMention | internal/telegrambot/handlers/captcha_callback.go:143-144 | a user known only by username is mentioned as exactly `[@](tg://user?id=ID)` |
| Mention.UsernameOnlyExample | internal/telegrambot/handlers/captcha_callback.go:143-144 | user 42 known only as "alice" is mentioned as `[@](tg://user?id=42)` |
| CaptchaCallback.Verdict | internal/telegrambot/handlers/captcha_callback.go:53-127 | both paths delete the challenge photo; the calls include a ban exactly when the answer differs from the stored one |
| CaptchaCallback.AnswerStep | internal/telegrambot/handlers/captcha_callback.go:18-128 | the step only removes records and never changes one that stays; it makes a call exactly when the message is a checked answer (a record exists and is not expired) |
| CaptchaCallback.CorrectAnswerNotice | internal/telegrambot/handlers/captcha_callback.go:47-86 | on the correct path the calls are, in order: delete the answer, delete the photo, post the Markdown success notice with the sender's mention, and delete that notice later when it was posted |
| CaptchaCallback.HandleCaptchaTextAnswer | internal/telegrambot/handlers/captcha_callback.go:18-128 | the handler's registry changes and ordered transport calls equal those of AnswerStep; without a registry nothing happens |
| CaptchaCallback.IgnoredMessages | internal/telegrambot/handlers/captcha_callback.go:19-45 | no message, empty text, no record or an expired record: the registry is unchanged and nothing is called |
| CaptchaCallback.CheckedAnswerConsumesRecord | internal/telegrambot/handlers/captcha_callback.go:48-89 | a checked answer first deletes the answer message, and on both paths removes exactly the sender's record, leaving every other lookup unchanged |
| CaptchaCallback.BanIffWrongAnswer | internal/telegrambot/handlers/captcha_callback.go:54-100 | a ban is issued exactly when a checked answer differs from the stored one |
| CaptchaCallback.WrongAnswerBan | internal/telegrambot/handlers/captcha_callback.go:89-113 | on the wrong path the sender is banned until ten minutes after now, then the photo is deleted, then the plain failure notice is posted |
| CaptchaCallback.AnswerChatNotChecked | internal/telegrambot/handlers/captcha_callback.go:47-105 | an answer sent from a chat other than the record's still consumes the record, and every call goes to the answer's chat, none to the record's |
| CaptchaCallback.BanResultIgnored | internal/telegrambot/handlers/captcha_callback.go:92-113 | whether the ban succeeds changes nothing |
| CaptchaCallback.ExactComparison | internal/telegrambot/handlers/captcha_callback.go:54 | answers are compared without trimming: " 1234" against "1234" is banned, "1234" is not |
| CaptchaJoin.MemberStep | internal/telegrambot/handlers/captcha.go:30-93 | one member's turn changes at most the member's own record, and makes a call exactly when the member is challenged (not a bot, and generation worked) |
| CaptchaJoin.JoinLoop | internal/telegrambot/handlers/captcha.go:30-93 | the member loop never removes a record and makes at most two calls per member |
| CaptchaJoin.JoinStep | internal/telegrambot/handlers/captcha.go:18-95 | the join handler never removes a record |
| CaptchaJoin.ChallengeMember | internal/telegrambot/handlers/captcha.go:30-93 | one loop turn's calls and registry change equal those of MemberStep for the sender's mention |
| CaptchaJoin.ChallengeMembers | internal/telegrambot/handlers/captcha.go:30-93 | the loop over the members makes the calls and registry changes of JoinLoop |
| CaptchaJoin.HandleNewChatMember | internal/telegrambot/handlers/captcha.go:18-95 | the handler's registry changes and ordered transport calls equal those of JoinStep; without a registry only photos are posted |
| CaptchaJoin.JoinIgnored | internal/telegrambot/handlers/captcha.go:22-25 | no message or no members: nothing changes and nothing is called |
| CaptchaJoin.UnchallengedSkipped | internal/telegrambot/handlers/captcha.go:31-43 | a bot, or a member whose generation failed, gets no record and causes no call |
| CaptchaJoin.MemberStepOutcome | internal/telegrambot/handlers/captcha.go:47-90 | the caption is welcome + "\n\n" + prompt with the sender's mention; a failed post or a missing registry writes nothing; otherwise the record keyed by the member's id holds the chat, the answer, now + 30 s and the photo id, and the timeout check is started |
| CaptchaJoin.JoinLoopRecords | internal/telegrambot/handlers/captcha.go:30-93 | after the loop every record is an old one or the record of a registered member, and a user with no registered attempt keeps their lookup |
| CaptchaJoin.JoinLoopRegisters | internal/telegrambot/handlers/captcha.go:79-85 | a member whose attempt is registered, with no later registered attempt of the same id, ends the loop with exactly its own record |
| CaptchaJoin.TimeoutStep | internal/telegrambot/handlers/captcha.go:98-155 | the timeout either changes nothing or removes exactly the user's record, which it does only when the record exists and `now` is strictly after its expiry; it makes calls exactly when it removes the record |
| CaptchaJoin.TimeoutNotice | internal/telegrambot/handlers/captcha.go:137 | the notice opens with its fixed head followed by the mention, then more text |
| CaptchaJoin.ScheduleTimeoutCheck | internal/telegrambot/handlers/captcha.go:98-155 | the check's registry change and ordered calls equal those of TimeoutStep |
| CaptchaJoin.TimeoutNoChange | internal/telegrambot/handlers/captcha.go:101-111 | an absent or unexpired record: nothing changes and nothing is called |
| CaptchaJoin.TimeoutEviction | internal/telegrambot/handlers/captcha.go:115-154 | on expiry the record is removed; a failed ban ends the step; otherwise the photo is deleted, the notice posted and, after ten seconds, deleted, in that order |
| Localization.TelegramID | internal/telegrambot/middlewares/localization.go:65-76 | the id of the first candidate sender (message sender, callback query's, inline query's), or 0 when there is none |
| Localization.TelegramLanguage | internal/telegrambot/middlewares/localization.go:78-92 | the reported language of the first candidate sender, or "" when there is none |
| Localization.SamePriority | internal/telegrambot/middlewares/localization.go:65-92 | the id and the language both come from the message sender, else the callback query's, else the inline query's; 0 and "" when there is none |
| Localization.Normalized | internal/telegrambot/middlewares/localization.go:94-113 | the result is supported or "en", and is the code itself, its two-character prefix or "en" |
| Localization.NormalizeLanguageCode | internal/telegrambot/middlewares/localization.go:94-113 | the two search loops return what Normalized describes |
| Localization.NormalizedIsKnown | internal/telegrambot/middlewares/localization.go:94-113 | the result is supported or "en"; a supported code is returned as it is; otherwise a supported two-character prefix is returned |
| Localization.NormalizedOrderIndependent | internal/telegrambot/middlewares/localization.go:95-112 | the order and repetitions of the supported list do not matter |
| Localization.NormalizedExamples | internal/telegrambot/middlewares/localization.go:94-113 | "en-US" gives "en", "ru" gives "ru", "de" gives "en" |
| Localization.UserRepository.UpsertLanguage | internal/repositories/user.go:70-85 | unless the database call fails, the id's code is recorded whether a row existed or not |
| Localization.GetUserLanguage | internal/telegrambot/middlewares/localization.go:37-63 | id 0 gives "en" and no repository change; a stored language is returned as it is; a lookup error counts as not found; a reported language is normalised, upserted and returned even if the upsert fails; no reported language gives "en" |
| Routing.DefaultRoute | internal/telegrambot/bot.go:67-85 | a handler is chosen only for a message that has a sender, and the answer handler only for a non-empty text |
| Routing.MembersGoToJoin | internal/telegrambot/bot.go:74-78 | an update goes to the join handler exactly when its message has a member list |
| Routing.CommandsNotAnswers | internal/telegrambot/bot.go:81 | a text starting with '/' never reaches the answer handler |
| Routing.AnswerRoute | internal/telegrambot/bot.go:69-85 | the answer handler gets exactly the messages without a member list whose text is non-empty and not a command; no message, or empty text without members, reaches no handler |
| Routing.RoutedInputsAreValid | internal/telegrambot/bot.go:69-84 | the routed update meets the chosen handler's precondition |
| Lifecycle.JoinPreservesWellFormed | internal/telegrambot/handlers/captcha.go:79-85 | the join loop keeps every record keyed by its own user with a four-digit answer |
| Lifecycle.AnswerPreservesWellFormed | internal/telegrambot/handlers/captcha_callback.go:54-89 | the answer step keeps the registry well formed |
| Lifecycle.TimeoutPreservesWellFormed | internal/telegrambot/handlers/captcha.go:116 | the timeout step keeps the registry well formed |
| Lifecycle.AnswerBeatsTimeout | internal/telegrambot/handlers/captcha.go:101-105 | after a checked answer, the later timeout finds no record and calls nothing |
| Lifecycle.TimeoutBeatsAnswer | internal/telegrambot/handlers/captcha_callback.go:34-39 | after an eviction, a later answer of the same user is ignored |
| Lifecycle.AnswerWindowBounds | internal/telegrambot/handlers/captcha.go:83 | an answer up to thirty seconds after registration is checked and the timeout does nothing until then; any later timeout evicts the record |
| Lifecycle.CorrectAnswerScenario | internal/telegrambot/handlers/captcha.go:30-93 | a member who joins and answers the right digits gets a record, then loses it to the answer, and is never banned |

## Left out

- PNG encoding of the canvas is not modelled: the image is the raw pixel array.
- Generate: the png.Encode error return (internal/captcha/service.go:79-81) is not modelled, so the model's generation fails only on a failed digit draw.
- The time that passes between the two clock reads of the answer handler, or of the timeout check, is not modelled: both reads see the same `now`.
- `crypto/rand`: every random value is an input. The answer digits are `Rand` values, each a number below ten or a failure. The noise coordinates are assumed drawn in range; a failing coordinate draw, which would dereference a nil `*big.Int`, is not modelled.
- The floating-point `dx`, `dy` and `err` of drawLine are modelled as integers; they only ever hold small integers.
- The integer widths (`int64` ids and instants, `int` coordinates) are unbounded; no value the code computes comes near a wrap-around.
- Goroutines, `time.Sleep` and the registry's `sync.RWMutex` are not modelled, nor any race between a timeout and an answer. The timeout check is the step taken when its thirty-second sleep ends, at an instant given as input. The delayed deletions are `DeleteLater` and `Sleep` entries in the action log.
- Telegram calls (SendPhoto, SendMessage, BanChatMember, DeleteMessage) are entries in an ordered action log. Their success or failure, and the ids of the messages they post, are inputs.
- Context plumbing (`WithCaptchaFSM`/`GetCaptchaFSM`, the user repository, the localizer) is replaced by explicit parameters. A missing registry is a null `CaptchaFSM?`.
- Localized texts come from a `Localizer` parameter mapping a key and an optional `Username` argument to a text. The go-i18n lookup behind it is not modelled.
- The user repository is a map from Telegram id to language code; gorm and the database are not modelled. A failing lookup or upsert is an input.
- A message without a sender makes the answer handler and the join loop dereference a nil pointer. The model does not cover that panic: `SenderKnown`, `JoinInputs` and `SenderPresent` require a sender where the code reads one.
- Go slices strings by bytes; the model slices by characters. They agree on the ASCII file names, answers and language codes used.
- Registry.CaptchaFSM.CleanupExpired: modelled although nothing in the repository calls it. Go's random map iteration order is modelled as an arbitrary choice of the next key.
- LoadFromAssets: only the answer-from-filename step is modelled. The directory check, the glob, the random file choice and the file read are file-system I/O.
- The generated answer reaches the join handler as the `Attempt.answer` input. The join loop calls Generate once per non-bot member; that call is not linked in the model.
- Logging, the command handlers and configuration loading are not modelled.
