# Event-signup scheduler, modelled in Dafny

This project models the scheduling extension of a Discord bot
(`src/main/kotlin/moe/nikky/SchedulingExtension.kt`). Members of a guild
register events with a start, an end and a slot length. Each event is split
into fixed-length slots, and users sign up for one slot at a time through an
interactive menu. The results are stored per guild.

The model has eight modules:

- `Wrappers` (`wrappers.dfy`): `Option` and `Result`.
- `Errors` (`errors.dfy`): the failures every command reports to the invoking user.
- `Store` (`store.dfy`): the per-guild `SchedulingData`, `EventData` and `Signup` values.
  It covers both `update` overloads, `addSignup` and the `list` listing.
  The store is a map plus the key order: the serialized map is a LinkedHashMap, so listing follows insertion order.
- `Slots` (`slots.dfy`): the closed progression `start..end step slotLength`.
  It also covers the `forEachIndexed` loop that turns the slots into menu options, with each option's value, index, end time and default mark.
- `Timestamps` (`timestamps.dfy`): `tryParseInstant` and `parseInstant`.
  The ISO 8601 parser (`Instant.parse`) is a function parameter `iso` and is left uninterpreted.
  The fallback is modelled step by step (ASCII digits only, see Left out): `substringAfter(':')`, then `substringBeforeLast(":")`, then `toLong()`, then `Instant.fromEpochSeconds`.
- `Persistence` (`storage.dfy`): the guild's `StorageUnit` as a class.
  It holds a map from guild to stored value, with `get`, `save`, and a trace of the external effects in call order (stores and announcement messages).
- `Lifecycle` (`lifecycle.dfy`): argument validation and the `scheduling create` action.
- `Signups` (`signup.dfy`): the `signup` command as a class `SignupSession`.
  Its fields are the closure's captured variables (`selectedTimeslot`, the button flag of the latest render, the response content).
  Its methods are the first render, the select-menu action and the submit action.

Instants are whole epoch seconds, as the code itself iterates
(`start.epochSeconds..end.epochSeconds`). Durations are whole seconds: the
slot length argument in minutes becomes `60 * minutes`.

Behaviours of the code that the model reproduces as written:

- The select action parses its value with `Instant.parse` only, not with `tryParseInstant`.
  When the parse throws, the selection is unchanged.
- `selectedTimeslot` is stored even when it lies outside `[start, end)`; only the button is disabled then.
- A slot at exactly `end` is offered in the menu whenever the span is a multiple of the slot length, but selecting it never enables submit.
- A failed submit reports the error and leaves the prompt as it was; the session does not become terminal.
- `create` does not check that `start < end`. With `start > end` the menu is empty.
- The argument validators run before the action, so an unparsable timestamp or a slot length outside 5..300 is reported before a duplicate id.
- A Discord timestamp without a style, `<t:N>`, is rejected when it is not ISO 8601: the text after the only `:` is `N>`, and the closing `>` is not a digit.

## Model

| member | source | states |
|---|---|---|
| `Store.Update` | src/main/kotlin/moe/nikky/SchedulingExtension.kt:50-54 | `key` maps to `event` afterwards, overwriting any old entry; every other key keeps its presence and its entry; the existing key order is a prefix of the new one; well-formedness (each key listed once) is preserved |
| `Store.UpdateWith` | src/main/kotlin/moe/nikky/SchedulingExtension.kt:56-60 | fails with "unknown event key" exactly when `key` is absent; otherwise `key` maps to `transform(old entry)`, the key set and order are unchanged, and every other entry is unchanged |
| `Store.AddSignup` | src/main/kotlin/moe/nikky/SchedulingExtension.kt:75-81 | the signups grow by exactly one: the old signups in order, then `s`; id, name, description, start, end, slot length and message id are unchanged |
| `Store.CommitSignup` | src/main/kotlin/moe/nikky/SchedulingExtension.kt:484-490 | committing through `update(key) { addSignup(s) }` succeeds for a stored key, appends exactly `s` to that event, changes none of its other fields, and leaves every other event unchanged |
| `Store.SequentialCommits` | src/main/kotlin/moe/nikky/SchedulingExtension.kt:482-490 | two commits in sequence leave both signups on the event in commit order; duplicates are not rejected |
| `Store.ListEvents` | src/main/kotlin/moe/nikky/SchedulingExtension.kt:372-377 | one line per stored key, in the store's insertion order, each carrying the key and that event's name and start |
| `Store.ListEventsComplete` | src/main/kotlin/moe/nikky/SchedulingExtension.kt:372-377 | the listing has as many lines as the store has events, shows every stored event, and shows none twice |
| `Store.NewEventListedLast` | src/main/kotlin/moe/nikky/SchedulingExtension.kt:50-54 | inserting a new key lists its event after all earlier entries, which stay as they were |
| `Slots.SlotStarts` | src/main/kotlin/moe/nikky/SchedulingExtension.kt:423-424 | the progression is empty exactly when `start > end`, and otherwise begins at `start` |
| `Slots.SlotCount` | src/main/kotlin/moe/nikky/SchedulingExtension.kt:423-424 | the progression has `(end - start) / L + 1` elements when `start <= end`, none otherwise |
| `Slots.SlotAt` | src/main/kotlin/moe/nikky/SchedulingExtension.kt:423-425 | element `i` of the progression is `start + i * L` |
| `Slots.SlotsBoundedAndIncreasing` | src/main/kotlin/moe/nikky/SchedulingExtension.kt:423-425 | every slot lies in `[start, end]` and the slots strictly increase |
| `Slots.SlotList` | src/main/kotlin/moe/nikky/SchedulingExtension.kt:423-425 | empty when `start > end`; otherwise it starts at `start`, has `(end - start) / L + 1` elements, consecutive slots differ by `L`, all lie in `[start, end]`, and `end` itself is a slot iff `L` divides `end - start` |
| `Slots.LastSlot` | src/main/kotlin/moe/nikky/SchedulingExtension.kt:423-424 | when `start <= end`, the last slot is the last value not past `end`: it is at most `end` and one more step would overshoot it |
| `Slots.OptionFor` | src/main/kotlin/moe/nikky/SchedulingExtension.kt:425-437 | the option for slot `t` at position `i` has value `t`, index `i` and end time `t + L`, and is the default iff `t` is the selected timeslot |
| `Slots.Options` | src/main/kotlin/moe/nikky/SchedulingExtension.kt:423-437 | one option per slot of the progression, in order: option `i` carries slot `i` as its value, index `i`, end time `value + L`, and is the default iff its value is the selection |
| `Slots.OptionsShape` | src/main/kotlin/moe/nikky/SchedulingExtension.kt:425-438 | option `i` carries index `i`, value `start + i * L` and end time `value + L`; an option is default iff it equals the selection, so at most one is, and one is iff the selection is a slot |
| `Slots.BuildOptions` | src/main/kotlin/moe/nikky/SchedulingExtension.kt:423-438 | the indexed loop over the progression emits exactly the option list that `OptionsShape` describes |
| `Slots.TwoHoursInHalfHours` | src/main/kotlin/moe/nikky/SchedulingExtension.kt:423-425 | 2024-01-01 00:00 to 02:00 UTC in 30-minute slots gives five slots, 00:00, 00:30, 01:00, 01:30 and 02:00 |
| `Timestamps.SubstringAfter` | src/main/kotlin/moe/nikky/SchedulingExtension.kt:133 | the result is what follows the first `:`, or the whole text when there is no `:` |
| `Timestamps.SubstringBeforeLast` | src/main/kotlin/moe/nikky/SchedulingExtension.kt:133 | the result is what precedes the last `:`, or the whole text when there is no `:` |
| `Timestamps.TokenSeconds` | src/main/kotlin/moe/nikky/SchedulingExtension.kt:133 | text without `:` is kept whole; otherwise the slice is strictly shorter than the text |
| `Timestamps.TokenBetweenColons` | src/main/kotlin/moe/nikky/SchedulingExtension.kt:133 | when the text before the first `:` and after the last `:` holds no `:`, the slice is exactly what lies between them, inner colons included |
| `Timestamps.TokenAfterSingleColon` | src/main/kotlin/moe/nikky/SchedulingExtension.kt:133 | with a single `:` the slice is everything after it |
| `Timestamps.ParseLong` | src/main/kotlin/moe/nikky/SchedulingExtension.kt:133 | whenever `toLong()` succeeds the text is an optional sign followed by at least one digit and the value lies within the `Long` range; such a numeral whose signed value is in range yields exactly that value; it is non-negative unless the sign is `-` (the converse, that an out-of-range numeral fails, is `ParseLongExact`) |
| `Timestamps.ParseLongExact` | src/main/kotlin/moe/nikky/SchedulingExtension.kt:133 | `toLong()` succeeds iff the text is an optional sign followed by at least one digit whose signed value lies within the `Long` range, and it then yields that signed value |
| `Timestamps.ParseShow` | src/main/kotlin/moe/nikky/SchedulingExtension.kt:133 | `toLong()` reads back every `Long` written in decimal |
| `Timestamps.ShowOutOfRangeRejected` | src/main/kotlin/moe/nikky/SchedulingExtension.kt:133 | a number outside the `Long` range written in decimal is rejected, not wrapped or clamped |
| `Timestamps.FromEpochSeconds` | src/main/kotlin/moe/nikky/SchedulingExtension.kt:134 | the instant lies within the JVM `Instant` range: seconds in range are kept, seconds below it clamp to `Instant.MIN` and seconds above it to `Instant.MAX` |
| `Timestamps.TryParseInstant` | src/main/kotlin/moe/nikky/SchedulingExtension.kt:125-141 | the ISO 8601 parse wins when it succeeds; otherwise the result is present iff the `TokenSeconds` slice (`substringAfter(':').substringBeforeLast(":")`) is a `Long`, and then it is `Instant.fromEpochSeconds` of that `Long`, within the `Instant` range |
| `Timestamps.ParseInstant` | src/main/kotlin/moe/nikky/SchedulingExtension.kt:143-145 | succeeds with the `tryParseInstant` value when there is one, and fails with "failed to parse value" otherwise |
| `Timestamps.DiscordTokenParses` | src/main/kotlin/moe/nikky/SchedulingExtension.kt:132-135 | a token `<t:N:STYLE>` that is not ISO 8601 parses to `N` epoch seconds (clamped to the `Instant` range), for every `Long` `N` and every style without `:` |
| `Timestamps.BareNumberParses` | src/main/kotlin/moe/nikky/SchedulingExtension.kt:132-135 | a bare decimal `Long` that is not ISO 8601 parses to itself as epoch seconds (clamped to the `Instant` range) |
| `Timestamps.NoStyleTokenRejected` | src/main/kotlin/moe/nikky/SchedulingExtension.kt:132-140 | a token `<t:N>` without a style that is not ISO 8601 is rejected, for every `N` |
| `Lifecycle.ValidateArgs` | src/main/kotlin/moe/nikky/SchedulingExtension.kt:161-195 | accepts iff both timestamps parse with `tryParseInstant` and the slot length is 5..300 minutes; the window carries the parsed instants and `60 * minutes` seconds; each failure names the first offending argument |
| `Lifecycle.CreateEvent` | src/main/kotlin/moe/nikky/SchedulingExtension.kt:302-361 | an existing id or invalid arguments fail with nothing stored or posted; otherwise the event is stored under its id with no signups, the validated window and the placeholder's id; the placeholder is posted before the store, and the announcement edit comes after it |
| `Lifecycle.Publish` | src/main/kotlin/moe/nikky/SchedulingExtension.kt:317-357 | the placeholder is posted, then the freshly loaded store with the event under its id is saved, then the placeholder is edited into the announcement, in that order; the store gains exactly that event |
| `Lifecycle.CreatedEventListed` | src/main/kotlin/moe/nikky/SchedulingExtension.kt:324-337 | a freshly created event has no signups and is the last line of `scheduling list` |
| `Persistence.Storage.Load` | src/main/kotlin/moe/nikky/SchedulingExtension.kt:305 | a guild with nothing stored reads as the empty store; otherwise the value last saved for it |
| `Persistence.Storage.Save` | src/main/kotlin/moe/nikky/SchedulingExtension.kt:335-337 | the guild's value is replaced whole; a later `get` returns exactly what was saved, and other guilds are untouched |
| `Persistence.Storage.Post` | src/main/kotlin/moe/nikky/SchedulingExtension.kt:317-321 | posting the placeholder appends exactly that message to the effect trace and changes no stored value |
| `Persistence.Storage.Announce` | src/main/kotlin/moe/nikky/SchedulingExtension.kt:339-357 | editing the placeholder into the announcement of the event appends exactly that edit to the effect trace and changes no stored value |
| `Signups.SubmitAllowed` | src/main/kotlin/moe/nikky/SchedulingExtension.kt:449 | submit is allowed only for a selection inside a non-empty window `[start, end)`; a selection at exactly `end` never enables it |
| `Signups.OfferedSlotsEnableSubmit` | src/main/kotlin/moe/nikky/SchedulingExtension.kt:441-457 | every offered slot enables submit except one at exactly `end`, and such a slot is offered iff the span is a multiple of the slot length |
| `Signups.SignupSession.constructor` | src/main/kotlin/moe/nikky/SchedulingExtension.kt:403-410 | a new session has nothing selected and the button disabled, and shows the full slot menu with no default |
| `Signups.SignupSession.Render` | src/main/kotlin/moe/nikky/SchedulingExtension.kt:408-467 | each render rebuilds the whole option list from the progression, marks the current selection as default, and sets the button state |
| `Signups.SignupSession.Select` | src/main/kotlin/moe/nikky/SchedulingExtension.kt:441-457 | an unparsable value fails with no change; otherwise the parsed instant becomes the selection, the button is enabled iff the selection lies in `[start, end)`, and the response is re-rendered iff the button state flips |
| `Signups.SignupSession.Submit` | src/main/kotlin/moe/nikky/SchedulingExtension.kt:472-503 | with no selection it fails with "no timeslot was selected"; with an unknown key it fails; either failure changes nothing. Otherwise it appends exactly `Signup(user, selection, slotLength)` to the freshly loaded event, saves the store once, changes no other event, and shows the confirmation |
| `Signups.OpenSignup` | src/main/kotlin/moe/nikky/SchedulingExtension.kt:393-400 | fails when the event key is not stored, or when the slot length is not a positive step; otherwise it opens a session on the stored event with nothing selected, the button disabled and the full slot menu with no default shown |

## Left out

- Discord transport: message text, labels and `TimestampType` formatting, ephemeral responses, embeds, and component rows. A render is modelled only as the option tuples (value, index, end, default) plus the button flag.
- Signups.SignupSession.Submit: the model does not require the submit button to be enabled. The code itself only checks for a missing selection; Discord does not deliver presses of a disabled button.
- The edit of a missing response (`?: relayError("failed up update response")`) is not modelled. The response always exists once `respond` has returned.
- `Instant.parse` is an uninterpreted parameter, so its ISO 8601 grammar is not modelled. Sub-second precision is left out: every instant is whole epoch seconds.
- Lifecycle.ValidateArgs: the model assumes that `passIf { value in (5..300) }` rejects slot lengths outside 5..300. The validation framework that runs it is not part of this model; if `passIf` only marks values as passing, other lengths reach the action, and `Signups.OpenSignup` then reports `StepNotPositive` for a length of 0 or less.
- Timestamps.ParseLong: only ASCII digits are modelled. `java.lang.Long.parseLong` also accepts other Unicode decimal digits.
- `Instant + Duration` clamping or overflow for the option end time is not modelled, and neither is overflow of the `Long` progression. The model uses unbounded integers, and real epoch seconds are far from those limits.
- Snowflakes are unbounded naturals, not unsigned 64-bit values.
- Concurrency: two sessions can commit to the same guild at the same time. Because `get` and `save` are not atomic, one signup can be lost. The model covers sequential calls only.
- Serialization of `SchedulingData` and the storage backend's file format are not modelled. A guild with nothing stored reads as an empty store.
- Permission checks (`requiresBotControl`, `requireBotPermissions`), autocomplete suggestions, Koin injection and logging are not modelled.
- `BotInfoExtension.kt`, `AutoKickExtension.kt`, `KloggingExt.kt`, `checks/BotChecks.kt`, `toDuration.kt` and `settings.gradle.kts` are not part of this model. They hold Discord UI and statistics, role-change kicks, log sinks, framework check combinators, wall-clock code and build configuration. `relayError.kt` only throws; its uses are the `Err` results here.
