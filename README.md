# Isabel, modelled in Dafny

Isabel is a Discord bot made of cogs (extensions). This project models the logic at the
core of those cogs and proves properties of it:

- **refresh/_helper.py**: the shared helpers.
  - `display_time` renders a number of seconds as weeks, days, hours, minutes and seconds.
  - `chunks` splits a list into pieces of `n`.
  - Two markdown escapers: `safety_escape_in_monospace` and `safety_escape_regular`.
  - Keycap-emoji reactions and their inverse.
- **extensions/anti_links.py**: a per-user list of the last three recent message ids in the
  Logo Builders guild.
  - Links, attachments and embeds do not count until the list is full.
  - An hourly sweep drops ids older than a week and forgets users left with none.
  - The set of "full" users is saved and loaded.
- **extensions/pxls_embed.py**: the embed controller for pxls.space template links.
  - Sanitised titles.
  - Embeds ordered by URL position.
  - Downloads.
  - "Style removal": each `tw`×`tw` block of a styled template becomes one pixel, and the
    result is upscaled to at least 400 px.
- **extensions/pxls_alert.py**: the live canvas.
  - The palette comes from hex codes via `hex_to_rgb`.
  - The board is a `bytearray` updated by websocket pixel messages.
  - The palette is padded for the `canvas` image.
- **extensions/anti_hoist.py**: the guild list, and the nickname rewrite that removes
  characters sorting before `'A'` from the front of display names.
- **extensions/text_error_handler.py** and **extensions/app_error_handler.py**: the error
  handler registries.
  - A handler is refused unless it handles a strictly more specific class than every
    registered handler able to handle that class.
  - Errors are dispatched to the capable handler with the longest MRO.
  - The shared logic is modelled once in `ErrorDispatch`. It is instantiated by `TextErrors`
    and `AppErrors`, each with the discord.py classes its handlers name.
- **extensions/mention_monitor.py**: the channels per guild that receive an alert for every
  message with mentions, and the `mentions` start/stop command.
- **extensions/starboard.py**: the starboard channel per guild.
  - The two confirmation views.
  - The setup, edit, stop and change flows.
- **extensions/moderation.py**: `purge`, which clamps the window to 1..60 minutes, skips
  earlier purge responses and deletes in batches of 100.

How the Python is represented:

- Values become datatypes and functions.
- Objects whose fields the source mutates become classes with `modifies` clauses.
  - A `bytearray` becomes an `array`, and so does the numpy image array.
  - A dict becomes a `map`, and a list a `seq`.
- Loops become methods with invariants, proved against a specification function.
- Python exceptions are modelled as `Result`/`Outcome` values carrying a `PyError`.
- Awaited I/O becomes a parameter:
  - a looked-up channel as an `Option`;
  - a download response as its status and image, or no response;
  - the current time in milliseconds.

## Model

| member | source | states |
|---|---|---|
| Common.RemoveFirst | extensions/mention_monitor.py:42 | `list.remove` removes exactly one occurrence: the length drops by one and the multiset loses one copy of the element |
| Common.RemoveFirstNoDuplicates | extensions/anti_hoist.py:56-58 | removing from a duplicate-free list leaves the element absent and the list duplicate-free |
| Common.AddRemoveRoundTrip | extensions/anti_hoist.py:48-58 | appending an absent element and then removing it restores the list |
| Helper.DisplayTimeExact | refresh/_helper.py:11-29 | the emitted parts, weighted by their unit sizes, add back up to the integer number of seconds, negative inputs included (floor division) |
| Helper.DisplayTimeOrdered | refresh/_helper.py:24-29 | parts come from strictly smaller units in order, none is zero, and every part below weeks is worth less than one of the next larger unit |
| Helper.SingularUnitName | refresh/_helper.py:27-29 | a value of 1 is written with the unit name minus its trailing `s` ("1 week") |
| Helper.DisplayTimeZero | refresh/_helper.py:20-30 | zero seconds renders as the empty string for every granularity |
| Helper.PyPrefix | refresh/_helper.py:30 | `result[:granularity]` is a prefix, of length `min(n, len)` for non-negative `n` |
| Helper.DisplayTime | refresh/_helper.py:20-30 | `granularity` defaults to 2; the loop over the intervals produces the specified rendering: parts joined by ", ", cut by Python slice rules |
| Helper.Chunks | refresh/_helper.py:33-36 | `n == 0` raises ValueError, negative `n` yields nothing, positive `n` yields non-empty chunks of at most `n`, all but the last exactly `n`, concatenating back to the input |
| Helper.SafetyEscapeInMonospace | refresh/_helper.py:83-85 | the result is the input between two backticks with every inner backtick replaced by U+02CB and every other character kept |
| Helper.ReplaceCharByChar | refresh/_helper.py:89-93 | a one-character `str.replace` keeps the length and maps position by position |
| Helper.ReplaceCharSuffixes | refresh/_helper.py:94-96 | replacing `c` by `c` + zero-width space leaves every `c` followed by a zero-width space |
| Helper.SafetyEscapeRegular | refresh/_helper.py:88-97 | the escaped text contains no backtick and no asterisk |
| Helper.SafetyEscapeRegularSafe | refresh/_helper.py:88-97 | the escaped text holds no backtick and no asterisk, and every `@` and `#` in it is followed by a zero-width space |
| Helper.NumberToReaction | refresh/_helper.py:100-107 | 0..9 give the digit keycap, 10 the keycap-ten emoji, any other int or non-int the warning sign; a bool passes the int test and gives "True" or "False" followed by the keycap mark |
| Helper.ReactionToNumber | refresh/_helper.py:114-118 | an empty reaction raises IndexError; otherwise the first character's digit value, or -1 when it is not a digit |
| Helper.ReactionRoundTrip | refresh/_helper.py:100-118 | decoding the reaction of `n` gives `n` back for 0..9 and -1 for every other int (10 included) |
| Helper.BoolReactionRoundTrip | refresh/_helper.py:100-118 | the reaction of a bool starts with a letter and decodes to -1 |
| AntiLinks.SnowflakeRoundTrip | extensions/anti_links.py:22 | the snowflake made from a time decodes back to that time |
| AntiLinks.SnowflakeTimeBlock | extensions/anti_links.py:32 | a snowflake lies in the block of ids that share its timestamp |
| AntiLinks.MessageCollection.constructor | extensions/anti_links.py:21-23 | a new collection is three copies of the current snowflake when created full, empty otherwise |
| AntiLinks.MessageCollection.AddMessage | extensions/anti_links.py:25-28 | the list becomes the last three ids of the old list plus the new id |
| AntiLinks.AddAllKeepsLastThree | extensions/anti_links.py:25-28 | after any series of additions the list holds exactly the last three ids seen |
| AntiLinks.MessageCollection.ClearOldMessages | extensions/anti_links.py:30-32 | the list keeps, in order, the ids younger than seven days |
| AntiLinks.KeepRecent | extensions/anti_links.py:30-32 | the clear keeps no more ids than it was given, and every id it keeps is younger than seven days |
| AntiLinks.KeepRecentMembers | extensions/anti_links.py:32 | an id survives the clear exactly when it was in the list and is recent |
| AntiLinks.KeepRecentIdempotent | extensions/anti_links.py:32 | clearing twice at one time is clearing once |
| AntiLinks.KeepRecentAppend | extensions/anti_links.py:32 | the clear distributes over concatenation |
| AntiLinks.FullAtSurvivesWeek | extensions/anti_links.py:21-23 | a collection loaded full stays full through every clear for a week |
| AntiLinks.MessageCollection.IsFull | extensions/anti_links.py:34-35 | in a valid collection, full means no room is left: the list holds three ids, so the next one pushes the oldest out |
| AntiLinks.Watched | extensions/anti_links.py:78-85 | only a default-type message from a non-bot author in the Logo Builders guild is watched |
| AntiLinks.Counted | extensions/anti_links.py:88-96 | a message with no link, attachment or embed always counts; while the list is not full, a message with an attachment or embed never does |
| AntiLinks.CountedRule | extensions/anti_links.py:88-96 | with a non-full list, a message counts exactly when it has no link, no attachment and no embed; with a full list every message counts |
| AntiLinks.OnMessageSpec | extensions/anti_links.py:87-96 | only the author's list changes, and the author always gets an entry |
| AntiLinks.AntiLinksCog.OnMessage | extensions/anti_links.py:77-102 | unwatched messages change nothing; otherwise the lists follow the clear-then-maybe-add rule; the role is granted exactly when the message counted and filled the list |
| AntiLinks.AntiLinksCog.constructor | extensions/anti_links.py:39-47 | every saved id starts with a full collection, and no other user has one |
| AntiLinks.FullUsers | extensions/anti_links.py:74 | the saved ids are exactly the users whose list holds three ids |
| AntiLinks.LoadSaveRoundTrip | extensions/anti_links.py:43-47 | saving straight after loading writes back exactly the loaded ids |
| AntiLinks.AntiLinksCog.SaveToJson | extensions/anti_links.py:72-74 | returns the ids of the full collections |
| AntiLinks.SweepSpec | extensions/anti_links.py:59-68 | the sweep never adds a user and leaves no user with an empty list |
| AntiLinks.SweepIdempotent | extensions/anti_links.py:59-68 | sweeping twice at one time is sweeping once |
| AntiLinks.AntiLinksCog.SweepOne | extensions/anti_links.py:60-68 | one user's list is cleared and the entry is deleted exactly when nothing is left |
| AntiLinks.AntiLinksCog.Hourly | extensions/anti_links.py:56-70 | with no guild visible it raises AttributeError before changing anything; otherwise the lists are swept, the dropped users are reported and the full users saved |
| PxlsEmbed.RemoveIllegalCharacters | extensions/pxls_embed.py:21-25 | each character is kept when it is an ASCII letter, digit or `_`, and becomes `_` otherwise |
| PxlsEmbed.RemoveIllegalCharactersIdempotent | extensions/pxls_embed.py:21-25 | the result is all legal, and sanitising again changes nothing |
| PxlsEmbed.FirstInBlockSpec | extensions/pxls_embed.py:36-47 | the block scan finds the first pixel with alpha above 128, in row-then-column order, or reports that none exists |
| PxlsEmbed.ScanBlock | extensions/pxls_embed.py:36-47 | the two nested loops with both `break`s return that first opaque pixel |
| PxlsEmbed.WriteCell | extensions/pxls_embed.py:36-47 | one output pixel is set to its block's first opaque pixel with alpha 255, or stays transparent black; no other pixel changes |
| PxlsEmbed.WriteRow | extensions/pxls_embed.py:35-47 | one output row is filled cell by cell; other rows are untouched |
| PxlsEmbed.FastRemoveStyle | extensions/pxls_embed.py:29-49 | a fresh `target_height`×`target_width`×4 array in which every pixel is its block's first opaque pixel with alpha 255, or transparent black |
| PxlsEmbed.TruncDivPositive | extensions/pxls_embed.py:113-114 | `int(a / b)` for positive `b` is the floor quotient and does not overshoot |
| PxlsEmbed.LeastScale | extensions/pxls_embed.py:119-121 | the scale is at least 1, and exactly 1 for an image already 400 px wide |
| PxlsEmbed.LeastScaleIsLeast | extensions/pxls_embed.py:119-121 | the scale reaches 400 px and is the least positive integer to do so |
| PxlsEmbed.UpscaleFactor | extensions/pxls_embed.py:119-121 | the counting loop stops at the least scale that reaches 400 px |
| PxlsEmbed.LeastScaleUnique | extensions/pxls_embed.py:119-121 | any scale with that property is that least scale |
| PxlsEmbed.StylePlan | extensions/pxls_embed.py:105-114 | sizing raises only ValueError or ZeroDivisionError, and a plan has a positive target width and a non-negative height |
| PxlsEmbed.StylePlanSkips | extensions/pxls_embed.py:105-112 | an image is skipped exactly when `tw` is absent or equals the image width |
| PxlsEmbed.StylePlanZeroDivision | extensions/pxls_embed.py:113-114 | `tw` of 0, `tw` above the width, or a negative `tw` of larger magnitude raise ZeroDivisionError |
| PxlsEmbed.StylePlanInBounds | extensions/pxls_embed.py:108-123 | a planned image has positive tile and target width, its blocks fit inside the image, and the scale is the least reaching 400 px |
| PxlsEmbed.IndexOf | extensions/pxls_embed.py:62 | `list.index` returns the first position holding the URL |
| PxlsEmbed.InUrlOrder | extensions/pxls_embed.py:61-62 | the collected embeds are stored ones, no more than there are URLs |
| PxlsEmbed.InUrlOrderSorted | extensions/pxls_embed.py:61-62 | the collected embeds come from the dict and are in increasing URL position |
| PxlsEmbed.InUrlOrderComplete | extensions/pxls_embed.py:61-62 | every embed whose URL is listed is collected |
| PxlsEmbed.EmbedController.constructor | extensions/pxls_embed.py:53-59 | the controller starts with the URLs and no images, files or embeds |
| PxlsEmbed.EmbedController.GetEmbeds | extensions/pxls_embed.py:61-62 | returns exactly the stored embeds, sorted by the position of their URL |
| PxlsEmbed.EmbedController.EmbedSingle | extensions/pxls_embed.py:65-70 | a link with a template gets an embed titled by `title` (default "Template") pointing at the template image; other links change nothing |
| PxlsEmbed.EmbedAllImageRule | extensions/pxls_embed.py:73-85 | a link with a template gets an embed for its URL whose image is the attachment exactly when a style-free file exists; other links keep what they had |
| PxlsEmbed.EmbedController.EmbedAll | extensions/pxls_embed.py:73-85 | the loop leaves the embeds as the specified pass over the URLs |
| PxlsEmbed.EmbedController.DownloadSingle | extensions/pxls_embed.py:88-96 | for a template link: status 200 stores the image; a status of 400 or more raises ClientResponseError without storing; any other status stores nothing and raises nothing; no response raises a connection error. Other links do nothing. Only template links are ever downloaded |
| PxlsEmbed.StyleStepFile | extensions/pxls_embed.py:100-127 | a file written by one step belongs to that URL, which was downloaded, and records that URL's plan and sanitised name |
| PxlsEmbed.StyleFilesSound | extensions/pxls_embed.py:99-127 | every file the pass writes belongs to a listed, downloaded URL, records that URL's plan and is named after that URL's sanitised title |
| PxlsEmbed.StyleErrorSticks | extensions/pxls_embed.py:99-127 | once an exception is raised, later URLs change nothing |
| PxlsEmbed.EmbedController.RemoveStyleAll | extensions/pxls_embed.py:99-127 | the loop writes the specified files and raises the first error |
| PxlsAlert.LStrip | extensions/pxls_alert.py:25 | `lstrip('#')` result is no longer and does not start with `#` |
| PxlsAlert.LStripHashes | extensions/pxls_alert.py:25 | any number of leading `#` are stripped away |
| PxlsAlert.HexToRgb | extensions/pxls_alert.py:23-26 | leading `#` characters are stripped, the four two-character slices are parsed in base 16, and any failure is ValueError |
| PxlsAlert.HexToRgbIgnoresHashes | extensions/pxls_alert.py:23-26 | leading `#` characters do not change the result |
| PxlsAlert.ParseHex | extensions/pxls_alert.py:26 | `int(x, 16)` fails only with ValueError |
| PxlsAlert.ParsePlain | extensions/pxls_alert.py:26 | on one or two hex digits `int(x, 16)` is their hexadecimal value |
| PxlsAlert.ParsePrefixed | extensions/pxls_alert.py:26 | a `0x` or `0X` prefix before the hex digits does not change the value |
| PxlsAlert.ParseHexPairRange | extensions/pxls_alert.py:26 | a two-character slice parses to a value between -15 and 255 (sign and space accepted) |
| PxlsAlert.HexToRgbRange | extensions/pxls_alert.py:23-26 | every parsed channel lies between -15 and 255 |
| PxlsAlert.HexToRgbShortFails | extensions/pxls_alert.py:23-26 | six or fewer characters after the `#`s raise ValueError (the fourth slice is empty) |
| PxlsAlert.HexToRgbRoundTrip | extensions/pxls_alert.py:23-26 | four bytes written as two hex digits each parse back to the same four channels |
| PxlsAlert.HexToRgbSevenDigits | extensions/pxls_alert.py:26 | seven hex digits parse, the last single digit giving the alpha |
| PxlsAlert.PaletteEntryOpaque | extensions/pxls_alert.py:50 | a six-digit palette value with `FF` appended gives its three channels and alpha 255 |
| PxlsAlert.LoadPalette | extensions/pxls_alert.py:50 | the palette has one entry per value, each parsed from it; any bad value makes the whole load raise ValueError |
| PxlsAlert.PaddedPalette | extensions/pxls_alert.py:87 | the padded palette has at least 256 entries and starts with the palette |
| PxlsAlert.PaddedPaletteShape | extensions/pxls_alert.py:87 | the palette is padded with transparent entries up to 256 and left as is when longer |
| PxlsAlert.Channels | extensions/pxls_alert.py:87 | flattening lists each colour's r, g, b, a in order |
| PxlsAlert.RowMajorInjective | extensions/pxls_alert.py:66 | distinct in-canvas coordinates map to distinct board offsets |
| PxlsAlert.Store | extensions/pxls_alert.py:66 | a successful `bytearray` store keeps the board's length |
| PxlsAlert.StoreInBounds | extensions/pxls_alert.py:66 | an in-canvas pixel with colour 0..255 writes exactly its own cell |
| PxlsAlert.OtherCellUnchanged | extensions/pxls_alert.py:66 | any other in-canvas cell has a different offset, so it is not written |
| PxlsAlert.StoreRejectsColor | extensions/pxls_alert.py:66 | a colour outside 0..255 raises ValueError whatever the index |
| PxlsAlert.ApplyLastWriteWins | extensions/pxls_alert.py:63-66 | after a message of valid pixels every cell holds the last colour written to it, or its old value |
| PxlsAlert.ApplyErrorSticks | extensions/pxls_alert.py:64-80 | the first failing pixel aborts the rest of the message |
| PxlsAlert.PxlsCog.constructor | extensions/pxls_alert.py:35-38 | the cog starts with an empty palette, a 0×0 canvas and an empty board |
| PxlsAlert.PxlsCog.LoadInfo | extensions/pxls_alert.py:48-52 | a valid palette is stored with the width and height; a bad one raises ValueError and changes nothing |
| PxlsAlert.PxlsCog.LoadBoard | extensions/pxls_alert.py:54-55 | the board becomes a fresh buffer holding the downloaded bytes |
| PxlsAlert.PxlsCog.WritePixel | extensions/pxls_alert.py:66 | one `bytearray` assignment, with its error cases |
| PxlsAlert.PxlsCog.OnPixelMessage | extensions/pxls_alert.py:63-66 | the board after the loop is the specified application of the pixels, with its outcome |
| AntiHoist.RemoveU | extensions/anti_hoist.py:23 | the single removal pass never makes the name longer |
| AntiHoist.RemoveUNoMatch | extensions/anti_hoist.py:23 | a name without `/u/` is unchanged |
| AntiHoist.RemoveUExample | extensions/anti_hoist.py:23 | `/u/` is removed from inside a name |
| AntiHoist.RemoveULeavesJoinedMatch | extensions/anti_hoist.py:23 | the single left-to-right pass can leave a `/u/` formed by the removal |
| AntiHoist.Step | extensions/anti_hoist.py:26-29 | one inner-loop turn raises IndexError on a one-character name; otherwise it drops the first character, and the last one too exactly when it equals the second |
| AntiHoist.Inner | extensions/anti_hoist.py:25-29 | the inner loop ends empty or at a name sorting at or after `'A'`, never longer |
| AntiHoist.InnerIsInfix | extensions/anti_hoist.py:25-29 | what the inner loop leaves is a contiguous piece of its input |
| AntiHoist.Outer | extensions/anti_hoist.py:24-32 | the outer loop ends, when it does not raise, at a name sorting at or after `'A'` |
| AntiHoist.Dehoisted | extensions/anti_hoist.py:22-32 | the rewrite as written: a name it settles on is never hoisted, and its only exception is IndexError, on a one-character hoisted candidate |
| AntiHoist.DehoistedKeepsFineName | extensions/anti_hoist.py:23-24 | a name that already sorts at or after `'A'` once `/u/` is removed is kept |
| AntiHoist.DehoistedSource | extensions/anti_hoist.py:22-32 | the new name is a piece of the display name, a piece of the global name, or "no hoisting" |
| AntiHoist.DehoistedFallbackChain | extensions/anti_hoist.py:30-32 | when the display name is used up, the global name is tried and then "no hoisting" |
| AntiHoist.DehoistedSingleCharRaises | extensions/anti_hoist.py:26 | a one-character hoisted name raises IndexError |
| AntiHoist.DehoistedTripleBangRaises | extensions/anti_hoist.py:25-29 | "!!!" raises IndexError after its first step |
| AntiHoist.StepIntended | extensions/anti_hoist.py:26-29 | the step with the first character compared never raises and shortens the name |
| AntiHoist.InnerIntended | extensions/anti_hoist.py:25-29 | the corrected inner loop ends empty or at a name at or after `'A'`, a piece of its input |
| AntiHoist.OuterIntended | extensions/anti_hoist.py:24-32 | the corrected outer loop always ends at a name at or after `'A'` |
| AntiHoist.DehoistedIntended | extensions/anti_hoist.py:22-32 | the corrected rewrite never raises and never leaves a hoisted name |
| AntiHoist.DehoistedIntendedAgrees | extensions/anti_hoist.py:23-24 | the corrected and the written rewrite agree on names that need no rewriting |
| AntiHoist.DehoistedIntendedSingleChar | extensions/anti_hoist.py:26-32 | the corrected rewrite sends a one-character hoisted name to the global name |
| AntiHoist.AntiHoistCog.constructor | extensions/anti_hoist.py:13-15 | the cog holds the given guild list |
| AntiHoist.AntiHoistCog.AddGuild | extensions/anti_hoist.py:48-54 | appends and reports True exactly when the guild was absent, keeping the list duplicate-free |
| AntiHoist.AntiHoistCog.RemoveGuild | extensions/anti_hoist.py:56-62 | removes one occurrence and reports True exactly when the guild was present |
| AntiHoist.AntiHoistCog.Hoisting | extensions/anti_hoist.py:67-83 | start appends the guild unless it is already listed, and stop removes its first occurrence if it is listed; nothing else in the list changes. The reply says which happened, and failure replies are ephemeral |
| AntiHoist.AntiHoistCog.Dehoist | extensions/anti_hoist.py:22-32 | the nested loops compute the rewrite as written, IndexError included |
| AntiHoist.AntiHoistCog.DehoistCorrected | extensions/anti_hoist.py:22-32 | the same loops with the corrected step compute the corrected rewrite, which never raises |
| AntiHoist.AntiHoistCog.RemoveHoistedName | extensions/anti_hoist.py:17-34 | untracked guilds and members who can manage messages are skipped; otherwise the member is renamed exactly when the corrected rewrite differs, to a name that is not hoisted |
| ErrorDispatch.CanHandle | extensions/text_error_handler.py:24-27 | an instance or class is handled exactly when it is a subclass of the handler's class; a non-exception instance or non-class raises TypeError |
| ErrorDispatch.Capable | extensions/text_error_handler.py:143 | the filtered list holds exactly the handlers able to handle the error, or the TypeError of the first check |
| ErrorDispatch.LastOfSortedIndex | extensions/text_error_handler.py:143 | `sorted(...)[-1]` with a stable sort is the last handler among those with the longest MRO |
| ErrorDispatch.Rejects | extensions/text_error_handler.py:135-138 | only a registered handler that can handle the new class can make the check refuse it |
| ErrorDispatch.RejectsIffRegistered | extensions/text_error_handler.py:134-138 | the uniqueness check refuses a handler exactly when a handler for the same class is registered |
| ErrorDispatch.GetBest | extensions/text_error_handler.py:143 | a chosen handler is registered and can handle the error; the only exceptions are TypeError and IndexError |
| ErrorDispatch.BestIsMostSpecific | extensions/text_error_handler.py:142-143 | the chosen handler can handle the error and its class is a subclass of every capable handler's class |
| ErrorDispatch.GetBestFailures | extensions/text_error_handler.py:142-143 | dispatch raises TypeError exactly for non-exception arguments, and IndexError exactly when no handler is capable |
| ErrorDispatch.BestIs | extensions/text_error_handler.py:142-143 | with distinct handler classes, the most specific capable handler is the one chosen |
| ErrorDispatch.RegisterAllAccepted | extensions/text_error_handler.py:150-160 | offering handlers with distinct classes accepts all of them, in order |
| ErrorDispatch.ErrorCog.constructor | extensions/text_error_handler.py:126-128 | a cog starts with no handlers |
| ErrorDispatch.ErrorCog.AddHandler | extensions/text_error_handler.py:130-140 | a non-handler raises TypeError, a handler whose class is registered raises ValueError, any other is appended |
| ErrorDispatch.ErrorCog.GetBestHandler | extensions/app_error_handler.py:97-98 | the chosen handler is capable and most specific; IndexError when none is capable, TypeError for a non-exception argument |
| ErrorDispatch.ErrorCog.RegisterAll | extensions/app_error_handler.py:107-114 | every candidate is offered in turn and failures are skipped |
| TextErrors.HierarchyValid | extensions/text_error_handler.py:37-122 | the classes the handlers name form a valid single-inheritance tree |
| TextErrors.HandlersDistinct | extensions/text_error_handler.py:37-122 | the seven handlers handle seven distinct classes |
| TextErrors.HandlerDepth | extensions/text_error_handler.py:37-122 | the catch-all handles `CommandError`, one level above each of the other handlers' classes |
| TextErrors.Setup | extensions/text_error_handler.py:150-161 | setup registers all seven handlers in declaration order |
| TextErrors.DispatchSpecific | extensions/text_error_handler.py:142-147 | an error under a specific handler's class goes to that handler |
| TextErrors.DispatchFallback | extensions/text_error_handler.py:37-42 | a command error under no specific class goes to the catch-all |
| TextErrors.DispatchMemberNotFound | extensions/text_error_handler.py:99-104 | a member-not-found error goes to the bad-input handler |
| TextErrors.DispatchNotOwner | extensions/text_error_handler.py:89-96 | a not-owner error goes to the check-failure handler |
| TextErrors.DispatchMaxConcurrency | extensions/text_error_handler.py:37-42 | a max-concurrency error goes to the catch-all |
| TextErrors.DispatchNonException | extensions/text_error_handler.py:24-27 | a non-exception instance makes dispatch raise TypeError |
| TextErrors.DispatchUnhandled | extensions/text_error_handler.py:15-16 | the module's own `UnhandledError` has no handler and dispatch raises IndexError |
| AppErrors.HierarchyValid | extensions/app_error_handler.py:37-72 | the classes the handlers name form a valid single-inheritance tree |
| AppErrors.HandlersDistinct | extensions/app_error_handler.py:37-72 | the three handlers handle three distinct classes |
| AppErrors.HandlerDepth | extensions/app_error_handler.py:37-72 | the catch-all handles `AppCommandError`, one level above the other two handlers' classes |
| AppErrors.Setup | extensions/app_error_handler.py:104-115 | setup registers all three handlers in declaration order |
| AppErrors.DispatchSpecific | extensions/app_error_handler.py:97-101 | an error under a specific handler's class goes to that handler |
| AppErrors.DispatchCooldown | extensions/app_error_handler.py:48-53 | a cooldown error, being a check failure, goes to the check-failure handler |
| AppErrors.DispatchTransformer | extensions/app_error_handler.py:37-45 | a transformer error goes to the catch-all |
| AppErrors.DispatchUnhandled | extensions/app_error_handler.py:15-16 | the module's own `UnhandledError` has no handler and dispatch raises IndexError |
| AppErrors.SecondAnyHandlerRefused | extensions/app_error_handler.py:89-93 | a second catch-all would be refused as not unique enough |
| MentionMonitor.Targets | extensions/mention_monitor.py:19-28 | a message without mentions alerts nobody; otherwise the alerted channels are its guild's list |
| MentionMonitor.AlertedOnce | extensions/mention_monitor.py:19-28 | a message with mentions alerts each monitoring channel of its guild exactly once, and no channel otherwise |
| MentionMonitor.MentionMonitorCog.OnMessage | extensions/mention_monitor.py:18-28 | one alert per target channel, with the author-mentioned-list description and the jump URL |
| MentionMonitor.Grouped | extensions/mention_monitor.py:81-83 | no guild is listed without a channel |
| MentionMonitor.GroupedByGuild | extensions/mention_monitor.py:81-83 | a guild has an entry exactly when some loaded channel belongs to it, and that entry lists its channels in row order |
| MentionMonitor.GroupedWellFormed | extensions/mention_monitor.py:81-83 | distinct rows give duplicate-free lists holding only their own guild's channels |
| MentionMonitor.Setup | extensions/mention_monitor.py:79-84 | a row whose channel cannot be found raises AttributeError; otherwise the channels are grouped by guild |
| MentionMonitor.MentionMonitorCog.constructor | extensions/mention_monitor.py:13-15 | the cog holds the given channel lists |
| MentionMonitor.MentionMonitorCog.AddChannel | extensions/mention_monitor.py:30-37 | appends and reports True exactly when the channel was absent; the guild always gets an entry |
| MentionMonitor.MentionMonitorCog.RemoveChannel | extensions/mention_monitor.py:39-46 | removes and reports True exactly when the channel was present; the guild always gets an entry |
| MentionMonitor.AddThenRemove | extensions/mention_monitor.py:30-46 | adding a new channel and then removing it restores the guild's list |
| MentionMonitor.MentionMonitorCog.MonitorMentions | extensions/mention_monitor.py:50-66 | start appends the channel to its guild's list unless it is already there, and stop removes it if it is there; the guild's key exists afterwards, and no other guild changes. The reply says which happened, and failure replies are ephemeral |
| Moderation.ClampMinutes | extensions/moderation.py:25 | the window is clamped into 1..60 and kept when already inside |
| Moderation.Kept | extensions/moderation.py:36-39 | no more messages than the history holds are deleted, and none of them is a purge reply |
| Moderation.KeptMembers | extensions/moderation.py:36-39 | a message is deleted exactly when it is in the history and is not a purge response |
| Moderation.DeleteInBatches | extensions/moderation.py:36-44 | the batches concatenate to the kept messages in order, all but the last hold 100, the last fewer, and the count is their number |
| Moderation.BatchCount | extensions/moderation.py:41-44 | the number of delete calls is the count divided by 100, plus one |
| Moderation.Purge | extensions/moderation.py:21-44 | `minutes` defaults to 5. Without the permission it raises; otherwise it deletes the kept messages of the clamped window, in batches of exactly 100 followed by one final batch of fewer than 100 |
| Starboard.SetupConfirm.constructor | extensions/starboard.py:13-16 | a view starts with no selection and no follow-up interaction |
| Starboard.SetupConfirm.Change | extensions/starboard.py:23-25 | the first selected channel is stored; an empty selection raises IndexError |
| Starboard.SetupConfirm.Confirm | extensions/starboard.py:28-31 | the selection defaults to the interaction's channel and the view stops |
| Starboard.SetupConfirm.Cancel | extensions/starboard.py:34-37 | the selection is cleared and the view stops |
| Starboard.EditConfirm.constructor | extensions/starboard.py:41-44 | a view starts with action "Timeout" |
| Starboard.EditConfirm.Confirm | extensions/starboard.py:47-50 | records "change" and the interaction |
| Starboard.EditConfirm.Deny | extensions/starboard.py:53-56 | records "stop" and the interaction |
| Starboard.EditConfirm.Cancel | extensions/starboard.py:59-62 | records "cancel" and the interaction |
| Starboard.StarboardCog.constructor | extensions/starboard.py:66-68 | the cog holds the given channel per guild |
| Starboard.StarboardCog.ChooseChannel | extensions/starboard.py:70-89 | a choice exists exactly when the view stopped with a selection, and carries the looked-up channel and the follow-up interaction |
| Starboard.StarboardCog.StartStarboard | extensions/starboard.py:111-118 | a choice stores the channel for the guild; a channel that cannot be found raises AttributeError |
| Starboard.StarboardCog.StopStarboard | extensions/starboard.py:120-126 | an unconfigured guild fails the assertion; otherwise its entry is deleted |
| Starboard.StarboardCog.ChangeChannel | extensions/starboard.py:129-146 | a choice replaces the guild's channel; an unconfigured guild raises KeyError |
| Starboard.StarboardCog.EditStarboard | extensions/starboard.py:91-109 | timeout and cancel change nothing. Stop deletes the guild's entry: AssertionError when it has none, AttributeError when its channel is None. Change replaces its channel: KeyError when it has none, AttributeError when either channel is None |
| Starboard.StarboardCog.Command | extensions/starboard.py:152-158 | a configured guild goes to the edit flow, any other to the setup flow. Each route's new map and outcome are those of the flow it takes; start raises AttributeError exactly when the chosen channel is None |
| Starboard.StarboardCog.OnRawReactionAdd | extensions/starboard.py:148-150 | the reaction listener changes nothing |
| Starboard.EditedMembership | extensions/starboard.py:101-109 | after a stop the guild has no starboard, so its next command starts one; any other finished edit keeps whether it has one |
| Starboard.Board | extensions/starboard.py:179-181 | every guild in the loaded map has a channel, and that channel is in the guild |
| Starboard.BoardLastWins | extensions/starboard.py:179-181 | a guild is configured exactly when a loaded channel belongs to it, and keeps the last such channel |
| Starboard.Setup | extensions/starboard.py:177-181 | a row whose channel cannot be found raises AttributeError; otherwise the last channel per guild is kept |

## Left out

- Network, Discord API and database calls are not modelled.
  - Sent messages, embeds, views, reactions and role changes are represented by the
    values the model returns, or left out.
  - Awaited results are parameters.
- Concurrency and the event loop are not modelled. Each handler runs to completion.
- Time is a parameter in milliseconds. `utcnow` and the one-hour task schedule are not modelled.
- AntiLinks.AntiLinksCog.constructor: the JSON file's existence and decoding are not modelled. The
  saved ids are given as a sequence.
- AntiLinks.AntiLinksCog.SaveToJson: returns a set of ids. The dict's insertion order, and so the
  order of the JSON list, is not modelled.
- AntiLinks.AntiLinksCog.OnMessage: returns whether the author's list became full. Looking up the
  member and the role, and adding the role, are not modelled.
- AntiLinks.AntiLinksCog.Hourly: removing the role from inactive members is not modelled. The
  guild lookup is a flag.
- Parsing the URL fragment (`urlparse`, `parse_qs`, `unquote`) and the pxls link regex are
  not modelled. Each URL's parsed fragment is an input function.
- Image decoding, PIL resizing and PNG encoding are not modelled. An image is its width and
  height, and a style-free file is its name and plan.
- `send_reply_to` and the `pxembed`/`pxunembed` commands are not modelled: they orchestrate
  I/O.
- PxlsEmbed.StylePlan: `tw` that `int()` cannot parse is an input (`None`).
- PxlsEmbed.FastRemoveStyle: does not model the `uint8` storage of the numba array. Pixel
  values are unbounded integers.
- PxlsAlert.ParseHex: Unicode digits and `_` separators accepted by `int()` are not modelled.
  Neither is whitespace above U+00FF that `int()` strips: U+1680, U+2000–U+200A, U+2028,
  U+2029, U+202F, U+205F and U+3000. Modelled: ASCII hex digits, a sign, the `0x`/`0X`
  prefix, and the surrounding whitespace up to U+00FF that `int()` strips. That whitespace
  is space, tab, newline, carriage return, U+000B, U+000C, U+0085 and U+00A0, and not
  U+001C–U+001F.
- PxlsAlert.PxlsCog.OnPixelMessage: the `on_board_change` awaitables (never populated),
  JSON decoding and the websocket retry loop are not modelled.
- The `canvas` command's image construction is reduced to `PaddedPalette` and `Channels`.
- Helper.ReactionToNumber: does not model the non-ASCII Unicode digits that `int()` accepts.
- `display_time` of a float is not modelled. The input is already an integer.
- The remaining helpers are not modelled because they wrap Discord or HTTP calls:
  - `react_or_false`, `report_success`, `send_or_post_gist`;
  - `number_to_partial_emoji`, `get_user_agent`, `find_my_emoji`.
- The discord.py exception hierarchy is not part of this model. Each registry is given the
  classes its handlers name and a few others, with their discord.py bases.
- What the error handlers do once chosen (logging, the invoke log file, the reply texts) is
  not modelled. `setup`'s discovery of handler classes through `globals()` is a sequence of
  candidates.
- AntiHoist.AntiHoistCog.RemoveHoistedName: uses the corrected rewrite (see Findings). With
  the code as written, a hoisted name that shrinks to one character raises IndexError and
  the member keeps the name. `AntiHoist.AntiHoistCog.Dehoist` models that behaviour.
- AntiHoist.AntiHoistCog.constructor: `setup` building the guild list from database rows is
  not modelled.
- The starboard's `starboard_reference` table and the view timeouts are not modelled. A
  timeout is the view not being stopped.
- Starboard.SetupConfirm.Change: the channel select's values are a sequence, so the
  channel-type filter is not modelled.
- Moderation.Purge: the 15-second delayed deletions and the "Deleted N messages" notice are
  not modelled.
- Moderation.Purge: the channel history is the list of messages after the cut-off. It is
  not computed from timestamps.
- MentionMonitor.Setup and Starboard.Setup: `get_channel` is modelled as a list of optional
  channels, and a missing channel raises AttributeError.

## Findings

| source | as written | input that shows it | evidently intended | confidence | as-written member | corrected member |
|---|---|---|---|---|---|---|
| extensions/anti_hoist.py:26 | `first_char = candidate_name[1]` takes the second character of the remaining name | a member whose display name is the single character `!` (or `"!!!"`) | compare with the first character, `candidate_name[0]`, which is the one being dropped; the rewrite then always ends at a non-hoisted name | not executed | AntiHoist.DehoistedSingleCharRaises | AntiHoist.DehoistedIntended |
