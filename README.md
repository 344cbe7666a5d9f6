# Tulpje core, modelled in Dafny

Tulpje is a chat bot for plural systems. Its members and current fronters live in a
registry (PluralKit), and the bot mirrors them into a Discord server. This project
models and proves four of its pieces of logic:

- **Role reconciliation** (`roles.dfy`, module `Roles`). Every registry member should
  have a role named `"<name> (Alter)"` in the member's colour.
  - The guild's alter roles and the desired roles are both keyed by name.
  - The differ turns the two maps into create, delete and colour-update operations.
  - The driver issues the operations one at a time and stops at the first platform
    call that fails.
  - It then reports how many roles were created, deleted and updated.
- **Fronter channels** (`fronters.dfy`, module `Fronters`). A category holds one voice
  channel per current fronter.
  - Reconciling deletes the channels of former fronters and creates channels for new
    ones.
  - Each fronter gets a position from 0 to n-1, and channels away from their position
    are asked to move.
  - The channel map is updated in place by three loops, and failed calls are skipped.
  - The module also covers the category lookup and setup.
- **Shard stage tracker** (`shards.dfy`, module `Shards`). This is a class holding a
  map from shard id to stats (stage, ready time, restarts) and a connected-shard
  counter. One method applies a stage-change notification to it.
- **Emoji helpers** (`emoji.dfy`, module `Emoji`):
  - the sort-order identifiers and their parser;
  - a scanner that extracts `<a?:name:id>` custom emoji tokens from message text;
  - the per-emoji counting loop.

Shared modules:
- `Wrappers` holds `Option` and `Result`.
- `Collections` covers the hash collections:
  - `Enumerate` lists a hash set in an unspecified order;
  - `Filter` keeps the elements that satisfy a predicate;
  - `Collect` builds a hash map in which the last pair wins.
- `Numerals` handles digit strings in base 10 and 16: the colour parse and the emoji
  id parse.

Platform and registry calls are parameters:
- A fetch that may fail is an `Option` input.
- A mutating call is an oracle:
  - `respond(i)` answers the i-th role call;
  - `deleteOk(channel)` says whether a channel delete succeeds;
  - `create(request)` gives the created channel, or None when the create fails.
- Hash iteration order is an arbitrary duplicate-free listing: the `order` argument
  of `Roles.GetOps`, or `Collections.Enumerate` inside methods.

## Model

| member | source | states |
|---|---|---|
| Collections.Enumerate | src/modules/roles.rs:89-92 | iterating a hash set visits every element exactly once, in some order |
| Collections.Filter | src/modules/roles.rs:74-75 | keeps exactly the elements satisfying the predicate, each with its multiplicity |
| Collections.Collect | src/modules/roles.rs:81-82 | the collected map's keys are exactly the keys of the pairs; each value comes from a pair with that key |
| Collections.CollectLastWins | src/modules/roles.rs:65-66 | when a key repeats, the pair inserted last determines the value |
| Numerals.FromStrRadix | src/modules/roles.rs:58 | a parsed value is always below the bound; `DigitsRead`, `NoDigitsRejected` and `StrayCharacterRejected` state which texts parse |
| Numerals.DigitsRead | src/modules/roles.rs:58 | one or more digits of the radix, of either case and with leading zeros allowed, parse to their value when it is below the bound and fail otherwise; a leading '+' changes nothing |
| Numerals.NoDigitsRejected | src/modules/roles.rs:58 | the empty text and a lone '+' fail to parse |
| Numerals.ValueOfNumeral | src/modules/roles.rs:58 | the digits of a shortest numeral evaluate back to the number |
| Numerals.NumeralRoundTrip | src/modules/roles.rs:58 | parsing the numeral of any value below the bound gives the value back |
| Numerals.StrayCharacterRejected | src/modules/roles.rs:58-59 | a character outside the radix's digits (other than one leading '+') makes the parse fail |
| Roles.CurrentRoles | src/modules/roles.rs:71-83 | a name is a key iff some guild role has it and it ends in " (Alter)"; each entry has that name, `Some` id and a matching guild role, so the `id.unwrap()` calls in the differ are safe |
| Roles.FirstSegment | src/modules/roles.rs:52-54 | the text before the first " (": a prefix with no separator, and the whole string when there is none |
| Roles.NormaliseName | src/modules/roles.rs:47-55 | the desired name ends in " (Alter)" (it passes the current-roles filter) and has no " (" before the suffix |
| Roles.NormaliseIdempotent | src/modules/roles.rs:47-55 | normalising an already normalised name returns it unchanged |
| Roles.TrimHashes | src/modules/roles.rs:58 | `trim_start_matches("#")` removes exactly the leading '#'s |
| Roles.ParseColour | src/modules/roles.rs:56-63 | no colour text gives the default colour; any other colour is the value of non-empty hex digits after the '#'s (and an optional '+'); `ColourOfDigits`, `HashesOnlyDefault` and `ColourFallback` classify every text |
| Roles.ColourRoundTrip | src/modules/roles.rs:56-63 | a colour written in hex after any number of '#'s parses back to itself |
| Roles.ColourOfDigits | src/modules/roles.rs:56-63 | any hex digits after any number of '#'s (upper or lower case, zero-padded as in `#00ff00`) give their value when it fits in 32 bits, and the default colour otherwise; a '+' between the '#'s and the digits changes nothing |
| Roles.HashesOnlyDefault | src/modules/roles.rs:56-63 | colour text made only of '#'s, or of '#'s followed by a lone '+', gives the default colour |
| Roles.ColourFallback | src/modules/roles.rs:56-63 | colour text with a non-hex character after the '#'s gives the default colour |
| Roles.DesiredName | src/modules/roles.rs:45-55 | the role name is an alter name whose part before the suffix is the display name, or else the name, cut at the first " (" |
| Roles.DesiredRole | src/modules/roles.rs:45-64 | a desired role has no id and an alter name, and a member without a colour gets the default colour |
| Roles.DesiredRoles | src/modules/roles.rs:41-66 | keys are exactly the members' normalised names; each entry has no id, its own key as name, and is some member's desired role |
| Roles.OpFor | src/modules/roles.rs:93-119 | at most one op per name; none exactly when the name is on both sides with equal colours; a create exactly when the name is not current, a delete exactly when it is not desired |
| Roles.GetOps | src/modules/roles.rs:85-122 | at most one op per listed name; its meaning is stated by `GetOpsPartition`, `ApplyConverges` and `GetOpsInSync` |
| Roles.GetOpsJustified | src/modules/roles.rs:93-119 | each op names a listed key: Create only for desired-only keys (desired colour), Delete only for current-only keys (current id), Update only where colours differ (current id, desired colour) |
| Roles.GetOpsDistinct | src/modules/roles.rs:89-92 | no name gets two operations |
| Roles.GetOpsComplete | src/modules/roles.rs:89-121 | every listed key is covered: created, deleted, updated, or in both maps with equal colours |
| Roles.GetOpsPartition | src/modules/roles.rs:85-122 | over the union of keys: created names = desired∖current, deleted = current∖desired, updated = keys whose colours differ, names distinct, every op justified |
| Roles.ApplyConverges | src/modules/roles.rs:85-154 | applying the ops to the current role colours yields exactly the desired colours |
| Roles.GetOpsInSync | src/modules/roles.rs:96-106 | when the current and desired colour maps are equal, the diff is empty (idempotence) |
| Roles.Tally | src/modules/roles.rs:157-163 | an op raises the count of its own kind by one and leaves the other two counts alone |
| Roles.CountOps | src/modules/roles.rs:157-163 | the fold of `Tally` over the ops; `CountOpsTotal`, `CountOpsDistinct` and `CountsOfGetOps` state what it counts |
| Roles.CountOpsTotal | src/modules/roles.rs:157-163 | created + deleted + updated equals the number of ops |
| Roles.CountOpsDistinct | src/modules/roles.rs:157-163 | with distinct names, each count is the number of names of that kind |
| Roles.CountsOfGetOps | src/modules/roles.rs:157-163 | the reported counts are the sizes of desired∖current, current∖desired and the changed keys |
| Roles.ApplyChanges | src/modules/roles.rs:135-154 | ops are issued in order; success iff every call succeeds; on the first failure the loop stops, later ops are not attempted, and the state is the earlier ops applied |
| Roles.Reconcile | src/modules/roles.rs:85-171 | the ops are the differ's output for some iteration order of the key union; at most that many calls are made; Ok iff every call made succeeded, and then all ops were issued, the tracked alter roles (one per name) hold the desired colours and the counts are the partition's sizes; on Err every earlier call succeeded, the error names the failing op, which is justified, and the tracked colours are the earlier ops applied |
| Roles.UpdateMemberRoles | src/modules/roles.rs:125-171 | a failed registry fetch makes no call and leaves the tracked colours unchanged; otherwise the run over the guild's alter roles and the members' desired roles is reported as `Reconcile` states |
| Shards.StageStep | src/events.rs:36-67 | entry exists with the new stage; other shards unchanged; old Connected clears ready_at and decrements; else new Connected sets ready_at, increments iff not ready or new, counts a restart iff known; else only the stage changes; restarts never decrease |
| Shards.ShardTracker.StageUpdate | src/events.rs:31-68 | the in-place update leaves the tracker in `StageStep` of its old state, with the entry's stage set and other entries untouched |
| Shards.DuplicateConnectedDrifts | src/events.rs:51-54 | for every consistent tracker storing the shard as Connected, a Connected→Connected notification decrements the counter and clears ready_at while the shard stays Connected, so the tracker is no longer consistent |
| Shards.DuplicateConnectedExample | src/events.rs:51-54 | shard 7 stored Connected and ready with the counter at 1: the notification is faithful, and the counter drops to 0 while the shard stays Connected |
| Shards.GuardedStageStep | src/events.rs:50-67 | the corrected step: entry exists with the new stage, other shards unchanged |
| Shards.GuardedStepKeepsCount | src/events.rs:51-60 | over notifications whose old stage is the stored one (or not Connected for an unknown shard), the corrected step keeps the counter equal to the number of Connected shards, and ready_at set exactly while Connected |
| Shards.IntoConnectedKeepsCount | src/events.rs:41-60 | a notification into Connected from any other stage keeps the counter exact whatever the tracker stored, so a missed disconnection is not counted twice |
| Shards.StepAgreesUnlessDuplicate | src/events.rs:51-67 | for every notification except Connected→Connected, the code as written and the corrected step agree |
| Shards.StepKeepsCountUnlessDuplicate | src/events.rs:51-60 | the code as written keeps the counter exact over every faithful notification that is not Connected→Connected |
| Shards.ReconnectScenario | src/events.rs:41-66 | a shard's first connection counts no restart, a drop clears ready_at and decrements, and a resume to Connected counts one restart and re-increments |
| Emoji.StatsSort.Id | src/modules/emoji/shared.rs:26-33 | the identifier of each sort order; `SortRoundTrip` and `SortIdInjective` state that identifiers are distinct and parse back |
| Emoji.StatsSort.Name | src/modules/emoji/shared.rs:8-24 | the label of each sort order; `SortIdInjective` states that labels are distinct |
| Emoji.TryFromString | src/modules/emoji/shared.rs:35-43 | Ok only with the variant whose id is the input; Err exactly when no variant has that id |
| Emoji.SortRoundTrip | src/modules/emoji/shared.rs:26-43 | `try_from_string(id(s)) == Ok(s)` for every sort order |
| Emoji.SortIdInjective | src/modules/emoji/shared.rs:8-33 | distinct sort orders have distinct ids and distinct labels |
| Emoji.ToMenuOption | src/modules/emoji/shared.rs:46-50 | the value of a menu entry parses back to its sort order |
| Emoji.MatchPrefix | src/modules/emoji/shared.rs:53 | a match is a prefix of the text that is the token `<a?:name:digits>` with a non-empty word-character name and non-empty ASCII digits (the other direction is `MatchParts`) |
| Emoji.MatchParts | src/modules/emoji/shared.rs:53 | a token with a word-character name and any digit string at the start of any text is matched whole |
| Emoji.Scan | src/modules/emoji/shared.rs:52-65 | every extracted emoji carries the given guild id and a non-empty word-character name |
| Emoji.MatchRendered | src/modules/emoji/shared.rs:53-56 | a token at the start of any text is matched whole, with its animated flag, name and id digits |
| Emoji.ScanToken | src/modules/emoji/shared.rs:54-63 | a token whose digits, leading zeros allowed, have a value below 2^64 yields the emoji with that id, name and animated flag, and scanning continues right after the token |
| Emoji.ScanTokenOverflow | src/modules/emoji/shared.rs:58-60 | a token whose digits have a value of 2^64 or more makes the parse fail (the `unwrap` panic) |
| Emoji.ScanRendered | src/modules/emoji/shared.rs:54-63 | a rendered emoji yields itself, then scanning continues right after the token |
| Emoji.ScanSkipsPlainText | src/modules/emoji/shared.rs:54 | text without '<' contributes nothing and is skipped |
| Emoji.PlainTextHasNoEmoji | src/modules/emoji/shared.rs:52-65 | text in which no position starts a token yields the empty list |
| Emoji.LoneAngleExample | src/modules/emoji/shared.rs:52-65 | `"a < b"` yields no emoji |
| Emoji.EmptyIdExample | src/modules/emoji/shared.rs:52-65 | `"<:x:>"` yields no emoji: a token needs an id digit |
| Emoji.LeadingZerosExample | src/modules/emoji/shared.rs:52-65 | `"<:x:007>"` yields the static emoji `x` with id 7 |
| Emoji.ParseEmojisFromString | src/modules/emoji/shared.rs:52-65 | the scan of the message text; `ScanToken`, `ScanTokenOverflow`, `PlainTextHasNoEmoji` and `ParseRenderAll` state its results |
| Emoji.ParseRenderAll | src/modules/emoji/shared.rs:52-65 | rendering a list of emojis as tokens and parsing the text gives the same list, in order, one emoji per token |
| Emoji.ParseExample | src/modules/emoji/shared.rs:96-115 | `"<a:animated:0> <:static:1>"` parses to the animated emoji 0 and the static emoji 1 |
| Emoji.CountEmojis | src/modules/emoji/shared.rs:67-80 | keys are exactly the distinct inputs; each count is the emoji's number of occurrences, at least 1 |
| Emoji.CountsSumToLength | src/modules/emoji/shared.rs:67-80 | summed over the keys in any order, the counts add up to the input length |
| Emoji.CountExample | src/modules/emoji/shared.rs:118-132 | for `[e0, e0, e1]` the counts are exactly `{e0: 2, e1: 1}` |
| Fronters.DesiredFronters | src/modules/fronters/commands.rs:37-46 | the fronter names are exactly those of the full member entries; bare ids are dropped |
| Fronters.GetFronterChannels | src/modules/fronters/commands.rs:51-67 | fails iff the fetch failed; otherwise keeps exactly the channels whose parent is `Some(cat_id)`, with multiplicity |
| Fronters.FindCategory | src/modules/fronters/commands.rs:78-83 | `find`: None iff no channel is a category with the name (ignoring case); otherwise the first such channel |
| Fronters.GetFronterCategory | src/modules/fronters/commands.rs:69-93 | the default name is "current fronters"; Ok iff a category matches, and the result is such a category; otherwise `NoFronterCategory` with the guild's id and name |
| Fronters.CategoryRequest | src/modules/fronters/commands.rs:234-236 | the request for a category with the given name, no position and no parent; `CreateOrGetFronterCategory` and `SetupFindsOrCreates` state when it is sent |
| Fronters.CreateOrGetFronterChannel | src/modules/fronters/commands.rs:215-244 | as written: after a successful fetch the lookup result is returned unchanged, even `NoFronterCategory`; only a failed fetch leads to creating a category |
| Fronters.MissingCategoryNotCreated | src/modules/fronters/commands.rs:220-226 | a server without the category gets `NoFronterCategory` back and nothing is created |
| Fronters.CreateOrGetFronterCategory | src/modules/fronters/commands.rs:215-244 | corrected: an existing category is returned, a missing one is created, and only upstream failures are errors |
| Fronters.SetupFindsOrCreates | src/modules/fronters/commands.rs:228-243 | corrected setup with a working create always yields an existing matching category or the created one |
| Fronters.Positions | src/modules/fronters/commands.rs:112-117 | panics iff there are more than 65536 names; otherwise the i-th enumerated name gets position i, a bijection onto 0..n-1 |
| Fronters.NameMap | src/modules/fronters/commands.rs:104-110 | channels keyed by name: keys are exactly the channel names, each value a channel with that name |
| Fronters.Request | src/modules/fronters/commands.rs:143-147 | the request for a fronter's voice channel under the category at its position; `CreatesReport` and `ReconciledKeys` state when it is sent and what it yields |
| Fronters.DeleteStale | src/modules/fronters/commands.rs:119-130 | one delete call per stale name for its channel; the map loses exactly the names whose delete succeeded |
| Fronters.CreateMissing | src/modules/fronters/commands.rs:132-158 | one create call per missing name: a Voice channel under the category at the name's position; the map gains exactly the created channels |
| Fronters.Edits | src/modules/fronters/commands.rs:159-176 | an edit is asked exactly for the listed channels whose position differs from their assigned one |
| Fronters.Reposition | src/modules/fronters/commands.rs:159-176 | panics iff some position name has no channel; every edit call moves a misplaced channel; without a panic every misplaced channel is asked to move |
| Fronters.UpdateFronterChannels | src/modules/fronters/commands.rs:97-179 | the desired names are `DesiredFronters` of the registry's entries; Err only when a fetch fails; panics before any call on more than 65536 fronters; deletes only current∖desired, creates only desired∖current; the final map is the reconciled map; completes iff every desired name has a channel |
| Fronters.AllPlacedIffCreatesSucceed | src/modules/fronters/commands.rs:132-163 | every desired name has a channel after the passes iff every create succeeded, so a failed create always reaches the position pass's panic |
| Fronters.ReconciledKeys | src/modules/fronters/commands.rs:119-158 | after the passes a name has a channel iff it was desired and present, stale with a failed delete, or new with a successful create |
| Fronters.FailedCreatePanics | src/modules/fronters/commands.rs:149-163 | a single new fronter whose create fails has no channel when the position pass looks it up |
| Fronters.RepositionSkipping | src/modules/fronters/commands.rs:159-176 | corrected position pass: never panics; it asks to move exactly the channels away from their position |

## Left out

- Registry and platform calls are oracles or `Option` inputs. A channel call's answer is a function of its request. A role call's answer is a function of its index.
- The PluralKit client (`get_system_members`, `get_system_fronters`) is left out. Fronter entries carry the name `util::get_member_name` gives; that helper is not part of this model.
- The two fetches in `get_fronter_channels` (guild, then channels) are one `Option` input.
- Edit-call failures are left out. They are skipped and change nothing in the source, so the model records only the call.
- Permission overwrites on created channels and categories are left out. They are request decoration.
- The command wrappers are left out: `update_fronters`, `setup_fronters`, the command part of `update_member_roles` (deferring, replies, `ctx.partial_guild()`), and the `NoFronterCategoryError` message mapping.
- `println!` and `tracing` logging are left out.
- The `db` module (saving and loading the category id) is not part of this model.
- `src/main.rs` is not part of this model: configuration, the interval timer, and client setup.
- The `ready` handler is left out; it only logs.
- `is_guild_emoji` is left out; it is a single network call.
- Shard stats and timing:
  - Concurrent access to the shard map (DashMap) is left out. Steps are applied one at a time.
  - The clock is the `now` parameter.
  - `ShardStats::new` lives in a file that is not part of this model. It is taken to start with no ready time and zero restarts.
  - The counter is an unbounded integer, so a decrement below zero is not modelled as wrap-around.
- Roles.Reconcile: the guild is modelled by the colours of the alter roles `CurrentRoles` keeps, one per name. When two guild roles share an alter name, `collect` keeps one of them. The other is never diffed, deleted or recoloured, so the promise that the desired colours are reached covers the kept roles only.
- Shards.ShardTracker.StageUpdate: follows the code as written, including the Connected→Connected decrement (see Findings).
- Fronters.Lower: lowercasing is ASCII only; Rust's `to_lowercase` also folds non-ASCII letters.
- The general regex engine is left out. Only the fixed pattern is scanned, and `[[:word:]]` and `[[:digit:]]` are their ASCII classes.
- Numerals.FromStrRadix: models the digits-only inputs used here and the optional leading '+'. It does not model the `-` sign rules of signed types.
- The default role colour, `serenity::colours::roles::DEFAULT`, comes from the platform library, which is not part of this model. It is taken as 0x99AAB5.
- Emoji.CountEmojis: requires that no emoji occurs more than 32767 times. The source's 16-bit count relies on the 2000-character message limit, which is not modelled.
- Ids (roles, channels, guilds) are unbounded naturals. Positions are 16-bit, colours 32-bit, emoji ids 64-bit.
- Emoji.Scan: a 64-bit overflow in any token makes the whole parse None. It stands for the `unwrap` panic and does not model partial output.

## Findings

| source | as written | input that shows it | evidently intended | confidence | as-written member | corrected member |
|---|---|---|---|---|---|---|
| src/events.rs:51-54 | the disconnect branch tests only `old == Connected` | shard 7 stored Connected and ready, counter 1; notification 7: Connected → Connected | decrement and clear `ready_at` only when the shard leaves Connected | low (the platform may never send an unchanged stage); not executed | Shards.DuplicateConnectedDrifts | Shards.GuardedStepKeepsCount |
| src/modules/fronters/commands.rs:222-226 | returns on `NoFronterCategoryError` and creates a category on any other error | a server whose channels include no category with the requested name | return other errors; create the category when it is missing (as the comments on lines 223 and 240 say) | high; not executed | Fronters.MissingCategoryNotCreated | Fronters.SetupFindsOrCreates |
| src/modules/fronters/commands.rs:149-163 | a failed create is skipped with `continue`, but the position pass `expect`s a channel for every desired name | no fronter channels, fronters {"Alex"}, the create call fails | skip names without a channel in the position pass, like every other failed call | medium; not executed | Fronters.FailedCreatePanics | Fronters.RepositionSkipping |
