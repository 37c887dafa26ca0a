# game_randomizer core, modelled in Dafny

This models the in-memory logic of a Discord bot that helps a guild pick a game.
There are four pieces:

- **Suggestions.** Each guild keeps a list of game suggestions. An entry is
  either a Steam catalogue app or a free-text title with an optional genre and
  url.
  - Adding refuses duplicates. Text entries are compared by ASCII-lowercased
    title. Steam entries are compared with the hand-written `==` of
    `Suggestion`.
  - Removing finds the first entry whose lowercased title matches. Only its
    owner may remove it, and removal is a `swap_remove`.
  - `add_suggestion` and `remove_suggestion` choose the kind from a "plain" or
    "steam" keyword.
  - `list_suggestions` prints one line per entry.
- **Players.** Each guild keeps a list linking Discord users to Steam ids.
  `add_steam_id` inserts a link or updates it in place. `find_common_games`
  works in four steps:
  - it resolves display names to members;
  - it collects the members' Steam ids;
  - it intersects their game libraries (`find_common`, folded over the
    libraries);
  - it packs one line per common game into blocks of at most 1950 bytes.
- **Steam catalogue.** An `App` is an id and a name. The catalogue is searched
  for the first app with a given id or exact name, and an empty catalogue
  answers every look-up with an error. The module also builds store-page URLs
  and the `[name](url)` display form.
- **Straw polls.** A question, an answer list and the voters' choices. The
  question can be replaced, an answer appended, and an answer removed by index
  with bounds checking.

Modules:

- `Steam` (steam.dfy), `Suggestions` (suggestions.dfy), `Players` (players.dfy)
  and `Polls` (polls.dfy) follow the four source files.
- `Text` (text.dfy) models the pieces of Rust's standard library the code
  relies on:
  - `str::trim`, with Unicode White_Space;
  - `to_ascii_lowercase`;
  - `u32`/`u64` parsing, which accepts a leading '+';
  - integer `Display`;
  - `str::len`, which counts UTF-8 bytes.
- `Seqs` (seqs.dfy) models `position`, `find`, `any`, and the push-in-a-loop
  patterns `filter_map` and `flat_map`.
- `Discord` (discord.dfy) holds the user and guild ids both stores are keyed
  by, and the per-guild look-up they share.
- `Wrappers` (wrappers.dfy) holds `Option` and `Result`.

The two guild stores are classes whose `map` field each command updates in one
sequential step. Their invariants are:

- for suggestions: no two entries are `==`, no two text titles agree ignoring
  ASCII case, and text titles are stored trimmed;
- for players: at most one entry per Discord user.

The invariants are not preconditions. The source accepts any stored state, so
each command promises only to keep an invariant that held before.

Everything the code gets from outside becomes a parameter:

- the guild id of the message (`Option`);
- the parsed command arguments;
- the guild member list;
- the vanity-name resolver;
- the owned-games service;
- the catalogue.

Replies are outcome values, one constructor per kind of outcome. Replies that
differ only in wording share one: `MissingArgument` stands for both "no title
provided" and "No id or name provided", and `Added` for both the "Added: ..."
echo of a text add and "added game".

Where the description of the bot and the code differ, the model follows the code:

- A display name resolves to the first member whose nickname *or* user name
  matches. Nicknames are not searched across all members before user names.
- The common-games fold starts from the *last* fetched library, which is
  popped, and intersects it with the others in order. The games listed are
  that library's entries, in its order: `Players.CommonAcrossIsShared`.
- Both "at least two" checks of `find_common_games` count repetitions, because
  neither the resolved names nor the collected ids are deduplicated. One
  player named twice passes both, and their own library is listed as the
  common games: `Players.OnePlayerNamedTwiceIsListed`.
- When the chunking loop flushes a block, it drops the line that caused the
  flush. `Players.DroppedMembers` proves this in general, and
  `Players.OverflowingLineIsDropped` shows it on two 1000-byte lines.
- A block may be sent empty when a single line is longer than 1950 bytes.
- `list_suggestions` separates fields with " Genre: " and a bare "Url: ".
  `Display for TextSuggestion` uses " | Genre: " and " | Url: ".

## Model

| member | source | states |
|---|---|---|
| `Text.Trim` | src/commands/suggestions.rs:360 | `str::trim`: never longer than its input, and the result starts and ends with non-whitespace |
| `Text.TrimIsSlice` | src/commands/suggestions.rs:360 | the trimmed string is the slice of the input between an all-whitespace prefix and an all-whitespace suffix |
| `Text.TrimIdempotent` | src/commands/suggestions.rs:360 | trimming a stored (trimmed) title again changes nothing |
| `Text.AsciiLower` | src/commands/suggestions.rs:394-395 | `to_ascii_lowercase`: same length, no ASCII capitals left, capitals shifted by 32, every other character kept |
| `Text.AsciiLowerIdempotent` | src/commands/suggestions.rs:394-395 | lowercasing twice is lowercasing once |
| `Text.Decimal` | src/endpoints/steam.rs:13 | integer `Display`: non-empty digits, no leading zero, denoting the number |
| `Text.DecimalInjective` | src/endpoints/steam.rs:13 | two numbers print the same only if they are equal |
| `Text.ParseUnsigned` | src/commands/suggestions.rs:437 | `FromStr` for unsigned ints: succeeds exactly on an optional '+' followed by digits whose value is below the type's limit, and yields that value |
| `Text.ParseDecimal` | src/commands/suggestions.rs:437 | parsing what `Display` printed returns the number |
| `Text.Utf8Len` | src/commands/players.rs:301 | `str::len` counts bytes: between one and four per character |
| `Text.Utf8LenAppend` | src/commands/players.rs:301-302 | the byte length of a concatenation is the sum of the byte lengths |
| `Seqs.Position` | src/commands/suggestions.rs:244-249 | `position` returns the first index satisfying the predicate, and `None` exactly when no index does |
| `Seqs.Find` | src/endpoints/steam.rs:40 | `find` returns an element exactly when one satisfies the predicate, and it is the first such element |
| `Seqs.Any` | src/commands/suggestions.rs:395 | `any` holds exactly when some element satisfies the predicate |
| `Steam.Url` | src/endpoints/steam.rs:12-15 | the store address starts with the store prefix and ends with '/' |
| `Steam.AppIdOfUrl` | src/endpoints/steam.rs:12-15 | whatever id it reads from an address, `url` of that id gives the address back |
| `Steam.UrlRoundTrip` | src/endpoints/steam.rs:12-15 | reading the id back from `url` gives the app id, and two apps share an address exactly when they share an id |
| `Steam.Display` | src/endpoints/steam.rs:17-21 | the display is `[`, the name, `](`, the store address and `)` |
| `Steam.DisplayInjective` | src/endpoints/steam.rs:17-21 | equal displays mean equal apps: the link determines both name and id |
| `Steam.FromLibraryApp` | src/endpoints/steam.rs:22-29 | the conversion keeps id and name |
| `Steam.FromLibraryApps` | src/endpoints/steam.rs:63-67 | the list conversion keeps length, order, and every id and name |
| `Steam.IsEmpty` | src/endpoints/steam.rs:36-38 | true exactly when the list has no app |
| `Steam.FindById` | src/endpoints/steam.rs:39-47 | `Ok` exactly when some app has the id; then the result is the first such app |
| `Steam.FindByName` | src/endpoints/steam.rs:48-56 | `Ok` exactly when some app has exactly this name; then the result is the first such app |
| `Steam.FindByIdStable` | src/endpoints/steam.rs:39-47 | apps appended after a match never change the answer |
| `Steam.GameById` | src/endpoints/steam.rs:105-110 | an empty catalogue always answers `Err`; otherwise the answer is `find_by_id`'s |
| `Steam.GameByName` | src/endpoints/steam.rs:111-116 | an empty catalogue always answers `Err`; otherwise the answer is `find_by_name`'s |
| `Suggestions.Title` | src/commands/suggestions.rs:32-38 | the app's name for a Steam entry, the title for a text entry |
| `Suggestions.User` | src/commands/suggestions.rs:39-45 | the owner, for both variants |
| `Suggestions.Eq` | src/commands/suggestions.rs:47-61 | two Steam entries are equal exactly when their ids are; any other pair exactly when their titles are equal, case-sensitively |
| `Suggestions.EqReflexiveSymmetric` | src/commands/suggestions.rs:47-61 | `==` is reflexive and symmetric |
| `Suggestions.EqNotTransitive` | src/commands/suggestions.rs:47-61 | `==` is not transitive: one text title equals two Steam apps with different ids |
| `Suggestions.DisplayText` | src/commands/suggestions.rs:83-93 | "Title: t", then " \| Genre: g" only with a genre, then " \| Url: u" only with a url, in that order |
| `Suggestions.TextEntry` | src/commands/suggestions.rs:153-164 | a text entry's line: "Title: " and the title, then " Genre: g" only with a genre, then "Url: u" only with a url, then "\r\n", each at its position |
| `Suggestions.SteamEntry` | src/commands/suggestions.rs:165-172 | a Steam entry's line: "Steam: " and the name, " - ", the store address, then "\r\n", each at its position |
| `Suggestions.ListEntry` | src/commands/suggestions.rs:151-172 | every line starts "Title: " or "Steam: " by variant, then the entry's title, and ends "\r\n"; the rest is the variant's line |
| `Suggestions.ListingAppend` | src/commands/suggestions.rs:149-172 | the listing of a concatenation is the concatenation of the listings |
| `Suggestions.ListingLength` | src/commands/suggestions.rs:149-172 | every entry adds at least 9 characters to the listing: its 7-character prefix and "\r\n" |
| `Suggestions.ParseKind` | src/commands/suggestions.rs:117-120 | the keyword, ASCII-lowercased and then trimmed, selects a kind exactly when it is "plain" or "steam" |
| `Suggestions.ParseKindOfKeyword` | src/commands/suggestions.rs:117-120 | a keyword in any ASCII case, with any whitespace around it, selects its kind |
| `Suggestions.TitleTaken` | src/commands/suggestions.rs:393-395 | the text duplicate check holds exactly when some entry's lowercased title equals the candidate's |
| `Suggestions.ContainsEqual` | src/commands/suggestions.rs:463-464 | the Steam duplicate check holds exactly when some entry is `==` to the candidate |
| `Suggestions.IndexOfTitle` | src/commands/suggestions.rs:244-249 | the removal target is the first entry whose lowercased title equals the requested one's; there is none exactly when the title is not taken |
| `Suggestions.SwapRemove` | src/commands/suggestions.rs:260 | `swap_remove`: length drops by one, the last element fills the gap unless it was the one removed, every other position is unchanged, and the contents lose exactly the removed element |
| `Suggestions.EqImpliesSameLowerTitle` | src/commands/suggestions.rs:394-395 | when one side is text, `==` entries have equal lowercased titles, so the text check rejects all that `==` would |
| `Suggestions.AppendTextKeepsWellFormed` | src/commands/suggestions.rs:393-411 | appending a trimmed text entry whose title passed the duplicate check keeps the list free of duplicates |
| `Suggestions.AppendSteamKeepsWellFormed` | src/commands/suggestions.rs:463-480 | appending a Steam entry that passed the `==` check keeps the list free of duplicates |
| `Suggestions.SwapRemoveKeepsWellFormed` | src/commands/suggestions.rs:258-260 | swap-removing any entry keeps the list free of duplicates |
| `Suggestions.SteamDuplicateIsExact` | src/commands/suggestions.rs:463-468 | the Steam duplicate check matches a Steam entry by app id and a text entry only by a title spelled exactly as the app's name, case included |
| `Suggestions.SteamAddIgnoresCase` | src/commands/suggestions.rs:463-468 | an instance of that: "PORTAL" is accepted next to text "Portal", though their lowercased titles agree |
| `Suggestions.LookupApp` | src/commands/suggestions.rs:437-456 | an argument that parses as `u32` is looked up as an id, anything else as an exact name; the result is the catalogue's first app with that id or name, and each failure has its own error |
| `Suggestions.TextFromArgs` | src/commands/suggestions.rs:355-381 | the title is the trimmed first argument (empty without one), the genre the second and the url the third |
| `Suggestions.AddTextKeepsStoreWellFormed` | src/commands/suggestions.rs:389-412 | a text add that passed its check keeps every guild's list well formed |
| `Suggestions.AddSteamKeepsStoreWellFormed` | src/commands/suggestions.rs:462-481 | a Steam add that passed its check keeps every guild's list well formed |
| `Suggestions.TextAddStepKeepsWellFormed` | src/commands/suggestions.rs:389-412 | any step a text add may take keeps every guild's list well formed |
| `Suggestions.SteamAddStepKeepsWellFormed` | src/commands/suggestions.rs:427-481 | any step a Steam add may take keeps every guild's list well formed |
| `Suggestions.TitleRemoveStepKeepsWellFormed` | src/commands/suggestions.rs:236-268 | any step a removal may take keeps every guild's list well formed |
| `Suggestions.SuggestionStore.constructor` | src/commands/suggestions.rs:100-104 | the store starts with no guild lists |
| `Suggestions.SuggestionStore.Append` | src/commands/suggestions.rs:406-411 | the entry is pushed onto the guild's list, or becomes a one-element list; other guilds are untouched |
| `Suggestions.SuggestionStore.ListSuggestions` | src/commands/suggestions.rs:135-180 | outside a guild there is no listing; inside, the listing of the guild's entries in order |
| `Suggestions.SuggestionStore.AddText` | src/commands/suggestions.rs:354-415 | outside a guild nothing changes; otherwise the step `TextAddStep` describes: refused, with nothing changed, exactly when the title is taken ignoring ASCII case; otherwise the trimmed entry is appended to that guild's list only |
| `Suggestions.SuggestionStore.InsertText` | src/commands/suggestions.rs:389-412 | refused exactly when the title is taken ignoring case; otherwise the entry is appended at the end |
| `Suggestions.SuggestionStore.AddSteam` | src/commands/suggestions.rs:416-484 | outside a guild nothing changes; otherwise the step `SteamAddStep` describes: a missing argument or a failed look-up is reported and changes nothing; refused exactly when the app is `==` to an entry; otherwise the app is appended |
| `Suggestions.SuggestionStore.RemoveByTitle` | src/commands/suggestions.rs:236-268 | the step `TitleRemoveStep` describes: `NoSuchTitle` exactly when no title matches, `NotOwner` exactly when the first match has another owner, both changing nothing; otherwise that entry is swap-removed |
| `Suggestions.SuggestionStore.RemoveText` | src/commands/suggestions.rs:203-271 | guild and missing-title errors change nothing; otherwise the removal step for the trimmed title |
| `Suggestions.SuggestionStore.RemoveSteam` | src/commands/suggestions.rs:272-351 | guild, argument and look-up errors change nothing; otherwise the removal step for the app's name |
| `Suggestions.SuggestionStore.AddSuggestion` | src/commands/suggestions.rs:113-131 | no keyword or an unknown keyword changes nothing; after "plain" or "steam", outside a guild nothing changes, and inside one the outcome and the new store are exactly the text or Steam add step on the remaining arguments |
| `Suggestions.SuggestionStore.RemoveSuggestion` | src/commands/suggestions.rs:183-201 | no keyword or an unknown keyword changes nothing; after "plain" or "steam", outside a guild nothing changes, and inside one the outcome and the new store are exactly the text or Steam removal step on the remaining arguments |
| `Players.IndexOfUser` | src/commands/players.rs:121-122 | the first entry of the user, or none exactly when no entry is theirs |
| `Players.Upsert` | src/commands/players.rs:120-137 | unchanged keeps the list; an append happens exactly when the user has no entry; an update keeps the length |
| `Players.UpsertLinks` | src/commands/players.rs:121-137 | afterwards the user is linked to the id, at the position of their first entry or at the end, and every other position is unchanged; "unchanged" exactly when the user's first entry already held the id |
| `Players.UpsertKeepsUnique` | src/commands/players.rs:120-137 | the upsert keeps at most one entry per Discord user |
| `Players.UpsertKeepsOthers` | src/commands/players.rs:121-129 | entries of other users are never touched |
| `Players.UpsertKeepsAllUnique` | src/commands/players.rs:117-139 | the upsert keeps every guild's list unique |
| `Players.SteamIdOf` | src/commands/players.rs:95-115 | a `u64` argument is the id; anything else is what the vanity resolver answers |
| `Players.PlayerStore.constructor` | src/commands/players.rs:75-78 | the store starts with no guild lists |
| `Players.PlayerStore.Link` | src/commands/players.rs:117-139 | the store step is the upsert on the guild's list (a new guild gets a one-element list), and "unchanged" changes nothing |
| `Players.PlayerStore.AddSteamId` | src/commands/players.rs:86-141 | guild, missing-argument and unresolvable-id errors change nothing; otherwise the upsert with the parsed or resolved id |
| `Players.PlayerStore.FindCommonGames` | src/commands/players.rs:185-322 | the report is the one `CommonGamesReport` defines, each abort tested in the source's order |
| `Players.HasApp` | src/commands/players.rs:144-146 | `any(owned_game_eq)` holds exactly when some game has the app id |
| `Players.CommonMembers` | src/commands/players.rs:147-183 | a game is in `find_common(left, right)` exactly when it is in `left` and its app id occurs in `right` |
| `Players.CommonAppend` | src/commands/players.rs:152-180 | the intersection distributes over concatenation of `left`, so it keeps `left`'s order, and it is never longer than `left` |
| `Players.CommonOf` | src/commands/players.rs:147-183 | the result's games are the intersection, and `game_count` is its length truncated to `u32` |
| `Players.FindCommon` | src/commands/players.rs:147-183 | the loop builds exactly that intersection and count |
| `Players.FoldCommonMembers` | src/commands/players.rs:268 | a game survives the fold exactly when it is in the accumulator and its app id occurs in every other library |
| `Players.FoldCommonIsShared` | src/commands/players.rs:266-272 | the fold's games are exactly the accumulator's games, in its order, whose app id every other library has, a filter stated without the fold |
| `Players.CommonAcross` | src/commands/players.rs:267-272 | there is no result exactly when no library was fetched |
| `Players.CommonAcrossIsShared` | src/commands/players.rs:266-272 | the common games are the popped library's games, in its order, kept exactly when every other fetched library has their app id |
| `Players.CommonAcrossMembers` | src/commands/players.rs:267-272 | a common game is a game of the popped library whose app id occurs in every fetched library, and every such game is common |
| `Players.ResolveName` | src/commands/players.rs:207-220 | a name resolves exactly when some member matches it by nickname or user name; the id is the first matching member's |
| `Players.ResolveMember` | src/commands/players.rs:207-220 | the member loop computes exactly that resolution |
| `Players.Resolved` | src/commands/players.rs:200-221 | there are never more resolved users than names |
| `Players.ResolvedMembers` | src/commands/players.rs:200-221 | a user is resolved exactly when some name resolves to them; unmatched names are dropped |
| `Players.ResolveUsers` | src/commands/players.rs:200-221 | the loop over the names computes exactly those users, in order |
| `Players.IdsOfMembers` | src/commands/players.rs:240-244 | an id is collected for a user exactly when the list links that user to it |
| `Players.IdsOfUnique` | src/commands/players.rs:239-245 | with one entry per user, a user yields at most one id, and one exactly when they have an entry |
| `Players.CollectIdsMembers` | src/commands/players.rs:239-245 | a collected id is one the list links to one of the resolved users |
| `Players.CollectIdsLength` | src/commands/players.rs:239-245 | with one entry per user there are never more ids than users |
| `Players.CollectSteamIds` | src/commands/players.rs:239-245 | the nested loops collect exactly those ids, in order |
| `Players.FetchLibraries` | src/commands/players.rs:256-264 | the libraries fetched, in id order, skipping ids whose look-up fails |
| `Players.GameNameCached` | src/commands/players.rs:285-286 | a name the library carried is shown as it is, whatever the catalogue holds |
| `Players.GameNameFallback` | src/commands/players.rs:285-293 | with no cached name, a catalogued game gets the name of the catalogue's first entry for its id, and any other game "** NNF **" |
| `Players.GameLine` | src/commands/players.rs:294 | a line is the name, " - ", the app's store address and "\r\n" |
| `Players.GameLineAppId` | src/commands/players.rs:294 | the address in a line reads back to the game's app id |
| `Players.GameLines` | src/commands/players.rs:284-295 | one line per common game, in order |
| `Players.PackAllBounded` | src/commands/players.rs:298-312 | the chunking loop never lets a block exceed 1950 bytes |
| `Players.BlocksBounded` | src/commands/players.rs:298-320 | no block sent exceeds 1950 bytes |
| `Players.PackAllFits` | src/commands/players.rs:298-312 | lines that fit together in 1950 bytes all go into one block |
| `Players.BlocksWhenAllFit` | src/commands/players.rs:298-320 | lines that fit together are sent as one block and none is dropped |
| `Players.Dropped` | src/commands/players.rs:300-311 | the dropped lines' positions, strictly increasing and within the lines |
| `Players.DroppedMembers` | src/commands/players.rs:300-311 | a line is dropped exactly when, at its turn, the block being filled plus the line would exceed 1950 bytes |
| `Players.PackAllRuns` | src/commands/players.rs:298-312 | the flushed blocks are the runs of lines between consecutive dropped lines, joined in order, and the block being filled is the run after the last dropped line |
| `Players.BlockIsRun` | src/commands/players.rs:298-320 | block `k` joins the lines from just after the `k`-th dropped line up to the next dropped line, or up to the end |
| `Players.BlocksAreRuns` | src/commands/players.rs:298-320 | every block sent is a run of consecutive lines, in order; consecutive blocks are separated by exactly one dropped line; the last run is sent only when it is not empty |
| `Players.OverflowingLineIsDropped` | src/commands/players.rs:301-311 | the line that triggers a flush is lost: two 1000-byte lines give one block holding only the first |
| `Players.PackBlocks` | src/commands/players.rs:298-320 | the loop sends exactly the blocks `Blocks` defines, the non-empty last block included |
| `Players.ListedReport` | src/commands/players.rs:222-320 | a listing implies a guild with a player list, at least two resolved names and at least two collected ids (repetitions counted in both), and a fetched library; every listed game's app id occurs in every fetched library; every block is at most 1950 bytes |
| `Players.OnePlayerNamedTwiceIsListed` | src/commands/players.rs:200-272 | one player named twice resolves twice and yields their id twice, so their own library is intersected with itself and listed |
| `Polls.RemoveAt` | src/commands/polls.rs:35 | `Vec::remove`: length drops by one, earlier answers stay, later ones move down one place |
| `Polls.RemoveInsertRoundTrip` | src/commands/polls.rs:35 | removing is undone by inserting the element back at its index |
| `Polls.StrawPoll.constructor` | src/commands/polls.rs:19-23 | a poll holds the given question, answers and answerers |
| `Polls.StrawPoll.SetQuestion` | src/commands/polls.rs:25-27 | only the question changes |
| `Polls.StrawPoll.AddAnswer` | src/commands/polls.rs:28-30 | the answer is appended; question and answerers unchanged |
| `Polls.StrawPoll.RemoveAnswer` | src/commands/polls.rs:31-37 | an index past the end answers `None` and changes nothing; otherwise `Some(())` and the answer is removed in order; question and answerers are never touched |

## Left out

- Discord plumbing is not modelled: message replies, `MessageBuilder`, code
  blocks, command registration and `Args` tokenising. Arguments arrive already
  split, and quoting is not modelled. The "Common games i" header and the
  code-block wrapping of each block are left out; block `i` is sent as message
  `i`.
- The suggestion commands read under one lock and write under another. A
  concurrent command can change the list in between, but the model runs each
  command as one step.
- Network and library calls are parameters of the model: the app-list fetch
  (`fill_app_list`), `user_owned_games`, `resolve_vanity_user` and the guild
  member list. When a library fetch fails, the id is skipped; the "Could not
  find games for" reply is not modelled.
- `Players.PlayerStore.AddSteamId`: the model stores ids as `u64` and treats
  the `SteamID` conversion in both directions as the identity.
- `Players.PlayerStore.FindCommonGames`: if reading the guild member list
  fails, the model reports it. If an argument cannot be read as a string, the
  source stops reading arguments; the model has no such case, because its
  arguments are already strings.
- `Players.OwnedGame`: the playtime fields are unbounded naturals, not
  fixed-width integers. `find_common` only copies them.
- Loading and saving the stores, the configuration file and start-up wiring
  are not part of this model: src/main.rs, src/config.rs, src/events.rs,
  src/commands/general.rs and src/commands/mod.rs.
- The model omits:
  - the `Display` of the whole `Apps` list, a debug listing;
  - the `Default` impls;
  - the map of polls by channel and message, which has no operations.
- `Suggestions.SuggestionStore.AddSuggestion` and `RemoveSuggestion` drop the
  log line printed when the keyword argument is missing.
