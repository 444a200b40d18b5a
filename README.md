# SupportX `/bot-owner` command: a Dafny model

This project models the data logic of the `/bot-owner` slash command of
SupportX, a multi-tenant Discord ticket bot. Every guild ("server") shares one
registry of global ticket categories, kept in the `ticketCategories` object of
`config.json`. Each guild opts categories in through the `enabledCategories`
list of its own record in the guild config collection. The command has five
subcommands, all behind one access gate:

- `add-global-category` normalises the requested id (lowercase, keep only
  `[a-z0-9_]`). It refuses an id that is already present, otherwise stores
  the category and writes the file.
- `remove-global-category` looks up the raw id, refuses a missing one,
  otherwise deletes it. It then cascades: the id is filtered out of every
  guild's list, the guilds that had it are counted, and the collection is
  written back only when that count is non-zero.
- `list-global-categories` shows an empty-state message or one row per
  category, in key order.
- `stats` adds up servers, users and open and closed tickets across the
  guilds, plus the key count of the tickets document and the length of the
  feedback document.
- `servers` sorts the guilds by member count, largest first, with ties kept
  in cache order (a stable sort). It cuts the list to twenty and numbers each
  shown guild with its ticket total.

Modules, one per component of the handler:

| file | module | what it holds |
|---|---|---|
| `category_id.dfy` | `CategoryId` | id normalisation |
| `registry.dfy` | `Registry` | the registry class, listing, the inherited-key guard as written |
| `tenants.dfy` | `Tenants` | guild configs and the cascade |
| `access.dfy` | `Access` | the owner gate |
| `stats.dfy` | `Stats` | bot-wide totals |
| `ranking.dfy` | `Ranking` | the stable top-20 ranking and its numbered rows |
| `bot_owner.dfy` | `BotOwner` | the handler `Execute` over the registry and the database |
| `lists.dfy`, `optional.dfy` | `Lists`, `Optional` | the `filter` used by both stores, and `Option` |

The registry object, which the handler changes in place, is the class
`CategoryRegistry`. The `client.database` documents are the class `Database`.
Its config collection is replaced whole when it is written, and a ghost
counter records each `writeJSON`. The cascade works on a snapshot, as the
source does after `readJSON`.

## Model

| member | source | states |
|---|---|---|
| `CategoryId.LowerChar` | bot-owner.js:74 | one character of `toLowerCase` gives one or two characters, none of them `A`-`Z`; a character of `[a-z0-9_]` is its own lowercase form |
| `CategoryId.ToLower` | bot-owner.js:74 | `toLowerCase` on the whole string leaves no `A`-`Z` and at most doubles the length (U+0130 becomes two characters) |
| `CategoryId.StripInvalid` | bot-owner.js:74 | the `replace(/[^a-z0-9_]/g, '')` result holds only `[a-z0-9_]` characters and is no longer than its input |
| `CategoryId.Normalize` | bot-owner.js:74 | a normalised id holds only `a-z`, `0-9` and `_` (it may be empty) |
| `CategoryId.NormalizeFixes` | bot-owner.js:74 | normalising returns its input if and only if the input is already an id; normalising twice equals normalising once |
| `CategoryId.NormalizeConcat` | bot-owner.js:74 | normalisation works character by character: the id of `a + b` is the id of `a` followed by the id of `b` |
| `CategoryId.NormalizeIgnoresCase` | bot-owner.js:74 | lowercasing the input first yields the same id, so `VIP` and `vip` collide |
| `CategoryId.NormalizeIgnoresPunctuation` | bot-owner.js:74 | inserting a character that lowercases outside `[a-z0-9_]` anywhere leaves the id unchanged |
| `CategoryId.VipSupportCollides` | bot-owner.js:74 | `VIP Support!!` and `vip support` normalise to the same id, so the second is refused as a duplicate of the first |
| `Lists.Without` | bot-owner.js:126 | `filter(catId => catId !== id)` never contains `id` and is no longer than its input |
| `Lists.WithoutMembership` | bot-owner.js:126 | an element survives the filter if and only if it was present and is not the removed id |
| `Lists.WithoutConcat` | bot-owner.js:126 | the filter distributes over concatenation, so surviving ids keep their relative order |
| `Lists.WithoutUnchanged` | bot-owner.js:125-126 | the filter changes a list if and only if the list contains the id |
| `Lists.WithoutCounts` | bot-owner.js:126 | every other id keeps its number of occurrences; the removed id has none left |
| `Lists.WithoutDistinct` | bot-owner.js:116 | filtering a list without repeats (the registry's key order) keeps it without repeats |
| `Registry.CategoryRegistry.Has` | bot-owner.js:79 | the corrected own-key form of the guard at lines 79 and 108 (as written the guard also sees inherited properties; see `FoundAsWritten`): in a well-formed registry an id is an own key if and only if it appears in the key order |
| `Registry.CategoryRegistry.Add` | bot-owner.js:79-93 | refused with `DuplicateCategory` if and only if the id is a key, and then nothing changes; otherwise the id maps to exactly `{label, emoji, description}`, every other entry is kept, the id is last in key order and the file is written once |
| `Registry.CategoryRegistry.Remove` | bot-owner.js:106-119 | refused with `CategoryNotFound` if and only if the raw id is not a key, and then nothing changes; otherwise it returns the removed definition, deletes only that key, keeps the key order of the rest and writes the file once |
| `Registry.AddKeepsIndexed` | bot-owner.js:86 | inserting a new key keeps the key order duplicate-free and equal to the key set |
| `Registry.RemoveKeepsIndexed` | bot-owner.js:116 | deleting a key keeps the key order duplicate-free and equal to the key set |
| `Registry.Rows` | bot-owner.js:152-154 | one row per key, in key order, each with that key's category |
| `Registry.ListingOf` | bot-owner.js:149-154 | the empty-state message is shown if and only if the registry has no keys |
| `Registry.ListingMatchesRegistry` | bot-owner.js:152-154 | a row is listed if and only if its id is a key mapped to its category; no id is listed twice |
| `Registry.AddedListedLast` | bot-owner.js:86 | after an insertion the listing is the old listing followed by the new row |
| `Registry.RemovedNotListed` | bot-owner.js:116 | after a deletion the id is no longer listed and every other category still is |
| `Registry.FoundAsWritten` | bot-owner.js:79 | the guard of lines 79 and 108 as written finds an id that is not an own key, and is a normalised id, only for `constructor` and `__proto__` |
| `Registry.InheritedKeysFoundAsWritten` | bot-owner.js:79 | as written, the guard finds `constructor` (a normalised id) and `toString` in a registry that has neither |
| `Tenants.References` | bot-owner.js:125 | a guild's list includes the id if and only if the list exists and filtering the id out changes it |
| `Tenants.Purge` | bot-owner.js:125-126 | afterwards the guild's list does not contain the id; the guild keeps its other settings and has a list exactly when it had one |
| `Tenants.Cascade` | bot-owner.js:121-129 | the walk returns the collection with the id stripped from every list that contained it, and it counts the guilds whose list contained the id, each guild once |
| `Tenants.PurgedClearsId` | bot-owner.js:123-129 | after the cascade no guild refers to the id, no guild is added or lost, and no other setting changes |
| `Tenants.PurgedKeepsOtherIds` | bot-owner.js:125-126 | a guild without a list, or whose list lacks the id, is untouched; otherwise every other id keeps its count and its relative order |
| `Tenants.AffectedIffChanged` | bot-owner.js:127-133 | the count is at most the number of guilds and is zero if and only if the cascade changes nothing, so the collection is written if and only if some guild changed |
| `Access.IsBotOwner` | bot-owner.js:55-57 | without an application owner nobody is the bot owner; when the owner has no truthy `ownerId` (a user, or a team with an empty owner id) only the owner's own id is |
| `Access.Check` | bot-owner.js:55-65 | inside a guild the caller passes if and only if they are the application owner, the team owner (a non-empty `ownerId`) or the guild owner, and is otherwise denied; outside a guild the handler throws for every caller |
| `Stats.Tally` | bot-owner.js:171-177 | the loop's open and closed totals are the sums over all guilds of `openTickets` and of `totalTickets - openTickets` |
| `Stats.MemberSum` | bot-owner.js:184 | the user total is at least every guild's member count, and it is zero if and only if every guild has zero members |
| `Stats.Compute` | bot-owner.js:167-188 | servers is the number of guilds, users the sum of member counts, tickets the number of keys of the tickets document and feedback its length; open plus closed equals the per-guild ticket totals |
| `Stats.OpenPlusClosed` | bot-owner.js:175-176 | open plus closed tickets equals the sum of per-guild `totalTickets` |
| `Stats.ClosedBounded` | bot-owner.js:176 | when every guild reports 0 <= open <= total, closed tickets lie between zero and the ticket total |
| `Stats.TwoGuildTotals` | bot-owner.js:171-177 | for guilds reporting (5 total, 2 open) and (3 total, 1 open), the per-guild totals sum to 8, with 3 open and 5 closed |
| `Ranking.Insert` | bot-owner.js:204 | one insertion step of the stable sort adds exactly the inserted guild |
| `Ranking.SortByMembers` | bot-owner.js:203-204 | the sort returns a permutation of the guilds with non-increasing member counts |
| `Ranking.InsertStable` | bot-owner.js:204 | an inserted guild goes after every guild of its own size, and the other sizes are undisturbed |
| `Ranking.SortStable` | bot-owner.js:204 | for each member count, the guilds of that count keep their input order |
| `Ranking.Rank` | bot-owner.js:203-205 | the result has `min(n, 20)` guilds with non-increasing member counts, is a sub-multiset of the input, and every guild left out has no more members than the last one shown |
| `Ranking.RankStable` | bot-owner.js:203-205 | the shown guilds of each size are the first guilds of that size in input order |
| `Ranking.TieKeepsInputOrder` | bot-owner.js:203-205 | guilds A, B, C with 50, 50 and 10 members are shown as A, B, C |
| `Ranking.Annotate` | bot-owner.js:213-218 | row `i` carries position `i + 1`, the guild's name and member count and its `totalTickets` |
| `BotOwner.Execute` | bot-owner.js:54-229 | a denied caller gets the fixed refusal and nothing changes; per subcommand, the registry and the config collection end as `Add`, `Remove` and `Cascade` say, the collection is written only when some guild was affected and then no guild refers to the id, and the reads return the listing, the totals and the ranked rows |

## Left out

- The discord.js surface is left out: `SlashCommandBuilder` (bot-owner.js:5-52), embeds, colours, timestamps, `reply`/`deferReply`/`editReply` and the message texts. Replies are values of `BotOwner.Reply`.
- `fs.writeFileSync`, `JSON.stringify` and `client.database.readJSON`/`writeJSON` are I/O. The stores are fields of `CategoryRegistry` and `Database`, and each write is counted in a ghost counter. A failing read or write is not modelled.
- `client.database.getTicketStats` and `client.guilds.cache` belong to other subsystems. They are the inputs `statsOf` (a function from guild id to ticket stats) and `Context.guilds`.
- `CategoryId.LowerChar`: models `toLowerCase` only as far as it matters after the filter. It is exact on every character whose lowercase form contains a character of `[a-z0-9_]`: `A`-`Z`, U+0130 and the Kelvin sign are mapped, and `a`-`z`, `0`-`9` and `_` are their own lowercase form. Every other character is kept as is: its real lowercase form has no character of `[a-z0-9_]` either, so the filter removes both alike.
- `Registry.ListingOf`: lists keys in insertion order. JavaScript enumerates integer-like keys (a normalised id such as `42`) first, in ascending numeric order (section 10.1.11.1 of ECMA-262), and this model does not.
- `BotOwner.Execute`: states that a refused call changes no store; it does not model that no store is read.
- Concurrency is not modelled: two cascades can lose an update to the collection. Neither is the window between the registry write (bot-owner.js:119) and the collection write (bot-owner.js:132). Both are interleaving and failure concerns of the host.
- Guild config fields other than `enabledCategories` are one opaque `settings` map. An `enabledCategories` value that is not an array (where `includes` would match substrings of a string) is not modelled.
- Ticket counts are unbounded integers and member counts naturals. JavaScript's floating-point numbers and their 2^53 precision limit are not modelled.
- The cascade walks the guild ids in an arbitrary order rather than `Object.keys` order. Guilds are processed independently, so the result and the count do not depend on the order.
- Subcommand names outside the five registered ones fall through the `switch` with no reply. Discord only sends registered names, so `Command` has just the five.

## Findings

| source | as written | input that shows it | evidently intended | confidence | as-written member | corrected member |
|---|---|---|---|---|---|---|
| bot-owner.js:79, bot-owner.js:108 | `config.ticketCategories[id]` is truthy also for properties inherited from `Object.prototype` | `add-global-category` with id `constructor` on a registry without it is refused as a duplicate; `remove-global-category` with id `toString` passes the not-found check, deletes nothing and still strips `toString` from guild lists | test own keys only (`Object.hasOwn`), and store with `Object.defineProperty` (or use a null-prototype object) so that the id `__proto__`, whose plain assignment at bot-owner.js:86 calls the inherited setter, becomes an own key too | high; not executed | `Registry.InheritedKeysFoundAsWritten` | `Registry.CategoryRegistry.Add`, `Registry.CategoryRegistry.Remove`, `BotOwner.Execute` |
