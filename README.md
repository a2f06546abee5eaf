# League-table commands and engine-renewal rules of OpenTTD, in Dafny

This project models two pieces of OpenTTD's simulation state.

- **League tables** (`LeagueCmd`). A game script, acting as the deity
  owner, builds league tables and their elements through five commands:
  create a table, create an element, update an element's data, update its
  score, and remove it. Each command checks, in order, that the deity
  issued it, that the pool has room, that the payload is sane, that the
  element exists, and that the company and link are valid. It changes the
  pools only when the execute flag is set. After an element command
  executes, the window of the element's table is invalidated.
  `IsValidLink` decides whether a link (kind, target) names a live object.
- **Engine-renewal rules** (`AutoreplaceBase`). A rule records "replace
  engine `from` by `to` for group `group_id`, maybe only when old". Rules
  live in their own pool, indexed by a 16-bit `EngineRenewID` (limit 64000,
  sentinel 0xFFFF). Each rule's `next` pointer chains it to its owner's next
  rule.

Both rest on `Pool`. A pool is a map from slot index to record, bounded by
the maximum population of its id type. `IsValidID` is the map's membership
test and `GetIfValid` its lookup. `CanAllocateItem` compares the population
with the limit. `new` inserts a record at a free index below the limit, and
`delete` removes a key.

The league pools are the class `LeagueCmd.LeagueGame`. Its fields are the
table pool, the element pool and the log of window invalidations. Each
command is a method of that class:

- it returns the command's success or `CMD_ERROR`, and a create also
  returns the new id;
- its contract states the exact condition for success;
- it states the whole new state after an executed success;
- it states that nothing changed otherwise: after a failure, and after
  every run without the execute flag.

The success condition never mentions the execute flag. So a preview and a
commit on the same state always agree; `PreviewThenCommitElement` shows
this for a client of the create-element command.

Four behaviours of the code are easy to expect otherwise, and the model
keeps them as written:

- `CmdCreateLeagueTable` invalidates no window. Only the four element
  commands do.
- `CmdCreateLeagueTableElement` stores the `table` argument without
  checking that the table exists.
- Every failure, including a full pool, is the same `CMD_ERROR`. There is
  no separate "pool exhausted" result.
- The two commands that check both a company and a link do so in
  opposite orders: `CmdCreateLeagueTableElement` checks the link before
  the company, and `CmdUpdateLeagueTableElementData` checks the company
  before the link.
  All failures are the same `CMD_ERROR`, so the order of the checks cannot
  be observed. The contracts state the conjunction of the checks.

## Model

| member | source | states |
|---|---|---|
| `LeagueCmd.IsValidLink` | src/league_cmd.cpp:34-46 | a link of kind none is valid iff its target is 0; any other link is valid iff its kind has a target index (tiles, or the industry, town, company or story page pool) and the target is live in it; the validity check is stated against a separate kind→index dispatch table |
| `LeagueCmd.UnrecognisedLinkInvalid` | src/league_cmd.cpp:43-45 | a link whose kind tag is not recognised is invalid for every target (fail closed) |
| `LeagueCmd.LinkToDestroyedTarget` | src/league_cmd.cpp:34-45 | validity is recomputed from the live pools: after the target of a link is destroyed, the link is invalid, and every link to another object (another kind, or another target of the same kind) keeps its validity |
| `LeagueCmd.IsCompanyOrInvalid` | src/league_cmd.cpp:89 | the `company` argument passes when it is `CompanyID::Invalid()`, and otherwise exactly when it is a company id that a company link could name, i.e. a live company |
| `LeagueCmd.LeagueGame.constructor` | src/league_cmd.cpp:23-27 | the table and element pools start empty with their id limits, and no invalidation has been sent |
| `LeagueCmd.LeagueGame.CreateLeagueTable` | src/league_cmd.cpp:56-68 | succeeds iff the caller is the deity, the table pool can allocate and the title is non-empty, whatever the header and footer are; with execute and success it adds exactly one table holding title, header and footer at a previously free id, returns that id (never the sentinel) and invalidates nothing; otherwise it changes nothing and returns `Invalid` |
| `LeagueCmd.LeagueGame.CreateLeagueTableElement` | src/league_cmd.cpp:83-97 | succeeds iff the caller is the deity, the element pool can allocate, the link is valid and the company is `Invalid` or live; whether the table exists plays no part; with execute and success it stores exactly the given table, rating, company, text, score and link at a new id, returns that id and appends exactly one invalidation, for that table; otherwise nothing changes and the id is `Invalid` |
| `LeagueCmd.LeagueGame.UpdateLeagueTableElementData` | src/league_cmd.cpp:109-125 | succeeds iff the caller is the deity, the element exists, the company is `Invalid` or live and the link is valid; with execute and success only that element's company, text and link change, while its table, rating and score and every other element stay as they were; one invalidation is appended for its table; otherwise nothing changes |
| `LeagueCmd.LeagueGame.UpdateLeagueTableElementScore` | src/league_cmd.cpp:135-147 | succeeds iff the caller is the deity and the element exists; with execute and success only that element's rating and score change, while its table, company, text and link and every other element stay; one invalidation is appended for its table; otherwise nothing changes |
| `LeagueCmd.LeagueGame.RemoveLeagueTableElement` | src/league_cmd.cpp:155-167 | succeeds iff the caller is the deity and the element exists; with execute and success that id is no longer valid, the population drops by exactly one, all other elements are untouched and one invalidation names the removed element's former table; otherwise nothing changes |
| `LeagueCmd.PreviewThenCommitElement` | src/league_cmd.cpp:85-96 | running the create-element command without the execute flag and then with it on the same state gives the same outcome, and the preview returns the `Invalid` id |
| `LeagueCmd.ElementLifecycle` | src/league_cmd.cpp:56-167 | a deity creates a table, adds an element with no link, updates its score and removes it: all four succeed, each element command invalidates that table's window once, and the element pool ends empty |
| `Pool.Pool.CanAllocateItem` | src/league_cmd.cpp:59-63 | on a valid pool the capacity check holds exactly when some index below the id limit is free, so the `new` that follows a passed check cannot fail, and a failed check means every index is taken |
| `Pool.CapacityMeansFreeSlot` | src/league_cmd.cpp:86-92 | pigeonhole: when all live indices lie below the limit, fewer live slots than the limit is the same as a free index below it |
| `Pool.Pool.IsValidID` | src/league_cmd.cpp:112-113 | a live id of a valid pool lies below the limit and is never the sentinel |
| `Pool.Pool.GetIfValid` | src/league_cmd.cpp:138-139 | what the lookup finds in a valid pool sits below the limit, and a lookup of the sentinel finds nothing |
| `Pool.PopulationBounded` | src/autoreplace_base.h:18-25 | a valid pool never holds more items than its id limit, and the sentinel never names a live slot |
| `AutoreplaceBase.EngineRenewPoolBounded` | src/autoreplace_base.h:18-26 | the engine-renew pool holds at most 64000 rules, the sentinel 0xFFFF is at or above the limit and never names a live rule |
| `AutoreplaceBase.DefaultEngineRenew` | src/autoreplace_base.h:34-40 | a default rule has `from`, `to` and `group_id` equal to `Invalid()`, a null `next` and `replace_when_old` false |
| `AutoreplaceBase.NewEngineRenew` | src/autoreplace_base.h:41-42 | the full constructor takes (from, to, group_id, replace_when_old, next), in a different order from the fields, and stores each argument unchanged in the field of the same name |
| `AutoreplaceBase.PrependRule` | src/autoreplace_base.h:36-42 | a rule built by the full constructor with `next` pointing at the head of a chain, stored at a free slot, heads a chain one longer, and walking from it finds that chain |
| `AutoreplaceBase.Walk` | src/autoreplace_base.h:36 | following `next` pointers from a rule yields, when it ends, a chain: distinct live rules, each pointing at the next, the last with a null pointer; it yields nothing on a dangling pointer or a cycle |
| `AutoreplaceBase.WalkFindsChain` | src/autoreplace_base.h:36 | a chain is determined by its head: walking from the first rule of any chain yields exactly that chain |
| `AutoreplaceBase.LastRuleIsChain` | src/autoreplace_base.h:36 | a rule whose `next` is null is by itself a complete chain |

## Left out

- The pool allocator is not part of this model. This covers `pool_func.hpp`, block growth and lowest-free-slot reuse. An allocation picks some free index below the limit. So the model does not claim which id a create returns, for example that the first table gets id 0.
- The engine-renew pool's growth by 16 slots is not modelled. It belongs to the storage behind the pool, which this model leaves out with the allocator.
- Window behaviour is not modelled. `InvalidateWindowData` is an append of (window class, table) to a log.
- `EncodedString` is opaque. Only emptiness is observable.
- `IsValidTile` and the `IsValidID` of the industry, town, company and story page pools are calls into code that is not part of this model. They become sets of live ids in a `World` value that the commands receive as a parameter. No league command changes that value.
- `_current_company` is an explicit parameter of every command.
- `CommandCost` is reduced to success or `CMD_ERROR`. Costs and error messages are not modelled.
- Save/load, the network command queue and concurrency are not modelled.
- The numeric widths of `LinkTargetID`, `CompanyID`, `LeagueTableID` and `LeagueTableElementID` are not modelled. These types are defined in headers that are not part of this model. Ids are unbounded naturals, and each league pool's limit and sentinel are parameters of `LeagueGame`'s constructor.
- `OWNER_DEITY` (0x12) and `CompanyID::Invalid()` (0xFF) are taken from `company_type.h`, which is not part of this model. The model relies only on their being distinct.
- `EngineID::Invalid()` and `GroupID::Invalid()` are taken as 0xFFFF on 16-bit ids. `engine_type.h` and `group_type.h` are not part of this model.
- `LinkType` is an enum backed by a byte. Every tag value other than the six named kinds is one constructor, `LinkUnrecognised`.
- `src/blitter/32bpp_sse2.hpp` (SIMD sprite drawing) is rendering code, not simulation state. It is not modelled.
