# Raid loot bot: roll sessions and win accounting

A Dafny model of the loot-rolling core of `raidbot.py`, a Discord bot that
runs item rolls during a raid. The model covers four things:

- **The store.** The three sqlite tables (`raids`, `items`, `rolls`) become
  sequences of records. The process globals (`current_raid_id`,
  `roll_sessions`) live beside them in one `Bot` object.
- **Claims.** A `RollSession` object holds an item's claim dictionaries:
  `priority_rolls` and `standard_rolls`, each mapping a user id to a display
  name. It also holds the winner options offered after the roll closes.
- **Rolling an item.** Players press Priority Roll, Standard Roll or Leave.
  When the timer expires, `end_roll` fetches the claims, gives each one its
  owner's win count, ranks them, and writes the head of the ranking as the
  default winner.
- **Override.** The initiator may pick another winner. The ranking is then
  shown again, and the chosen user's own new win is not counted in their
  total.

Modules, one per file:

- `StableSort` (`sorting.dfy`): a stable insertion sort keyed by
  lexicographic integer triples. It proves the sort orders its result, that
  the result is a permutation of the input, that equal keys keep their input
  order, and that these three facts fix the result uniquely.
- `Tables` (`tables.dfy`): the rows, and the SQL helpers as pure functions.
  These are `fetch_rolls`, `count_wins`, `has_priority_win`,
  `fetch_item_name`, the winner `UPDATE` and the leave `DELETE`.
- `Ranking` (`ranking.dfy`): the enrichment loop and the ranking sort that
  `end_roll` and `WinnerSelect.callback` share.
- `RaidBot` (`bot.dfy`): the class `Bot` (the tables and the globals) and
  the class `RollSession`. Their methods update state in place, as the
  source does.

The invariant `RollSession.Tracks` ties a session's dictionaries to the
rolls table:

- every roll row of the item belongs to a user in the dictionary of its type;
- every user in a dictionary has exactly one roll row on the item;
- the two dictionaries never share a user.

`HandleRoll` preserves this invariant on every branch. It also preserves
the invariant of every other registered session on another item, since
several item rolls may be open at once (`OtherItemInsertKeepsClaims`,
`OtherItemDeleteKeepsClaims`). `RollItem` keeps the invariant of the
sessions already registered. `OneRollPerUser` draws its consequence: a
tracked item never holds two rolls of the same user.

## Where the code departs from its comments

The model follows the code as written.

- **Ranking key.** Both sorts use the key `(roll_type == 'Standard',
  win_count, -random_roll_value)`. The only stored types are the strings
  `'priority_roll'` and `'standard_roll'`, so the first component is always
  false (`StandardFlagNeverSet`). The roll type therefore plays no part in
  the rank (`RankIgnoresType`). The effective order is:
  - fewer wins first;
  - then the higher value;
  - then fetch order, because Python's sort is stable.
- **Priority first.** The comment above the `end_roll` sort promises
  priority rolls first. `IntendedKey` states that order.
  `CloakRankedByValueNotTier` gives a two-roll example where the two orders
  pick different heads.
- **Fetch order.** `ORDER BY roll_type DESC` compares the stored texts.
  `'standard_roll'` sorts after `'priority_roll'` in text order, so standard
  rolls come first in the fetch (`FetchOrder`, `CloakFetchOrder`).
- **Downgrade branch.** A priority claim by a user who already holds a
  priority win in the raid only changes the reply text. `roll_type` is
  rewritten to `'standard_roll'`, but nothing is inserted and neither
  dictionary changes.
- **Uncontested wins.**
  - `count_wins` counts only items with `contested = 1`, so a sole
    claimant's win never counts (`UncontestedWinNotCounted`).
  - `has_priority_win` has no such filter, so such a win still triggers the
    downgrade (`UncontestedPriorityWinStillDowngrades`).
- **Overrides after a raid ends.** The override view reads the current raid
  when the override is made, not the item's raid. After `/endraid` there is
  no current raid, every count is 0, and the chosen user is shown with -1
  wins (`ChosenShownWinsWithoutRaid`, `OverrideAfterRaidEndShowsMinusOne`).
  Once a later raid has started, the item's own win is not counted either:
  the chosen user is shown with their count in the new raid minus one, which
  is -1 when they have no counted win of that type there
  (`OverrideInLaterRaidCountsThatRaid` gives a case where it is 0). The
  count is never negative for an override made while the item's raid is
  current (`ChosenShownWinsNonNegative`).

## Model

| member | source | states |
|---|---|---|
| StableSort.SortSorted | raidbot.py:318-319 | the sort used for the ranking returns its input ordered by the key |
| StableSort.SortStable | raidbot.py:318-319 | elements with equal keys keep their input order, as Python's stable `list.sort` promises |
| StableSort.SortedUnique | raidbot.py:318-319 | two sequences that are both ordered and have the same equal-key classes are identical, so a stable sort has exactly one result |
| Tables.FetchRolls | raidbot.py:171-180 | `fetch_rolls` returns exactly the item's non-cancelled rows (as a multiset), ordered by type text and then value, both descending, with ties in table order |
| Tables.FetchOrder | raidbot.py:178 | in the fetch result, standard rolls precede priority rolls, and within a type the values do not increase |
| Tables.TypeRankFollowsText | raidbot.py:178 | the numeric rank used for `roll_type DESC` agrees, in both directions, with the text order of `'priority_roll'` and `'standard_roll'` |
| Tables.SelectKeepsItemRows | raidbot.py:177 | the `'cancelled'` filter drops nothing: a row is fetched if and only if it is a roll on the item |
| Tables.FetchedValuesInRange | raidbot.py:153-158 | every fetched value lies in 1..10000 when every stored value does |
| Tables.CountWins | raidbot.py:192-207 | `count_wins` is between 0 and the number of items |
| Tables.CountWinsIsDistinctItems | raidbot.py:196-205 | with unique item ids, the count equals the number of distinct item ids that are in the raid, won by the user, contested, and carry the user's roll of that type |
| Tables.CountWinsWithoutRaid | raidbot.py:200-205 | with no current raid, `items.raid_id = NULL` matches nothing, so every count is 0 |
| Tables.HasPriorityWin | raidbot.py:209-219 | `has_priority_win`: the join of items and rolls on the item id, requiring the item in the raid, won by the user, with the user's `'priority_roll'` on it, and no `contested` filter; with no current raid (NULL) nothing matches, and a win needs a stored roll |
| Tables.PriorityCountImpliesPriorityWin | raidbot.py:209-219 | a counted priority win makes `has_priority_win` true |
| Tables.UncontestedPriorityWinStillDowngrades | raidbot.py:209-219 | an uncontested priority win is not counted by `count_wins`, yet `has_priority_win` holds |
| Tables.UncontestedWinNotCounted | raidbot.py:200-204 | writing a winner with `contested = 0` on an unresolved item changes no one's win count |
| Tables.ContestedWinCounted | raidbot.py:94 | writing a user as the contested winner of a raid item on which they hold a roll of type t makes their count for t at least 1 |
| Tables.WithWinnerKeepsName | raidbot.py:99 | updating the winner leaves `fetch_item_name` unchanged |
| Tables.DeleteUserRolls | raidbot.py:259-262 | no row of the user on the item remains, and every other row keeps its multiplicity |
| Tables.UserRowCountDelete | raidbot.py:259-262 | the delete leaves every other user's number of rows on the item unchanged |
| Tables.UserRowCountDeleteOtherItem | raidbot.py:259-262 | the delete leaves every user's number of rows on any other item unchanged |
| Tables.UserRowCountAppend | raidbot.py:156-158 | an insert adds one row to its own user's count on its item and none to any other |
| Tables.FetchItemName | raidbot.py:182-190 | `None` exactly when no item has the id; otherwise the name of an item with that id |
| Ranking.StandardFlagNeverSet | raidbot.py:319 | the `== 'Standard'` component of the ranking key is false for both stored types |
| Ranking.RankIgnoresType | raidbot.py:319 | the ranking key depends only on the win count and the value, never on the roll type |
| Ranking.RankRolls | raidbot.py:305-319 | the enrichment loop and sort give a permutation of the annotated fetch, ordered by the key, with equal keys in fetch order |
| Ranking.RankingUnique | raidbot.py:319 | a list of claims has exactly one ranking |
| Ranking.RankingOrder | raidbot.py:318-319 | for every pair in the ranking, the earlier entry has fewer wins, or the same wins and a value at least as high |
| Ranking.HeadRanksFirst | raidbot.py:334-336 | the default winner has the fewest wins of all claimants, and the highest value among those with as few |
| Ranking.ChosenShownWinsNonNegative | raidbot.py:108-115 | for an override made while the item's raid is the current raid, the chosen user's new win counts, so their shown total, `count_wins - 1`, is at least 0 |
| Ranking.ChosenShownWinsWithoutRaid | raidbot.py:108-115 | for an override made with no current raid, the chosen user's shown total is -1 |
| Ranking.OverrideInLaterRaidCountsThatRaid | raidbot.py:108-115 | an override made while a later raid is current shows the chosen user's count in that raid minus one, here 0 |
| Ranking.OverrideAfterRaidEndShowsMinusOne | raidbot.py:108-115 | a two-claim item whose raid has ended, overridden to one claimant, shows that claimant with -1 wins |
| Ranking.CloakFetchOrder | raidbot.py:178 | a standard roll of 9000 is fetched before a priority roll of 500 |
| Ranking.CloakAnnotated | raidbot.py:305-316 | with no items won, both rolls in that example are shown with 0 wins, in fetch order |
| Ranking.CloakRankedByValueNotTier | raidbot.py:318-319 | in that example the code ranks the standard roll first, while the commented priority-first order would rank the priority roll first |
| RaidBot.RollName | raidbot.py:243-248 | `get_roll_name`: the dictionary lookup of the two stored types, falling back to the key itself; the result equals the key exactly when the key is neither stored type |
| RaidBot.RollNameMatchesButtons | raidbot.py:243-248 | each stored type is named like its button; any other key, such as `leave`, is returned unchanged |
| RaidBot.Bot.CreateRaid | raidbot.py:54-58 | appends an active raid with the next id and returns that id; the store invariant holds |
| RaidBot.Bot.StartNewRaid | raidbot.py:60-64 | creates a raid and makes it the current one |
| RaidBot.Bot.StartRaid | raidbot.py:351-359 | refused with no change while a raid is active; otherwise starts a raid and makes it current |
| RaidBot.Bot.EndRaid | raidbot.py:374-388 | refused when no raid is active; otherwise marks the current raid ended at `now` and clears the current raid |
| RaidBot.Bot.CreateItem | raidbot.py:66-73 | appends an item with the next id, no winner and `contested = 1`, and returns its id |
| RaidBot.Bot.InsertRoll | raidbot.py:152-159 | appends exactly one roll row with the given item, user, type and value |
| RaidBot.Bot.UpdateWinner | raidbot.py:161-169 | sets the winner and contested flag of the item rows with that id; the store invariant holds |
| RaidBot.Bot.DeleteRolls | raidbot.py:257-263 | the rolls table becomes the leave delete of the old one; the store invariant holds |
| RaidBot.OtherItemInsertKeepsClaims | raidbot.py:274-280 | a roll inserted for another item keeps an item's claim dictionaries in agreement with the rolls table |
| RaidBot.OtherItemDeleteKeepsClaims | raidbot.py:255-265 | a leave on another item keeps an item's claim dictionaries in agreement with the rolls table |
| RaidBot.Bot.EnsureRaid | raidbot.py:363-365 | starts a raid, taking the next raid id, exactly when none is active; otherwise raids, ids and current raid are unchanged; afterwards one is active |
| RaidBot.Bot.RollItem | raidbot.py:361-372 | auto-starts a raid if needed, creates the item with the next item id in the current raid, and registers a fresh empty session for it under the interaction id; the new session and every session already registered track the store, the older ones on older items |
| RaidBot.RollSession.OneRollPerUser | raidbot.py:274-282 | on a tracked item a user has at most one roll, and has one exactly when they are in a claim dictionary |
| RaidBot.RollSession.HandleRoll | raidbot.py:250-285 | leave deletes the user's rows and pops them from both dictionaries; a demoted priority claim changes nothing but the reply; a repeated claim changes nothing; a first claim appends one roll and adds the user to the matching dictionary; tracking is preserved, for this session and for every registered session on another item |
| RaidBot.RollSession.LeaveRoll | raidbot.py:255-266 | the leave branch: rows deleted, user popped from both dictionaries, tracking preserved |
| RaidBot.RollSession.SubmitRoll | raidbot.py:274-280 | the insert branch: one roll appended, user added to the dictionary of its type, tracking preserved |
| RaidBot.RollSession.LeaveKeepsTracking | raidbot.py:259-265 | deleting a user's rows and popping them from both dictionaries keeps the session consistent with the table |
| RaidBot.RollSession.ClaimKeepsTracking | raidbot.py:275-280 | appending a new user's roll and adding them to the dictionary of its type keeps the session consistent with the table |
| RaidBot.RollSession.EndRoll | raidbot.py:297-336 | contested is false exactly when one roll was fetched; the result is the ranking of the annotated fetch; the options are the ranked users; the item is written only when someone claimed, with the head as winner; a sole claimant's win changes no win count |
| RaidBot.RollSession.OverrideWinner | raidbot.py:88-147 | a non-initiator is refused and no item changes; otherwise the chosen user is written with `contested = 1`, and the item name and the ranking are returned with the chosen user's count reduced by one |

## Left out

- Discord transport is not modelled. This covers buttons, views, the select
  menu, `ctx.respond`, message edits and ephemeral replies. Replies are a
  `Response` datatype without their text, and the bolding of the winner is
  not modelled.
- Display names come from Discord member lookups. They are opaque inputs: a
  `displayName` parameter, or a `nameOf` function for `end_roll`. An
  override takes the chosen name as the parameter `chosenName`.
- The asyncio timer (`start` sleeps, then calls `end_roll`) and the
  interleaving of callbacks are not modelled. Each callback is one atomic
  step, except the override.
- RaidBot.RollSession.OverrideWinner: it joins two callbacks into one step.
  `SelectWinnerButton.callback` checks the initiator and sends the select
  menu in an ephemeral reply. `WinnerSelect.callback` then writes the winner
  without any check of its own, relying on only the initiator seeing that
  menu. The model does not capture a press of the menu separated from the
  check, nor other callbacks run between the two.
- `random.randint` is not modelled. The value is a parameter in 1..10000.
  The clock readings for raid start and end are an opaque `now` parameter.
- sqlite connection handling and column type affinity are left out. The
  select menu hands over the user id as text, and the model uses integer ids
  throughout.
- Each roll row's own AUTOINCREMENT id is never read, so it is left out.
- Several `RollSession` fields are never read by the modelled logic:
  `classes`, `ctx`, `time`, `message`, `combined_rolls` and
  `selected_winner_id`.
- `roll_sessions` only ever grows; no eviction exists to model.
- `initializedb.py` (the schema only) and `dbread.py` (it prints tables) are
  not part of this model. Nor are `on_ready`, `bot.run` and the token.
- StableSort.SortSorted: Python's `list.sort` is an in-place Timsort. The
  model sorts values with a stable insertion sort. The result is the same
  one (`SortedUnique`), but the update in place is not modelled.
- Tables.FetchRolls: sqlite does not fix the order of rows whose type and
  value are equal. The model keeps such rows in table order, so it is one
  of the orders sqlite may return.
- Tables.DeleteUserRolls: the contract states which rows remain, counted as
  a multiset. It does not state that the kept rows keep their table order,
  although the definition keeps it.
- RaidBot.RollSession.EndRoll: the options are the ranked user ids. Their
  labels (display names) are not modelled.
- RaidBot.RollSession.OverrideWinner: the select menu lets the initiator
  pick only among the offered options. The model accepts any chosen user
  id, as the callback itself does not check.
