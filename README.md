# Factions bank: ledger and horse-race settlement

A Dafny model of the bank back end of a game faction: players (by in-game
name, "ign"), their accounts and the transaction log, and the horse-race
engine built on top of it. A race is created with a start time and an empty
prize pool. Players enrol by paying an entry fee. Part of the fee is kept as
the "imperial cut" and the rest goes into the pool. An operator then names
winners 1 to 3, and each of them is paid that slot's percentage of the pool.
Finally the race is ended, which needs a winner 1. The "active race" is the
highest-id race that has not ended.

The model has four modules:

- `Ledger` (`ledger.dfy`) holds the tables and lookups: players, accounts,
  transactions, the error outcomes with their HTTP status, and Python's
  `x or d` fallback. It also has `ensure_player_account` as a function
  (`Provision`), the invariants it keeps, and the total bank debt.
- `Races` (`races.dfy`) holds the race table and the active-race rule. For
  each write handler it has a pure decision function: `CheckCreateRace`,
  `CheckEnroll`, `CheckSetWinner` and `CheckEndRace`. Each one gives either
  the handler's first error, in the order the handler checks them, or a plan
  of what to write. Next to these are the resulting tables (`NewRace`,
  `EnrolledRaces`, `EntryFeeTxn`, `WinnerRaces`, `PrizeTxn`), the
  slot-search loop of `_set_winner`, the prize arithmetic and the race-info
  view.
- `Bank` (`bank.dfy`) is a class whose fields are the database tables. Its
  methods are the write handlers, step by step:
  - `EnsurePlayerAccount`
  - `CreateRace`
  - `Enroll`
  - `SetWinner`
  - `PostWinner`, which is the winner1/2/3 routes
  - `EndRace`

  Each method proves that on an error it writes nothing. On success the new
  tables are exactly those the decision function's plan describes. The
  reads and checks of `EnsurePlayerAccount`, `Enroll` and `SetWinner` sit in
  three heap-free methods (`ProvisionRows`, `EnrollChecks`,
  `SetWinnerChecks`) that the class methods call. They only split the proof:
  each computes exactly what `Provision`, `CheckEnroll` or `CheckSetWinner`
  computes. Each
  method also keeps the table invariant `TablesValid`, which holds:
  - ids increase;
  - igns are unique;
  - each player has one active account;
  - every row's references exist;
  - there are no duplicate jockeys;
  - winners are jockeys of their race;
  - no player holds two slots;
  - ended races have a winner 1.
- `Api` (`api.dfy`) covers the read handlers of `app.py`:
  - the page `limit` clamps;
  - the premium classification loop, as a method over an array of rows;
  - the player list, ordered by balance descending;
  - the transaction list with `before_balance`, ordered by id descending;
  - the settings view with its defaults and the total bank debt;
  - the race list with its finished/live/scheduled status.

Money is modelled as exact `real` numbers, not binary floating point. Time
stamps are integers, and "now" and "today" are parameters. A database NULL
is `None`. `AUTO_INCREMENT` gives a new row a fresh id greater than every
existing one; the model picks the last id plus one, which is such an id
under the increasing-id invariant.

Some properties worth knowing, all proved:
- Assigning the same winner slot to the same player again is accepted and
  pays the prize a second time, because the pool is never reduced
  (`Races.SameSlotPaysAgain`).
- The settings view shows a stored entry fee of 0 as 0, while enrolment
  charges 100 for it (`Api.ShownFeeIsChargedFee`).
- When the latest race is the active one, the prize preview in race-info
  equals what `_set_winner` pays (`Races.PreviewIsPaid`).

## Model

| member | source | states |
|---|---|---|
| Ledger.HttpStatus | backend/horse_races.py:89-120 | the not-found errors (no active race, no races, unknown player, no active account) are 404, the internal error is 500, every other rejection is 400 |
| Ledger.OrElse | backend/horse_races.py:130-131 | Python `x or d`: a stored non-zero value is used, NULL and 0 both give the fallback |
| Ledger.FindPlayer | backend/app.py:37-38 | finds a player with that ign, and None only when no player has it |
| Ledger.ActiveAccount | backend/app.py:45-46 | finds an active account of that player, and None only when the player has none |
| Ledger.TotalDebt | backend/app.py:243-246 | the sum over active accounts is 0 when there are none, and non-negative when their balances are |
| Ledger.TotalDebtAppend | backend/app.py:243-246 | appending an account adds its balance to the debt if it is active, and nothing otherwise |
| Ledger.FindPlayerAppend | backend/app.py:37-41 | a lookup after inserting a player finds the old match, else the new row when its ign matches |
| Ledger.ActiveAccountAppend | backend/app.py:45-49 | a lookup after inserting an account finds the old active one, else the new row when it is active for that player |
| Ledger.Provision | backend/app.py:36-52 | inserts the player only when the ign is unknown and the account only when there is no active one; afterwards both exist and the returned id is that of the active account |
| Ledger.ProvisionIdempotent | backend/app.py:36-52 | a second call with the same ign inserts nothing and returns the same account id |
| Ledger.ProvisionKeepsDebt | backend/app.py:48 | provisioning never changes the total bank debt |
| Ledger.AppendPlayerKeepsLedgerValid | backend/app.py:39-41 | inserting an unknown ign keeps the ids increasing, the igns unique and the account references valid |
| Ledger.AppendAccountKeepsLedgerValid | backend/app.py:47-49 | inserting an active account for a player without one keeps one active account per player |
| Ledger.ProvisionKeepsLedgerValid | backend/app.py:36-52 | provisioning keeps every ledger invariant |
| Races.Race.WithWinner | backend/horse_races.py:419-423 | sets exactly the given winner slot and leaves the other slots and every other column unchanged |
| Races.NextRaceId | backend/horse_races.py:40-45 | the new race id is greater than every existing id |
| Races.ActiveRaceIndex | backend/horse_races.py:79-86 | the chosen race has not ended and every later (higher-id) race has |
| Races.NoActiveRaceIffAllEnded | backend/horse_races.py:79-89 | there is no active race exactly when every race has ended |
| Races.ActiveRaceHasHighestOpenId | backend/horse_races.py:79-86 | the active race has the highest id among the races that have not ended |
| Races.ActiveRaceIgnoresOtherColumns | backend/horse_races.py:79-86 | which race is active depends only on the `ends_at` column |
| Races.EndedSuffix | backend/horse_races.py:306-313 | races at the end of the table that have all ended do not change which race is active |
| Races.EndingActiveRace | backend/horse_races.py:306-326 | after the active race gets its `ends_at`, the active race is the highest open one below it, if any |
| Races.CheckCreateRace | backend/horse_races.py:25-33 | a missing `starts_at` and an unparseable one are rejected with their own errors; a parsed one is accepted as is |
| Races.NewRace | backend/horse_races.py:24-43 | the new row has a fresh id, the given name or else "Imperial Race " followed by the date, in both name columns, a pool of 0, the start time, no end and no winners |
| Races.NewRaceIsActive | backend/horse_races.py:40-45 | a newly created race is the active race |
| Races.EntryTermsOf | backend/horse_races.py:130-141 | the fee is the stored fee, or 100 when it is NULL or 0; the cut is the fee times the stored percentage (10 when NULL or 0) over 100; cut plus contribution equals the fee |
| Races.ContributionWithinFee | backend/horse_races.py:140-141 | with a non-negative fee and a cut percentage between 0 and 100, the pool contribution is between 0 and the fee |
| Races.CheckEnroll | backend/horse_races.py:69-137 | the errors in the handler's order: empty name, no active race, unknown player, already enrolled, no active account, insufficient balance carrying the required and available amounts; success needs all checks passed and a balance that covers the fee |
| Races.EnrollCheckOrder | backend/horse_races.py:89-130 | once a name is given and a race is open, the first failing check decides the answer: unknown player, then already enrolled, then no active account, then a missing settings row |
| Races.EnrollAcceptsCoveredFee | backend/horse_races.py:134-137 | a player who passes every other check is enrolled exactly when balance >= fee, so an equal balance is accepted; otherwise the error carries the fee and the balance |
| Races.EnrolledRaces | backend/horse_races.py:156-161 | only the active race changes, and only its pool, which grows by exactly the contribution; ids, names, start and end times and winners are kept |
| Races.EntryFeeTxn | backend/horse_races.py:144-147 | one `payout` of the entry fee on the player's active account, with a fresh id and no delta or balance-after |
| Races.EnrollAgainRejected | backend/horse_races.py:103-153 | enrolling the same player again in the same race is rejected as already enrolled |
| Races.OtherSlot | backend/horse_races.py:386-389 | the first slot other than the requested one that the player holds, and None only when they hold no other slot |
| Races.FindOtherSlot | backend/horse_races.py:387-389 | the slot loop returns exactly that first other slot |
| Races.CutsOf | backend/horse_races.py:392-404 | the three cut percentages exist only when the settings row and all three columns exist |
| Races.PrizesWithinPool | backend/horse_races.py:406 | with cuts that are non-negative and sum to at most 100, every prize is non-negative and the three prizes together fit in the pool |
| Races.CheckSetWinner | backend/horse_races.py:353-416 | the errors in the handler's order: no active race, unknown player, not enrolled, already holds another slot (naming it), missing cuts, no active account; success pays pool times that slot's percentage over 100 |
| Races.SetWinnerCheckOrder | backend/horse_races.py:364-416 | once a race is open, the first failing check decides the answer: unknown player, not enrolled, the lowest other slot the player holds, missing cuts, no active account; when all pass, the plan pays that player's active account the slot's prize |
| Races.WinnerRaces | backend/horse_races.py:419-423 | only the active race changes: the requested slot now holds the player, the other two slots, the pool, names and times are unchanged |
| Races.PrizeTxn | backend/horse_races.py:426-429 | one `deposit` of the prize on the winner's active account, with a fresh id and no delta or balance-after |
| Races.SameSlotPaysAgain | backend/horse_races.py:386-429 | after a winner is set, setting the same slot for the same player again succeeds with the same prize |
| Races.OtherSlotRejected | backend/horse_races.py:386-389 | after a winner is set, asking for a different slot for that player is rejected, naming the slot they hold |
| Races.CheckEndRace | backend/horse_races.py:306-319 | no active race and a missing or zero winner 1 are rejected; the race is ended exactly when the active race has a winner 1, and it is the active race that is ended |
| Races.DisplayName | backend/horse_races.py:227 | the race's name, else its `race_name`, else "Unnamed Race" |
| Races.NewRaceDisplayName | backend/horse_races.py:24-43 | a created race is shown with the name it was given, or "Imperial Race " and its date |
| Races.JockeyNames | backend/horse_races.py:243-250 | every name listed is the ign of a player with a jockey row in the race, every such row's player is listed, and there are at most as many names as rows |
| Races.JockeyNamesAppend | backend/horse_races.py:243-250 | names come in joining order: a new jockey row adds its player's ign at the end |
| Races.JockeyNamesComplete | backend/horse_races.py:230-250 | when every jockey's player exists, there is one name per jockey row |
| Races.WinnerName | backend/horse_races.py:253-260 | a slot shows a name exactly when it is set (not NULL, not 0) and its player exists, and that name is the player's ign |
| Races.RaceInfo | backend/horse_races.py:226-287 | no race gives "no races found"; missing cuts give an internal error; otherwise the highest-id race with its display name, pool, times, jockey count, jockey names, winner names, and the three prizes as pool times cut over 100 |
| Races.PreviewIsPaid | backend/horse_races.py:263-285 | when the active race is the latest race, the race-info preview for a slot equals the prize `_set_winner` pays for it |
| Bank.AppendTxnKeepsTxnsValid | backend/horse_races.py:426-429 | appending a transaction with a fresh id on an existing account keeps the transaction invariants |
| Bank.ProvisionKeepsTablesValid | backend/app.py:36-52 | provisioning keeps every table invariant |
| Bank.CreateKeepsTablesValid | backend/horse_races.py:40-43 | creating a race keeps every table invariant |
| Bank.EnrollKeepsRaceTables | backend/horse_races.py:150-161 | a fresh jockey row and a pool change keep jockeys pointing at existing races and players, without duplicates, and keep the winner invariants |
| Bank.EnrollKeepsTablesValid | backend/horse_races.py:144-161 | a successful enrolment keeps every table invariant, with no duplicate jockey row |
| Bank.SetWinnerKeepsTablesValid | backend/horse_races.py:419-429 | setting a winner keeps every winner a jockey of the race, and no player in two slots |
| Bank.EndKeepsTablesValid | backend/horse_races.py:318-326 | ending a race keeps every ended race with a winner 1 |
| Bank.Bank.EnsurePlayerAccount | backend/app.py:36-52 | the new players and accounts and the returned id are those of `Provision`; the debt and the other tables are unchanged |
| Bank.Bank.CreateRace | backend/horse_races.py:20-55 | an invalid start time changes nothing; otherwise exactly one new race is appended, it becomes active, and the reply names its id, name and start |
| Bank.Bank.Enroll | backend/horse_races.py:65-174 | on any error nothing changes; on success exactly one entry-fee payout, one jockey row and the pool increase are written, and the reply carries the fee, new pool and cut |
| Bank.Bank.SetWinner | backend/horse_races.py:345-441 | on any error nothing changes; on success the slot is set, one prize deposit is appended, and nothing else changes |
| Bank.Bank.PostWinner | backend/horse_races.py:183-216 | an empty name is rejected before `_set_winner` runs; otherwise it behaves as `_set_winner` |
| Bank.Bank.EndRace | backend/horse_races.py:297-336 | on error nothing changes; on success only the active race gets its end time, and it is no longer active |
| Api.EffectiveLimit | backend/app.py:281 | the limit is the requested or default value, capped at the maximum |
| Api.ListLimit | backend/app.py:60 | the player and transaction limits default to 200, and a requested limit is used as is up to 1000 and capped at 1000 above it |
| Api.HistoryLimit | backend/app.py:281 | the interest-history limit defaults to 1000, and a requested limit is used as is up to 5000 and capped at 5000 above it |
| Api.Page | backend/app.py:97-98 | a negative limit or offset is an error; otherwise the rows from offset on, at most limit of them, in order |
| Api.OrZero | backend/app.py:252-265 | `float(x or 0)`: the value when present, 0 for NULL |
| Api.SettingsResponse | backend/app.py:207-266 | with no row the documented defaults are shown (0.07, 0.05, 0.06, 1000000000; 50, 30, 20, 100, 10, "No rules set"); with a row each column is shown with NULL as 0; the debt is the active-account total |
| Api.ShownFeeIsChargedFee | backend/horse_races.py:130 | the entry fee the settings view shows equals the one enrolment charges exactly when a non-zero fee is stored |
| Api.Classify | backend/app.py:106-115 | premium exactly when balance >= the requirement (NULL as 0); the rate is the premium rate when premium and the normal rate otherwise; a NULL chosen rate is an error |
| Api.PremiumIsMonotone | backend/app.py:109 | a higher balance never loses premium status |
| Api.DefaultTiers | backend/app.py:76-115 | with no settings row, a balance of at least 1000000000 is premium at 0.06 and any other balance is normal at 0.05 |
| Api.AnnotatePlayers | backend/app.py:106-118 | the loop succeeds exactly when every row's rate is present, and then each row carries its classification |
| Api.AnnotateAll | backend/app.py:106-118 | classifies every row, and fails exactly when some row's rate is NULL |
| Api.ActivePlayerRows | backend/app.py:85-90 | every row is a player joined with an active account holding that balance |
| Api.ActivePlayerRowsAppend | backend/app.py:85-90 | exactly one row per active account whose player exists, in table order: a new account adds its own row, if any, after the others |
| Api.ActivePlayerRowsComplete | backend/app.py:85-90 | every active account whose player exists gives a row with that player's ign and balance |
| Api.OrderedListingComplete | backend/app.py:85-97 | ordering by balance keeps every such row |
| Api.InsertByBalance | backend/app.py:97 | inserting into a list sorted by balance descending keeps it sorted and is a permutation |
| Api.ConsKeepsSorted | backend/app.py:97 | a row no smaller than the head of a sorted list can go in front of it |
| Api.SortByBalanceDesc | backend/app.py:97 | the rows sorted by balance descending, as a permutation of the input |
| Api.PageRowsFromListing | backend/app.py:97-98 | every row of a page comes from the full listing |
| Api.PageKeepsOrder | backend/app.py:97-98 | a page of a list sorted by balance is sorted too |
| Api.PlayersListed | backend/app.py:57-126 | at most 1000 rows, sorted by balance descending, each an active holding, premium exactly when it reaches the requirement, and paid the premium or normal rate accordingly |
| Api.ClassifyPage | backend/app.py:106-118 | copying the page into an array and running the loop gives exactly the page's classification |
| Api.ListPlayers | backend/app.py:57-126 | the handler's loop over the fetched page produces exactly the specified player listing |
| Api.ViewTxn | backend/app.py:173-184 | a transaction row keeps its id, account, type, note and `fee_pct`, and shows the amount and the stored `effective_delta` and `balance_after`, NULL read as 0 |
| Api.BeforeBalanceDerivation | backend/app.py:159-182 | `before_balance` is the stored `balance_after - effective_delta` when both are present, so before plus delta is after; when either is NULL it reads as 0 |
| Api.TxnRowsDesc | backend/app.py:158-166 | every row is a transaction whose account and player exist, shown with its owner's ign, and there are no more rows than transactions |
| Api.TxnRowsAppend | backend/app.py:158-166 | exactly one row per transaction whose account and player exist: a new transaction adds its own row, if any, at the head and leaves the rest unchanged |
| Api.ConsKeepsDecreasing | backend/app.py:164 | putting a higher id in front of an id-descending list keeps it descending |
| Api.TxnRowsDescending | backend/app.py:164 | transactions are listed by id descending |
| Api.TxnRowsComplete | backend/app.py:161-163 | every transaction whose account and player exist is listed |
| Api.PageKeepsIdOrder | backend/app.py:164-165 | a page of an id-descending list is id-descending |
| Api.ListTransactions | backend/app.py:135-190 | a negative limit or offset is an error; otherwise at most 1000 rows, all real transactions, ids strictly descending |
| Api.StatusAt | backend/app.py:334-338 | finished exactly when ended by now; otherwise live exactly when started by now; otherwise scheduled |
| Api.StatusOnlyAdvances | backend/app.py:334-338 | as time passes a race's status only moves from scheduled to live to finished |
| Api.OpenRaceNotFinished | backend/app.py:334-338 | a race with no end time is never finished, and is live exactly when it has started |
| Api.ListRaces | backend/app.py:330-342 | one row per race, in reverse table order |
| Api.RaceListOrder | backend/app.py:341 | races are listed by id descending, and the first row is the race race-info shows |

## Left out

- HTTP plumbing is not modelled: Flask routing, JSON request and response shaping, CORS, the health and debug endpoints, logging, and the API-key check.
- Database connections, cursors and commit mechanics are not modelled. Each handler's net effect is modelled instead: writes happen on success and nothing is written on error.
- The SQL `LIKE '%q%'` filters of the player and transaction lists are not modelled. They depend on MySQL collation, so only the unfiltered listings are modelled.
- ISO 8601 parsing of `starts_at` is a library call. The model takes its outcome as input (`StartsAtInput`: missing, unparseable or parsed).
- Binary floating point and the rounding of `float()` are not modelled. Money is exact `real`.
- The change to an account balance from an entry fee or a prize is not modelled. It is done by database code these files do not contain, and both transactions are inserted without `effective_delta` and `balance_after`. In the model, enrolment and winner assignment leave the accounts table unchanged and only append the transaction.
- Concurrency between simultaneous requests is not modelled. Each handler runs alone.
- The interest-history rows are not modelled, only the limit clamp. They are a plain read of a table that nothing here writes.
- The conversion of timestamps to ISO strings is not modelled. Timestamps are integers and "now" and "today" are parameters.
- Races.NewRace: a JSON `null` name is not modelled. A missing name takes the default; a `null` would be stored as NULL.
- Schema defaults that the files do not show are assumed: a new account is `active` with balance 0, and an enrolment's `joined_at` follows insertion order.
- A NULL account balance is not modelled. Balances are always present.
- Ledger.FindPlayer: `WHERE ign=%s` compares under the table's MySQL collation, which is usually case-insensitive (app.py:37, horse_races.py:94, horse_races.py:369); the model compares igns exactly, so "Bob" and "bob" are different players here.
- Races.Race: the prize pool is a non-NULL real. The source reads a NULL pool as 0 in race-info and `_set_winner` (horse_races.py:269, horse_races.py:398) but fails on it in enrolment (`float(None)` at horse_races.py:156); the model has no NULL pool.
- Api.SortByBalanceDesc: the order of rows with equal balances is left open, as `ORDER BY balance DESC` leaves it.
- Api.ListPlayers: the timestamp conversion in the loop is left out.
- The React frontend is not modelled.
