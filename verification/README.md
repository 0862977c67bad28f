# Coin ledger of the coin-bank Discord bot, in Dafny

The bot keeps a per-guild virtual currency. Its only real logic sits in the
`interactionCreate` handler of `index.js`. A slash command arrives with a
name, a caller, a guild and some options. The handler reads the `coin_balances`
row of one (guild, user) key, computes a new balance, upserts it and appends
one row to `transactions`. Then it sends one ephemeral reply.

This project models that handler as a pure step function over an in-memory
ledger:

- `Ledger` (ledger.dfy) holds the two tables. `coin_balances` is a
  `map<Key, int>` keyed by (guild, user); a missing row reads as 0.
  `transactions` is an append-only `seq<Entry>`. It also defines the upsert+insert
  write pair (`Commit`) and the "newest five entries of a key" query (`Recent`).
  `Recent` is proved equal to a reference definition: all entries of the key,
  reversed, cut to five.
- `Bot` (bot.dfy) is the dispatch. `Step(admins, state, invocation)` returns
  the new state and the reply. Dispatch is on the command name string, so
  an unknown name gets the "Unknown command" reply. A required option that is
  missing (`getUser`/`getInteger` with `required = true` throw) gets the
  generic failure reply of the handler's catch block. The admin check comes
  before the options are read, as in the source. `Run` applies a sequence of
  invocations one at a time.
- `Properties` (properties.dfy) holds the read, denial, arithmetic and frame
  facts, plus the ledger invariants. Starting from an empty store, after
  any run of commands every balance is at least the sum of its log entries. A command keeps balances exactly equal to their
  log sums if and only if it is not a `removecoins` whose floor at 0 clamps.
- `Findings` (findings.dfy) covers the unchecked sign of `amount`. It holds
  counterexamples for the code as written, and a corrected handler with its
  guarantees proved.

The admin list is a `set<UserId>` parameter. The datastore is the immutable
`State` value, and its writes always succeed.

Three behaviours of this `index.js` are easy to miss:
- `removecoins` floors the new balance at 0 rather than refusing an amount
  larger than the balance (index.js:75).
- There is no `clearbuyers` handler in this version of `index.js`, so
  that name gets the "Unknown command" reply like any other unhandled name.
- The amount is never required to be positive (index.js:64, 85;
  register-commands.js:19, 36).

## Model

| member | source | states |
|---|---|---|
| Ledger.Commit | index.js:77-78 | the upsert sets the key's balance to the new value, and no other key's balance changes; exactly one entry for that key is appended, and the existing log stays as its prefix |
| Ledger.EntriesFor | index.js:108-112 | the rows the `user_id`/`guild_id` filter selects are all for the requested key and all come from the log |
| Ledger.EntriesForComplete | index.js:108-112 | the filter is complete: every row of the requested key is selected, as many times as it occurs, and no row of another key is |
| Ledger.Recent | index.js:108-114 | the limited query returns at most `n` entries, all for the requested key, all from the log |
| Ledger.RecentIsNewestFirst | index.js:108-114 | the query result is exactly the key's entries in descending insertion order, cut to `n` |
| Bot.AdminAdjust | index.js:60-81 | a non-admin is denied with nothing written. For an admin, `addcoins` sets the target to `current + amount` and `removecoins` sets it to `max(current - amount, 0)`. One `+amount` / `-amount` entry is logged for (guild, target), and other keys are unchanged |
| Bot.UseCoins | index.js:84-104 | when `current < amount` the spend is refused and nothing changes. Otherwise the caller's balance becomes `current - amount`, which is ≥ 0, one `-amount` entry is logged, and other keys are unchanged |
| Bot.ListHistory | index.js:107-130 | a listing never writes. It is "nothing found" exactly when the key has no entries; otherwise it holds exactly the key's entries newest first, cut to five |
| Bot.Step | index.js:37-177 | every command writes at most the one key it addresses (the target for add/remove, the caller for use) and appends at most one entry, for that key. Read-only commands leave the state as it was. A non-admin calling an admin command is denied with nothing written |
| Properties.BalanceReadsStoredOrZero | index.js:47-57 | `balance` replies with the stored value or 0 when there is no row, and leaves balances and log untouched (no row is created) |
| Properties.BalanceIsIdempotent | index.js:47-57 | asking for the balance twice with nothing in between gives the same reply and state |
| Properties.CheckCoinsReadsTarget | index.js:133-146 | admin `checkcoins` replies with the target's stored value or 0 and writes nothing |
| Properties.NonAdminIsDenied | index.js:60-150 | a non-admin caller of `addcoins`/`removecoins` gets the "no permission" denial, and one of `checkcoins`/`usertransactions` gets "admins only". This holds whatever options were passed, and the state is unchanged |
| Properties.RemoveCoinsLogsFullAmount | index.js:74-78 | when the floor clamps, the balance becomes 0, yet the logged amount is `-amount`, below the actual change |
| Properties.RecordedReason | index.js:65-86 | a non-empty reason is recorded as given. An absent or empty one is recorded as `"<command> by admin"` for admin commands and `"used by user"` for `usecoins` |
| Properties.StateChangesIffAccepted | index.js:60-104 | the ledger changes if and only if a mutating command passes its admin, option and funds checks, and then the log grows by exactly one entry |
| Properties.ListingIsNewestFive | index.js:107-161 | `transactions` and admin `usertransactions` reply with the key's entries newest first, cut to five, or "nothing found" when the key has none |
| Properties.NewestEntryListedFirst | index.js:107-114 | right after a write, the affected user's own listing starts with the entry just written |
| Properties.StepKeepsBalanceCoversLog | index.js:74-101 | no command makes a balance fall below the sum of its logged amounts |
| Properties.StepKeepsLogMatchIffNoClamp | index.js:74-78 | when balances equal their log sums, a command keeps them equal if and only if it is not a clamping `removecoins` |
| Properties.RunKeepsBalanceCoversLog | index.js:37-177 | over any sequence of commands, balances stay at or above their log sums, and the earlier log is kept as a prefix |
| Properties.RunFromEmptyCoversLog | index.js:37-177 | starting from an empty store, after any sequence of commands every balance is at least the sum of its logged amounts |
| Properties.Scenario | index.js:47-103 | a fresh user reads 0. After admin `addcoins 100`, then `usecoins 30`, the balance is 70 and the log holds `+100`, `-30`. `usecoins 1000` is refused, and so is a non-admin `addcoins`; neither changes anything |
| Findings.UseCoinsNegativeAmountCredits | index.js:95-101 | as written, `usecoins` with a negative amount raises the caller's own balance and logs a positive entry |
| Findings.UseCoinsMintsFromNothing | index.js:85-103 | as written, a non-admin with no coins who runs `usecoins -100` ends with 100 coins |
| Findings.AddCoinsCanStoreNegative | index.js:64-78 | as written, admin `addcoins -5` on a fresh user stores a balance of -5 |
| Findings.StepKeepsNonNegativeIffNoNegativeCredit | index.js:74-101 | as written, from non-negative balances a command keeps them non-negative if and only if it is not an admin `addcoins` that takes its target below 0 |
| Findings.SafeStep | register-commands.js:17-37 | corrected handler: an amount below 1 is refused with nothing written. Every key other than the one addressed keeps its balance |
| Findings.SafeStepKeepsNonNegative | index.js:74-101 | corrected: no command makes a stored balance negative |
| Findings.SafeStepNonAdminNeverCredits | index.js:84-101 | corrected: a non-admin can never raise any balance, their own included |
| Findings.SafeRunKeepsNonNegative | index.js:37-177 | corrected: starting from an empty store, no sequence of commands ever stores a negative balance |

## Findings

| source | as written | input that shows it | evidently intended | confidence | as-written member | corrected member |
|---|---|---|---|---|---|---|
| index.js:85-101 | the `usecoins` amount is an integer with no lower bound, and the funds check `current < amount` lets every negative amount through | a non-admin with 0 coins runs `/usecoins amount:-100`; the balance becomes 100 | spending never raises a balance; amounts below 1 are refused | high, not executed | Findings.UseCoinsMintsFromNothing | Findings.SafeStepNonAdminNeverCredits |
| index.js:64-78 | the `addcoins` amount has no lower bound, so a credit can be negative | admin `/addcoins amount:-5` on a user with no row; the stored balance becomes -5 | balances stay ≥ 0; amounts below 1 are refused | high, not executed | Findings.AddCoinsCanStoreNegative | Findings.SafeRunKeepsNonNegative |

The faithful model of the code is `Bot.Step`, and the `Properties` lemmas are
about it. `Findings.SafeStep` is the corrected handler. It refuses amounts
below 1 and otherwise behaves as `Bot.Step`. The non-negativity and no-minting
guarantees are proved about it.

## Left out

- Non-slash-command interactions (index.js:38) are dropped before dispatch without a reply; the model only takes slash-command invocations.
- Store failures: a failing balance read reads as 0 (index.js:55, 74, 95, 144), and write errors are ignored (index.js:77-78, 100-101). Here the store never fails, so a partial write (balance updated, log append lost) is not modelled.
- Other exceptions: the catch block's generic reply (index.js:178-183) is modelled only for missing required options. Other exceptions come from foreign calls.
- The `transactions` listing also shows "nothing found" on a query error (index.js:116); the model's query never errs.
- Insertion timestamps: newest first is the order of appending to the log. Two rows with equal `inserted_at` could come back in either order from the store.
- Reply text, embed titles, colours, emoji and relative timestamps (index.js:56, 80, 103, 118-128, 163-173) are presentation. Replies are structured values.
- `deferReply` (index.js:44) only affects Discord's response timing.
- Environment loading and process exit (index.js:12-27) are configuration plumbing. The admin list is a set parameter rather than the comma-split string of index.js:31.
- The Express liveness endpoint and the client login (index.js:186-188) are out of scope.
- Concurrent handlers: the source's read-modify-write can lose updates when two invocations for one key interleave. The model handles one invocation at a time.
- JavaScript number precision: balances and amounts are unbounded integers. The source's doubles are exact only up to 2^53, and sums beyond that round.
- register-commands.js registers a static command list over REST and has no logic. It does not register `checkcoins` or `usertransactions`; the model dispatches them by name regardless, as index.js does.
