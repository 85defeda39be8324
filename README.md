# FinOne local store, modelled in Dafny

FinOne is an offline personal-finance tracker. Its data layer, `src/db.js`, keeps two
IndexedDB tables through Dexie: `accounts` (a bank, wallet, card or exchange holding, with
a name, a type and a currency) and `balances` (an append-only history of amount snapshots
per account). Both tables use auto-increment primary keys (`++id`). On top of the tables the
layer computes each account's latest balance and the totals per currency, and it exports
and imports the whole store as a backup document.

This project models that layer as the class `Store.FinStore`. The class has one `map<nat, _>`
field per table and one key-generator field per table, and one method per exported
operation. The methods' contracts state the new state in terms of the old. The pure parts are
functions with proved contracts:
- the `name`-index order (`Ordering`);
- reading a table in key order and bulk-loading it (`Tables`);
- taking each account's record with the greatest `created_at` (`Aggregates.Latest`);
- the per-currency sums (`Aggregates.SumFor`).

Modules:
- `Wrappers`: the `Option` type.
- `Records`: the rows, the `AccountTypes` enumeration and the backup document.
- `Tables`: keyed tables, `toArray()`, `bulkAdd` into an empty table, and the key generator.
- `Ordering`: the order of the `name` index (name, then primary key) and an insertion sort into it.
- `Aggregates`: the account's history, its latest record, the latest-balance entries and the currency sums.
- `Store`: the store class and the loops of `getLatestBalances` and `getTotalsByCurrency`.

Facts about the storage engine that the model relies on:
- Each object store has its own key generator. The generator starts at 1, and `clear()` does not reset it.
- Storing a row with an explicit key `k` at or above the generator moves the generator to `k + 1`.
- An aborted transaction leaves the store as it was.
- `where('account_id').equals(id).toArray()` returns rows in primary-key order.
- `orderBy('name')` orders by name, and rows with equal names by primary key.
- `Array.prototype.sort` is stable. So "sort by `created_at` descending and take the first"
  picks the lowest-id record among those with the greatest `created_at`, which is what
  `Aggregates.Latest` computes.

What the code does and does not do:
- `addBalance` stores whatever amount it is given. Rejecting a negative or non-numeric
  amount is done only by the form in `src/App.jsx`.
- `deleteAccount` runs its two deletions without a transaction. Storage failures are outside
  the model, so there the two deletions behave like one atomic step.
- Backup documents are validated (parsed) only in `src/ExportImport.jsx`, before
  `importData` runs.
- `exportData` lists accounts in `name` order, not in key order.

Inputs from the outside world are parameters:
- the clock reading `new Date()` (`now`, in milliseconds);
- the calendar day `toISOString().split('T')[0]` (`today`);
- the export time string (`exportedAt`).

Amounts are `real`, so sums are exact. The source field `type` is called `kind`, because
`type` is a Dafny keyword.

## Model

| member | source | states |
|---|---|---|
| `Records.ParseType` | src/db.js:10-15 | a type string names an `AccountTypes` member exactly when it is that member's string; any other string stays "unknown" |
| `Store.FinStore.constructor` | src/db.js:3-8 | a fresh database has both tables empty and both key generators at 1 |
| `Store.FinStore.AddAccount` | src/db.js:17-22 | the returned id is the generator's number, which no stored account has; the new row holds the given fields, that id and `created_at`; the generator advances; every other account and every balance is unchanged |
| `Store.FinStore.UpdateAccount` | src/db.js:24-29 | on the account with that id, exactly the supplied fields are replaced and `updated_at` is set; `id` and `created_at` keep their values; every other account and every balance is unchanged; returns 1 if the id exists, else 0 and nothing changes |
| `Store.FinStore.DeleteAccount` | src/db.js:31-34 | afterwards no account has the id and no balance refers to it; every other account and every balance of another account is unchanged; no balance row is added or altered, so the account's rows are removed, not re-pointed |
| `Store.FinStore.AddBalance` | src/db.js:40-48 | appends exactly one row with a fresh id, the given account id, amount, day, notes (default empty) and instant; existing balances and all accounts are unchanged |
| `Store.FinStore.GetAllAccounts` | src/db.js:36-38 | lists every stored account exactly once: strictly ascending by name and then id, each entry the table's row for its id, no id twice |
| `Store.SortedListing` | src/db.js:37 | a strictly ascending sequence with the same members as a keyed table's rows lists that table exactly once per row |
| `Ordering.Insert` | src/db.js:37 | inserting adds exactly that one element to the multiset and keeps strict index order when its id is new |
| `Ordering.SortAccounts` | src/db.js:37 | the sort is a permutation (same multiset) and yields strict index order for rows with distinct ids |
| `Tables.Rows` | src/db.js:90 | reading a keyed table yields its rows in strictly ascending key order, each the row stored under its key, with none missing below the bound |
| `Tables.RowsHold` | src/db.js:90 | reading a whole keyed table gives back exactly the rows it holds, with distinct keys |
| `Aggregates.OfAccount` | src/db.js:55-58 | the account query returns exactly the rows whose `account_id` is that account |
| `Aggregates.OfAccountAscending` | src/db.js:55-58 | the account query keeps the table's ascending key order |
| `Aggregates.Latest` | src/db.js:60-62 | no record exactly for an empty history; otherwise a record of the history whose `created_at` no other record exceeds, preceded only by strictly older records |
| `Store.MostRecent` | src/db.js:60-62 | the scan returns what `Latest` selects |
| `Aggregates.LatestIsLatestRecord` | src/db.js:55-62 | the selected record is stored under its id and is the account's latest: no record of that account is newer, and among equally new ones it has the smallest id |
| `Aggregates.ViewOfIsLatest` | src/db.js:64-68 | an entry has the account's fields; `last_updated` is absent exactly when the account has no records, and then `latest_balance` is 0; otherwise both come from the account's latest record (by `created_at`, not `date`) |
| `Store.LatestBalancesOf` | src/db.js:54-69 | the loop yields one entry per listed account, in listing order, each the account's latest-balance entry |
| `Store.FinStore.GetLatestBalances` | src/db.js:50-72 | the result is the latest-balance entries of `getAllAccounts`, in its order |
| `Aggregates.SumForSnoc` | src/db.js:78-83 | one more entry adds its currency to the key set and its amount to that currency's sum only |
| `Aggregates.SumForAbsent` | src/db.js:78-83 | the sum for a currency no entry has is 0 |
| `Store.SumByCurrency` | src/db.js:76-83 | the `forEach` yields exactly the distinct currencies of the entries as keys, each mapped to the sum of their latest balances |
| `Store.CurrenciesOfListing` | src/db.js:74-86 | the currencies among the entries are exactly the currencies of the stored accounts |
| `Store.FinStore.GetTotalsByCurrency` | src/db.js:74-86 | the keys are exactly the currencies of the stored accounts (none when there are no accounts); each value is the sum of the latest balances of the accounts with exactly that currency |
| `Store.FinStore.ExportData` | src/db.js:88-97 | the document holds the `getAllAccounts` listing, every balance row exactly once in key order, and the export time; the store is not changed |
| `Tables.Load` | src/db.js:104-109 | bulk insertion into an empty table succeeds exactly when no two rows share a key, and then the table holds exactly those rows under their own keys |
| `Tables.NextAfter` | src/db.js:104-109 | after rows with explicit keys, the generator is past every key and never moves back; it stays the same or becomes one past a stored key |
| `Tables.LoadedBelow` | src/db.js:104-109 | after loading, every key of the loaded table is below the new generator |
| `Tables.HoldsUnique` | src/db.js:88-111 | a keyed table is determined by the rows it holds |
| `Store.FinStore.ImportData` | src/db.js:99-111 | when both arrays have distinct ids: the tables hold exactly the document's rows under their own ids, a missing array giving an empty table, and the generators move past the imported ids; otherwise the transaction aborts and nothing changes |
| `Store.FinStore.ImportOwnExport` | src/db.js:88-111 | importing the store's own export leaves both tables and both generators unchanged, and `getLatestBalances` gives the same answer before and after |

## Left out

- Dexie and IndexedDB: durability, asynchronous calls and schema versioning are not modelled. Storage failures such as quota errors are not modelled either. Each operation is one atomic step on the two maps.
- Clocks: `new Date()` and the day string are parameters. `addBalance` reads the clock twice, so `today` and `now` are separate, unrelated parameters.
- Floating point: `parseFloat`, JavaScript number addition and `toFixed` are not modelled. Amounts are exact reals, so the `|| 0` fallback for a NaN balance has nothing to do.
- The form checks in `src/App.jsx` (a non-empty trimmed name, a non-negative number) are not preconditions, because the store methods do not check them.
- `Store.FinStore.UpdateAccount`: only the `name`, `type` and `currency` fields can be supplied. Other keys that the JavaScript spread would also copy are not modelled.
- `Store.FinStore.AddAccount`: the argument holds only `name`, `type` and `currency`, which is what the account form passes. An argument carrying its own `id` or other keys is not modelled.
- `Store.FinStore.ImportData`: every document row carries an `id`, as exported rows do. A row without an id, which Dexie would number from the generator, is not modelled.
- `Store.FinStore.ImportData`: the document is typed, so other JSON values are not modelled directly. A number, string, boolean or array has no `accounts` or `balances` field. In the source it therefore clears both tables and commits, which is what the model does for `Backup(None, None, _)`. Only `null` throws on reading `data.accounts`, and then the transaction aborts. A present field that is not an array of rows is not modelled either. Rows are typed too. An imported account whose `name` is missing or is not a valid key (null, a boolean, an object) is left out of the `name` index. So `orderBy('name')` skips it, and so do `getLatestBalances`, `getTotalsByCurrency` and `exportData`, and the source's own export and import then lose that account. `Account.name: string` rules this case out, so it is not modelled.
- `Store.SumByCurrency` and `Store.FinStore.GetTotalsByCurrency`: `totals` in the source is a plain JavaScript object, so a currency that names an `Object.prototype` member behaves differently. Such a currency can only come in through `importData`, because the account form uppercases the currency. For `constructor`, `!totals[c]` is false and `+=` builds a string, which makes `toFixed` in `src/App.jsx` throw. For `__proto__`, the key never appears in the result. The model gives a numeric sum under every currency, so these currencies are not modelled.
- `Tables.NextAfter`, `Store.FinStore.AddAccount` and `Store.FinStore.AddBalance`: ids and key generators are unbounded `nat`s. In IndexedDB an explicit key `k` sets the generator to min(k, 2^53) + 1. Once the generator is past 2^53, every generated key fails with a ConstraintError, so after importing an id of 2^53 or more every later `addAccount` or `addBalance` on that table rejects. Ids above 2^53 are also not exact JavaScript numbers. The model's `NextAfter` returns `k + 1`, and its adds always succeed, so the 2^53 cap and the failed adds after it are not modelled.
- `Store.FinStore.ImportData`: timestamps stay integers. After a JSON round trip they are ISO strings, which `new Date(...)` parses back to the same instant.
- `Ordering.StrLess` compares Dafny characters (Unicode scalar values). IndexedDB compares UTF-16 code units, and the two orders differ only between characters above U+FFFF and characters in U+E000 to U+FFFF.
- The browser side of backup is not modelled: file download and upload, `JSON.parse`, `confirm`, `alert` and the page reload in `src/ExportImport.jsx`, and all rendering in `src/App.jsx`.
