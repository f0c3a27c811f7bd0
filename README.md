# Inventory manager: a Dafny model of the stock bookkeeping

This project models the server-side core of a multi-tenant inventory manager. Companies own
products. Users record IN and OUT stock movements against products. Each product carries a
cached `currentStock` that every posted movement updates in the same transaction.

The model covers:

- **Movements**: the movement list, and the posting of a movement (`createMovement`). Posting
  checks the payload, finds the product and refuses an OUT larger than the stock. It then
  appends the movement and writes the new stock together.
- **Products**: the catalogue list with search and a low-stock filter, one product with its 10
  newest movements, create, and update and delete behind an ownership check.
- **Alerts**: the low-stock list and its count.
- **Dashboard**: the six-month movement chart, filled in two loops, and the dashboard
  statistics.
- **Validation**: the three payload schemas (movement, product, company) as parsers with
  their acceptance conditions and round trips.
- **User sync**: the three-branch user reconciliation `syncUser`, and `getCurrentUser`.
- **Companies**: company onboarding (create and link the user in one transaction) and the
  company settings update.
- **Route guard**: the decision of `proxy`.

The database is one object, `Store.Database`, with four tables held as sequences.
- Actions that write are methods that change it and keep its invariant `Valid()`.
- Queries are functions over the table contents.

The invariant ties every product's stock to a replay of the movements posted for it since it
was created. `Store.Database.StockBalances` derives from it that stock is never negative and
equals the opening stock plus the IN quantities minus the OUT quantities.

Generated ids and the current time are parameters of the actions. A database error is either
caught and reported as the action's generic error, or it escapes (`Thrown`). The errors that
can happen are:
- an id that is already taken;
- a foreign key with no row;
- an update of a row that does not exist.

Timestamps are milliseconds since 1970-01-01 in UTC. Calendar months are computed with the
proleptic Gregorian day-count algorithms.

The code departs from what its forms and comments suggest in one place, and the model
follows the code: a price must be strictly positive, not merely non-negative.

The source does not fix the version of its validation library. The model assumes the
`.partial()` behaviour of zod 3: an absent field stays absent and no default is filled in,
so an update never writes `minStock` unless it is supplied.

The database schema is not part of this model, so what deleting a product does to its
movements is the model's own choice: they stay in the movement table. The invariant therefore
counts a product's movements from the product's creation, which keeps it true when a new
product later reuses an old id.

## Model

| member | source | states |
|---|---|---|
| `Base.OrElse` | src/lib/actions/sync-user.ts:25-26 | the JavaScript or-operator on string fields: `a` when `a` is truthy, otherwise `b` (null and absent kept apart); the result is truthy exactly when either operand is |
| `Seqs.Filter` | src/lib/actions/alerts.ts:18 | `Array.filter`: the result holds exactly the elements that pass, and is no longer than the input |
| `Seqs.FilterCounts` | src/lib/actions/alerts.ts:18 | `Array.filter` keeps each passing element exactly as often as it occurs and drops every failing one |
| `Seqs.FilterDistributes` | src/lib/actions/alerts.ts:18 | filtering keeps relative order: it distributes over concatenation |
| `Seqs.SortDesc` | src/lib/actions/products.ts:38 | `orderBy: { createdAt: 'desc' }`: a permutation of the input that is sorted newest first |
| `Seqs.SortDescKeeps` | src/lib/actions/movements.ts:37 | sorting keeps the length and the set of elements |
| `Seqs.FilterKeepsSorted` | src/lib/actions/products.ts:42-43 | filtering a list that is sorted newest first leaves it sorted |
| `Seqs.Take` | src/lib/actions/products.ts:56 | `take: n` / `slice(0, n)`: the first `min(n, length)` elements |
| `Seqs.TakeWithin` | src/lib/actions/products.ts:56 | a prefix holds each element no more often than the whole list |
| `Seqs.TakeSorted` | src/lib/actions/dashboard.ts:71-72 | a prefix of a sorted list is sorted |
| `Seqs.TakeSortedKeepsNewest` | src/lib/actions/products.ts:55-56 | after sorting newest first and taking `n`, anything left out is no newer than everything kept, and something is left out only when `n` were kept |
| `Calendar.CivilFromDays` | src/lib/actions/dashboard.ts:31-32 | the month of a day count is a valid month 0..11; `Calendar.CivilRoundTrip` and `Calendar.MonthOfDay` tie its value to `DaysFromCivil` |
| `Calendar.DaysInMonth` | src/lib/actions/dashboard.ts:31-32 | a month has 28 to 31 days, February 29 in a Gregorian leap year |
| `Calendar.CivilRoundTrip` | src/lib/actions/dashboard.ts:31-32 | reading the month back from the day count of any valid date gives that date's month: `CivilFromDays` inverts `DaysFromCivil` |
| `Calendar.LeapPeriodic` | src/lib/actions/dashboard.ts:31-32 | the leap-year rule repeats every 400 years |
| `Calendar.CivilOfEraDay` | src/lib/actions/dashboard.ts:31-32 | any day of a March-based month within a 400-year era reads back as that month |
| `Calendar.EraSplit` | src/lib/actions/dashboard.ts:31-32 | `CivilFromDays` depends only on the era and the day within it |
| `Calendar.MonthShift` | src/lib/actions/dashboard.ts:31-32 | every day of each March-based month maps back to that month, and only a leap February 29 reaches day 365 of the March-based year |
| `Calendar.YearOfEra` | src/lib/actions/dashboard.ts:31-32 | within a 400-year era the year and the day of the year are recovered from the day count, leap days included |
| `Calendar.LeapEndsCentury` | src/lib/actions/dashboard.ts:31-32 | a March-based year that ends in a leap February closes its four-year cycle, and its century when it is divisible by 100 |
| `Calendar.YearOfCentury` | src/lib/actions/dashboard.ts:31-32 | `YearOfEra` for every day but the last day of an era |
| `Calendar.EraDivisions` | src/lib/actions/dashboard.ts:31-32 | the three divisions `CivilFromDays` applies to the day of the era |
| `Calendar.NextMonth` | src/lib/actions/dashboard.ts:24 | the following month, one month count later |
| `Calendar.MonthLength` | src/lib/actions/dashboard.ts:31-32 | months tile the day line: each month starts `DaysInMonth` days after the one before it, across year and leap-day boundaries |
| `Calendar.FebruaryLength` | src/lib/actions/dashboard.ts:31-32 | February has 29 days in a Gregorian leap year and 28 otherwise, by the day counts of its first day and of March 1 |
| `Calendar.LeapCorrection` | src/lib/actions/dashboard.ts:31-32 | the century-corrected leap-day count grows by one from year `j` to `j + 1` exactly when `j + 1` is a leap year |
| `Calendar.CycleDivisions` | src/lib/actions/dashboard.ts:31-32 | the leap-day corrections of a year of an era, split by century and four-year cycle |
| `Calendar.FebruaryWithinEra` | src/lib/actions/dashboard.ts:31-32 | March 1 follows February 1 by 29 days in a leap year and 28 otherwise |
| `Calendar.MonthOfDay` | src/lib/actions/dashboard.ts:31-32 | every day from the first of a month up to the first of the next falls in that month |
| `Calendar.MonthOfRange` | src/lib/actions/dashboard.ts:30-32 | `getFullYear()`/`getMonth()` give `ym` for every instant from the start of `ym` up to the start of the next month |
| `Calendar.MonthOfStart` | src/lib/actions/dashboard.ts:9-14 | the first millisecond of a month (such as `sixMonthsAgo`) falls in that month |
| `Calendar.MonthOf` | src/lib/actions/dashboard.ts:31-32 | `getFullYear()`/`getMonth()` of a timestamp, a valid month; `Calendar.MonthOfRange` gives its value on every instant of every month |
| `Calendar.MonthsBefore` | src/lib/actions/dashboard.ts:24 | `new Date(y, m - i, 1)`: a valid month, the year rolling over |
| `Calendar.MonthsBeforeIndex` | src/lib/actions/dashboard.ts:24 | going back `i` months lowers the month count by exactly `i`, across year boundaries |
| `Calendar.MonthIndexInjective` | src/lib/actions/dashboard.ts:25-26 | two valid months with the same month count are the same month, so the `year-month` keys are distinct |
| `Entities.CompanyProducts` | src/lib/actions/alerts.ts:7-16 | `findMany({ where: { companyId } })`: exactly the company's rows, each as often as it occurs in the table |
| `Entities.FindWhere` | src/lib/actions/products.ts:96-98 | `findFirst` with a condition: the first row that satisfies it, or none exactly when no row does |
| `Entities.FindBy` | src/lib/actions/movements.ts:46-48 | `findUnique` on a unique column: the index of a row with that key, or none exactly when no row has it |
| `Entities.FindProduct` | src/lib/actions/movements.ts:46-48 | `findUnique` by id: the index of a row with that id, or none exactly when no row has it |
| `Entities.FindOwnedProduct` | src/lib/actions/products.ts:96-98 | `findFirst({ where: { id, companyId } })`: a row with that id owned by the company, or none exactly when there is none |
| `Entities.FindUserByEmail` | src/lib/actions/sync-user.ts:15-18 | `findUnique` by email: a row with that email, or none exactly when there is none |
| `Entities.FindUserById` | src/lib/actions/sync-user.ts:32-34 | `findUnique` by id on users: a row with that id, or none exactly when there is none |
| `Entities.FindCompany` | src/lib/actions/company.ts:58-61 | the company row `update({ where: { id } })` targets, or none exactly when there is none |
| `Ledger.ApplyMovement` | src/lib/actions/movements.ts:55-65 | an OUT above the stock is refused, and nothing else is; IN adds and OUT subtracts the quantity; the result is never negative; an OUT of exactly the stock leaves 0 (the check is strict `<`) |
| `Ledger.ReplaySnoc` | src/lib/actions/movements.ts:68-85 | posting one more movement extends a product's replay by one stock step |
| `Ledger.ReplayBalances` | src/lib/actions/movements.ts:55-85 | over any sequence of postings, from a non-negative opening stock, the stock stays non-negative and equals opening + ΣIN − ΣOUT |
| `Store.PostKeepsBalanced` | src/lib/actions/movements.ts:68-85 | appending a movement and writing that product's new stock keeps every product ledgered and ids unique |
| `Store.AddKeepsBalanced` | src/lib/actions/products.ts:70-80 | inserting a product with a fresh id opens its ledger at its initial stock |
| `Store.ReplaceKeepsBalanced` | src/lib/actions/products.ts:104-113 | rewriting a product without touching its id or stock keeps the ledger balanced |
| `Store.RemoveKeepsBalanced` | src/lib/actions/products.ts:136-138 | removing a product keeps the others balanced and unique |
| `Store.Database.constructor` | src/lib/actions/movements.ts:55-85 | the empty store satisfies the invariant and has no openings |
| `Store.Database.StockBalances` | src/lib/actions/movements.ts:55-85 | in any valid store every product's stock is ≥ 0 and equals its opening stock plus the IN quantities minus the OUT quantities posted for it; the opening is fixed by `CreateProduct` (the stock it was created with, counted from the end of the movement table then) and every other action leaves the openings unchanged |
| `Schema.RequiredString` | src/lib/validations/product.ts:4 | `z.string().min(a).max(b)`: accepted exactly when a string of length a..b, kept as is |
| `Schema.NullableString` | src/lib/validations/product.ts:5-6 | `.max(n).optional().nullable()`: accepted exactly when absent, null or at most `n` long; nothing is lost |
| `Schema.PositiveInt` | src/lib/validations/movement.ts:5 | `z.number().int().positive()`: accepted exactly when an integer above 0 |
| `Schema.NonNegativeInt` | src/lib/validations/product.ts:8 | `z.number().int().min(0)`: accepted exactly when an integer ≥ 0 |
| `Schema.NonNegativeIntOrZero` | src/lib/validations/product.ts:8-9 | `.default(0)`: an absent field becomes 0, anything else is checked |
| `Schema.NullablePositive` | src/lib/validations/product.ts:7 | price: accepted exactly when absent, null or above 0 |
| `Schema.PartialOf` | src/lib/actions/products.ts:93 | a `.partial()` field: absent stays absent, a present one must pass its own check |
| `MovementSchema.ParseKind` | src/lib/validations/movement.ts:4 | type accepted exactly when `"IN"` or `"OUT"` |
| `MovementSchema.ParseProductId` | src/lib/validations/movement.ts:7 | product id accepted exactly when a string in UUID form |
| `MovementSchema.Parse` | src/lib/validations/movement.ts:3-8 | an accepted movement has a positive quantity, a reason of at most 200 and a UUID product id |
| `MovementSchema.ParseAccepts` | src/lib/validations/movement.ts:3-8 | a payload is accepted exactly when all four field rules hold |
| `MovementSchema.ParseEncode` | src/lib/validations/movement.ts:3-8 | every valid movement is accepted back from its encoding |
| `MovementSchema.EncodeParse` | src/lib/validations/movement.ts:3-8 | an accepted payload is the encoding of what it parsed to |
| `ProductSchema.Parse` | src/lib/validations/product.ts:3-10 | an accepted product is valid; its name, description, sku, price and stock figures are the payload's, and absent stock figures become 0 |
| `ProductSchema.ParsePartial` | src/lib/actions/products.ts:93 | each supplied field passes its check and equals the payload's, an absent one stays absent; name and minStock are never null; `ProductSchema.ParsePartialAccepts` gives the exact acceptance condition |
| `ProductSchema.ParseAccepts` | src/lib/validations/product.ts:3-10 | a payload is accepted exactly when all six field rules hold |
| `ProductSchema.ParsePartialAccepts` | src/lib/actions/products.ts:93 | a partial payload is accepted exactly when every field that is present passes its rule; a null name or stock figure is refused |
| `ProductSchema.ParseEncode` | src/lib/validations/product.ts:3-10 | every valid product is accepted back from its encoding |
| `ProductSchema.EncodeParse` | src/lib/validations/product.ts:3-10 | parsing changes nothing but the defaults: an accepted payload encodes back to itself with absent stock figures set to 0 |
| `ProductSchema.PartialAcceptsFull` | src/lib/actions/products.ts:93 | what the full schema accepts, the partial one accepts with the same values, defaults left unfilled |
| `CompanySchema.Parse` | src/lib/validations/company.ts:3-8 | an accepted company has a 1..100 name and short enough optional fields |
| `CompanySchema.ParsePartial` | src/lib/actions/company.ts:56 | each supplied field passes its check and equals the payload's, an absent one stays absent; the name is never null; `CompanySchema.ParsePartialAccepts` gives the exact acceptance condition |
| `CompanySchema.ParseAccepts` | src/lib/validations/company.ts:3-8 | a payload is accepted exactly when all four field rules hold |
| `CompanySchema.ParsePartialAccepts` | src/lib/actions/company.ts:56 | a partial payload is accepted exactly when every field that is present passes its rule; a null name is refused |
| `CompanySchema.ParseEncode` | src/lib/validations/company.ts:3-8 | every valid company is accepted back from its encoding |
| `CompanySchema.EncodeParse` | src/lib/validations/company.ts:3-8 | an accepted payload is the encoding of what it parsed to |
| `CompanySchema.PartialAcceptsFull` | src/lib/actions/company.ts:56 | what the full schema accepts, the partial one accepts with the same values |
| `Movements.GetMovements` | src/lib/actions/movements.ts:16-38 | exactly the company's movements matching type, product id (if truthy), start day and end day up to 23:59:59, each as often as it occurs in the table, newest first |
| `Movements.CreateMovement` | src/lib/actions/movements.ts:41-97 | invalid input → generic error; unknown product → "Product not found"; OUT above stock → error with the available stock; unknown user or taken id → generic error, nothing written; otherwise exactly one movement appended and only that product's stock set to the new stock; the openings and the store invariant are kept |
| `Products.GetProducts` | src/lib/actions/products.ts:25-47 | exactly the company's products matching a truthy search in name or sku (ignoring case), and under "low-stock" only those strictly below minimum; each as often as it occurs in the table; newest first |
| `Products.MovementsOf` | src/lib/actions/products.ts:53-57 | exactly a product's movements, each as often as it occurs in the table, newest first |
| `Products.GetProduct` | src/lib/actions/products.ts:49-64 | none exactly when the company owns no product with that id; otherwise that product with at most 10 of its movements, newest first, each kept no more often than it occurs |
| `Products.GetProductKeepsNewest` | src/lib/actions/products.ts:53-57 | the movements shown are the 10 newest |
| `Products.CreateProduct` | src/lib/actions/products.ts:66-89 | succeeds exactly when the payload is valid, the company exists and the id is free; stores the validated fields with the caller's company and opens its ledger at its initial stock; otherwise "Failed to create product" and no change |
| `Products.ApplyPatch` | src/lib/actions/products.ts:104-113 | an update never changes id, company, creation time or current stock; a supplied name or minimum replaces the column; a supplied description, sku or price replaces it (null clears it) and an omitted one keeps it; an empty patch changes nothing |
| `Products.PatchFromPayload` | src/lib/actions/products.ts:91-113 | for an accepted update payload, each product column after the update is the payload's value when supplied (null clears it) and the old value when absent; the stock is never touched |
| `Products.ApplyPatchIdempotent` | src/lib/actions/products.ts:104-113 | applying the same update twice equals applying it once |
| `Products.UpdateProduct` | src/lib/actions/products.ts:91-123 | invalid input → "Failed to update product"; not owned → "Product not found"; both leave the store unchanged; otherwise only that row changes |
| `Products.DeleteProduct` | src/lib/actions/products.ts:125-147 | not owned → "Product not found" and no change; otherwise exactly that row is removed and the movements stay |
| `Products.DeleteRemovesOnlyThatId` | src/lib/actions/products.ts:136-138 | after deletion a row remains exactly when it was there and has another id |
| `Alerts.LowStockProducts` | src/lib/actions/alerts.ts:6-19 | exactly the company's products with stock strictly below minimum, each as often as it occurs in the table |
| `Alerts.LowStockCountIsLength` | src/lib/actions/alerts.ts:21-28 | the count equals the length of the list |
| `Alerts.AtMinimumIsNotLow` | src/lib/actions/alerts.ts:18 | a product exactly at its minimum is never reported |
| `Alerts.LowStockKeepsOrder` | src/lib/actions/alerts.ts:18 | the list keeps the relative order of the rows |
| `Alerts.LowStockIsolated` | src/lib/actions/alerts.ts:6-28 | other companies' rows change neither the list nor the count |
| `Dashboard.Bucket` | src/lib/actions/dashboard.ts:23-25 | each chart month is a valid calendar month |
| `Dashboard.BucketsConsecutive` | src/lib/actions/dashboard.ts:9-27 | the six chart months are consecutive, oldest first, the last being the current month |
| `Dashboard.MonthlyFetch` | src/lib/actions/dashboard.ts:11-17 | exactly the company's movements since the first day of the oldest chart month, each as often as it occurs in the table |
| `Dashboard.StartBuckets` | src/lib/actions/dashboard.ts:20-27 | the six chart months, oldest first, each present with a count of 0 |
| `Dashboard.CountMonths` | src/lib/actions/dashboard.ts:30-36 | each month's count is the number of movements dated in it; movements of other months change nothing |
| `Dashboard.GetMonthlyMovements` | src/lib/actions/dashboard.ts:7-46 | six entries, oldest first; each is labelled with its short month name and counts the fetched movements of that month; every month starts at 0 |
| `Dashboard.HitsWindow` | src/lib/actions/dashboard.ts:30-36 | a movement increments exactly one bucket if its month is charted, else none |
| `Dashboard.ChartSumSnoc` | src/lib/actions/dashboard.ts:30-36 | one more movement adds its bucket hits to the running totals |
| `Dashboard.ChartSumEmpty` | src/lib/actions/dashboard.ts:22-27 | with no movements every total is 0 |
| `Dashboard.ChartSumCounts` | src/lib/actions/dashboard.ts:30-36 | the six totals sum to the number of movements dated in the six charted months |
| `Dashboard.RecentWindow` | src/lib/actions/dashboard.ts:60-67 | exactly the company's movements of the last 30 days, each as often as it occurs in the table |
| `Dashboard.GetDashboardData` | src/lib/actions/dashboard.ts:48-110 | product count of the company; recent movements within 30 days, newest first, exactly `min(5, totalMovements)` of them, each no more often than it occurs in the window; `lowStockCount` counts all low-stock products while the list holds their first `min(5, lowStockCount)` |
| `Dashboard.RecentAreNewest` | src/lib/actions/dashboard.ts:60-73 | the recent movements are the 5 newest of the window |
| `Dashboard.LowStockCountIsComplete` | src/lib/actions/dashboard.ts:89-105 | the dashboard count equals the alert count |
| `SyncUser.Refresh` | src/lib/actions/sync-user.ts:20-29 | email branch: id, email and company kept; a truthy claimed name (name, else full name) and a truthy avatar replace the columns, otherwise the old values stay |
| `SyncUser.Relink` | src/lib/actions/sync-user.ts:36-46 | id branch: email set to the principal's; id and company kept; name and avatar take the claims with no fallback, a null claim clearing the column and a missing one keeping it |
| `SyncUser.NewUser` | src/lib/actions/sync-user.ts:47-56 | insert: the generated id (not the provider's), the email, the claimed name and avatar (null when missing), no company |
| `SyncUser.Sync` | src/lib/actions/sync-user.ts:6-61 | no principal or no email → "Not authenticated" and no change; a row with the email → that row refreshed; else a row with the provider's id → that row relinked; else a row inserted under the generated id, or the error escapes when that id is taken; at most one row inserted, none when the email exists; the returned row is in the table with the principal's email; unique keys kept |
| `SyncUser.ReplaceKeepsDistinct` | src/lib/actions/sync-user.ts:22-46 | an in-place update keeps ids and emails unique |
| `SyncUser.AddKeepsDistinct` | src/lib/actions/sync-user.ts:49-56 | the insert keeps ids and emails unique |
| `SyncUser.SyncedIsFixpoint` | src/lib/actions/sync-user.ts:20-56 | whichever branch produced it, the synced row is unchanged by a further refresh with the same claims |
| `SyncUser.SyncIdempotent` | src/lib/actions/sync-user.ts:14-29 | calling again with unchanged claims takes the email branch and returns the same row with the table unchanged |
| `SyncUser.GetCurrentUser` | src/lib/actions/sync-user.ts:63-77 | the row with the principal's email, or none when signed out or no row has it; reads only |
| `SyncUser.CurrentAfterSync` | src/lib/actions/sync-user.ts:63-77 | after a successful sync the current user is the synced row |
| `SyncUser.SyncUser` | src/lib/actions/sync-user.ts:6-61 | changes only the user table, exactly as `Sync` says, and keeps the store invariant |
| `Companies.AddCompanyKeepsDistinct` | src/lib/actions/company.ts:29-36 | inserting a company with a fresh id keeps ids unique |
| `Companies.UserUpdateKeepsDistinct` | src/lib/actions/company.ts:38-41 | linking the user keeps user keys unique |
| `Companies.CreateCompany` | src/lib/actions/company.ts:17-52 | succeeds exactly when the payload is valid, the id is free and the user exists; then the company holds the validated fields and only that user is linked to it; otherwise the generic error and neither write |
| `Companies.ApplyCompanyPatch` | src/lib/actions/company.ts:58-61 | the id is kept; a supplied name replaces the column; a supplied document, phone or address replaces it (null clears it) and an omitted one keeps it; an empty patch changes nothing |
| `Companies.SettingsFromPayload` | src/lib/actions/company.ts:54-61 | for accepted settings, each company column after the update is the payload's value when supplied (null clears it) and the old value when absent |
| `Companies.ApplyCompanyPatchIdempotent` | src/lib/actions/company.ts:58-61 | applying the same settings twice equals applying them once |
| `Companies.FullPatchOverwrites` | src/lib/actions/company.ts:56-61 | settings with every field present make the row carry exactly those values |
| `Companies.UpdateCompany` | src/lib/actions/company.ts:54-69 | invalid data or unknown company → the generic error and no change; otherwise only that company changes, to `ApplyCompanyPatch` of the parsed settings, which by `Companies.SettingsFromPayload` changes exactly the supplied fields, with or without a name |
| `Proxy.Route` | src/proxy.ts:36-68 | signed in on /login or /signup → redirect to /dashboard; signed out off the open paths → redirect to /login; open paths (/, /login, /signup, /callback…, /api…) otherwise pass; signed in, every other path (including /onboarding and /) passes |
| `Proxy.RedirectTargetServed` | src/proxy.ts:46-61 | a redirect never leads to another redirect |
| `Proxy.UnauthenticatedServesExactlyOpen` | src/proxy.ts:36-61 | signed out, a request passes exactly when its path is open |
| `Proxy.AuthenticatedServesAllButAuthPages` | src/proxy.ts:36-68 | signed in, a request passes exactly when it is not for /login or /signup |

## Left out

- Authentication calls, cookies, `revalidatePath` and `console.error`: the signed-in principal and the authenticated flag are inputs, and cache and log effects have no modelled state.
- Concurrency: actions run one at a time. The stock check in `createMovement` reads the product before its transaction starts, and two concurrent postings could both pass it; that race is not modelled.
- Generated ids and the clock are parameters. The dashboard reads the clock twice, and the model uses one `now` for both reads.
- Time zones and date-string parsing: timestamps are UTC milliseconds, and `getMovements` takes its start and end dates as day numbers. The date strings, their local-time interpretation and invalid dates are not modelled.
- Dashboard.MonthlyFetch: the database pre-filter (`createdAt >= ` first day of the oldest month) is modelled as written. `Calendar.MonthOfStart` shows that its bound lies in the oldest chart month and `Calendar.MonthOfRange` pins `MonthOf` on every month, but `MonthOf` is not proved monotone, so the model does not prove that the pre-filter keeps exactly the movements whose month is charted. As a consequence, `Dashboard.GetMonthlyMovements` is proved to count the fetched movements, not every movement of the six months. `Dashboard.ChartSumCounts` holds for any movement list.
- Dashboard.GetMonthlyMovements: the chart keys are `YearMonth` values rather than `"year-month"` strings. Years before 1 CE, whose key has a leading minus sign and would be split wrongly, are not modelled.
- `serializeProduct`/`serializeProducts`: prices are exact rationals in the model, so the Decimal-to-number conversion would be the identity. Its floating-point rounding is not modelled.
- Schema details of the validation library: `.int()` is modelled as "has no fractional part", without a safe-integer bound. Lengths count characters, not UTF-16 code units. The UUID check is the 8-4-4-4-12 hexadecimal shape, without the version and variant rules. A `.partial()` field that has a default follows the zod 3 rule, and no default is filled in.
- Case-insensitive search folds ASCII letters only. The database's locale-aware folding and its `%`/`_` wildcard escaping are not modelled.
- The relations the queries include for display (the product's name and sku, the user's name) are not modelled.
- What the database does to a deleted product's movements is not specified; the model keeps them and leaves it at that.
- Products.UpdateProduct: under zod 4, `.partial()` still fills the inner `.default(0)` of `minStock` (src/lib/validations/product.ts:8, src/lib/actions/products.ts:93,111), so an update that omits `minStock` resets it to 0. The model keeps the column, following zod 3, and does not capture the zod 4 behaviour.
- DeleteProduct: the model's delete never fails once the ownership check passes. The "Failed to delete product" path (src/lib/actions/products.ts:143-146), which a database error such as a foreign-key restriction from the product's movements would take, is not modelled.
- `createMovement` does not check that the product belongs to the caller's company, and the model keeps that as written.
