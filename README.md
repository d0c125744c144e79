# Portfolio engine of the finance brokerage simulation

This project is a Dafny model of the portfolio engine inside the Flask
handlers of `app.py`, a small stock-trading simulation. Users register, buy
and sell simulated shares at quoted prices, and see their portfolio. The
engine's state is:

- one cash balance per user (`users.cash`);
- an append-only ledger (the `purchases` table). Each row holds a user, a
  symbol, a signed share count (positive for a buy, negative for a sell) and
  a unit price.

Holdings are never stored. A holding is the sum of the signed share counts of
one user's rows for one symbol. The portfolio lists the symbols whose sum is
strictly positive.

Files and modules:

- `wrappers.dfy` (`Wrappers`): `Option`, used for missing form fields and SQL NULL.
- `forms.dfy` (`Forms`): Python truthiness of a form field (`Blank`) and
  Python's `int()` on a string (`ParseInt`). `ParseInt` strips the white space
  `int()` ignores (space and `\t` to `\r` among ASCII, and every non-ASCII
  character `str.isspace()` accepts). It then reads an optional sign and digit
  groups with single underscores between digits. `ShowInt` is `str()`, and
  `int(str(n)) == n` is proved.
- `ledger.dfy` (`Ledger`): ledger rows and the SQL aggregates as recursive
  functions: `Holding` is `SUM(shares)` and `AvailableShares` is the same sum
  as NULL-or-number. Also `Symbols`, `Portfolio`, `History` and `Spent`.
  The methods `GroupSums`, `PortfolioRows` and `SellableSymbols` build the
  portfolio and sell-page lists with loops, and each is proved against those
  functions.
- `engine.dfy` (`Engine`): the validation chains of buy, sell, quote and
  register, as pure decision functions. `Settle` and `Record` give the effect
  of a committed trade on cash and on the ledger. The properties are proved
  here as lemmas.
- `app.dfy` (`App`): the class `Brokerage`, which holds the `users` and
  `purchases` tables. Its methods `Buy`, `Sell`, `Register` and `Index` each
  run one request as one atomic step: the check chain of `engine.dfy`, then
  its effect on the tables. Each keeps the invariant `Valid()`:
  - users are numbered 1, 2, …;
  - usernames are unique;
  - every row belongs to a user;
  - no cash balance is negative;
  - each balance equals the starting cash minus the user's net spending in
    the ledger (the closed-ledger property).

Modelling choices:

- Prices and cash are integers in cents, and a quote's price is a `nat`.
- The quote provider is a parameter `lookup: string -> Lookup` with three
  outcomes: `Raised` (it threw), `NoQuote` (it returned `None`) or
  `Found(quote)`.
- The session user is a parameter. The password hasher is a parameter
  `hash: string -> string`.
- The starting cash is a constructor parameter, because the schema that sets
  it is not part of this model.
- The sell handler's two uncaught exceptions (below) are modelled as the
  verdict `Crashed(fault)`. Nothing has been written when they occur, so the
  state does not change. The buy handler's float overflow is not modelled
  (see "## Left out").

The model reproduces these quirks of the handlers:

- The sell handler checks holdings under the symbol as the user typed it,
  and the comparison is exact. If the user has no rows for that symbol, SQL's
  `SUM` returns NULL, and `None < 1` raises. The result is a crash
  (`Crashed(NoneHolding)`), not "you don't own this stock" (app.py:319-325).
- The sell handler catches exceptions from the provider but not a `None`
  result. Reading `stock["price"]` from `None` then raises, so the result is
  `Crashed(NoneQuote)` (app.py:335-340).
- The new sell row is stored under the provider's symbol, not under the
  symbol that was checked (app.py:350). So "a sell never drives a holding
  below zero" holds only when the provider maps each symbol already in the
  ledger to itself. `Engine.SellKeepsNoShortPositions` proves it under that
  hypothesis. `Engine.SellReducesHolding` states what happens in both cases.
- The sell handler treats a missing `shares` field as a request for 400
  shares, which the holding checks then apply to. An empty `shares` field is
  "not an int", and zero is reported as "shares is blank" (app.py:293-303).
- The buy handler gives different apologies for a provider that raises and
  for one that returns `None` (app.py:91-97).
- The source does not run the `UPDATE` and the `INSERT` in one transaction.
  The model treats each request as one atomic step.

## Model

| member | source | states |
|---|---|---|
| `Forms.ParseShowInt` | app.py:109-112 | Python `int()` as modelled reads back every decimal rendering: `ParseInt(ShowInt(n)) == Some(n)` |
| `Forms.Blank` | app.py:87 | Python truthiness of a form field: a missing field and `""` are blank, any other string is not (also app.py:101, app.py:289) |
| `Forms.ParseInt` | app.py:109-112 | Python `int()` on a form string, `None` where it raises; its properties are stated by `ParseShowInt` and `ParseIgnoresPadding` (also app.py:296-299) |
| `Forms.ParseIgnoresPadding` | app.py:296-299 | any amount and kind of white space that `int()` strips, put before and after a share count, does not change what `int()` returns |
| `Ledger.Holding` | app.py:319 | `SUM(shares)` over one user's rows for one symbol; its properties are stated by `HoldingWithoutRows`, `HoldingSplit` and `PortfolioExact` (the same sum is at app.py:47 and app.py:279) |
| `Ledger.Symbols` | app.py:279 | the groups of `GROUP BY symbol`: the symbols the user has rows for; `GroupSums` builds exactly this set |
| `Ledger.Portfolio` | app.py:47 | `WHERE total_shares > 0` over the grouped sums; `PortfolioExact` states what it holds |
| `Ledger.AvailableShares` | app.py:319-321 | the single-symbol `SUM(shares)` is NULL exactly when the user has no row for the symbol, and otherwise equals the holding; when it is NULL the holding as a number would be 0, so NULL versus 0 alone separates the crash of `SellCrashes` from "You don't own this stock" |
| `Ledger.History` | app.py:157 | a row is in the history exactly when it is in the ledger and belongs to the user |
| `Ledger.HistorySplit` | app.py:157 | the history keeps the ledger's order: the history of `a + b` is the history of `a` followed by that of `b` |
| `Ledger.HoldingWithoutRows` | app.py:319 | a symbol with no rows for the user sums to 0 |
| `Ledger.HoldingSplit` | app.py:47 | summing over the ledger splits over any cut: the holding of `a + b` is the holding of `a` plus that of `b` |
| `Ledger.PortfolioExact` | app.py:47 | a symbol is in the portfolio exactly when its summed shares are strictly positive, and it is listed with that sum |
| `Ledger.GroupSums` | app.py:279 | the `GROUP BY symbol` loop yields each symbol the user has rows for, once, with its exact sum |
| `Ledger.PortfolioRows` | app.py:47-67 | the index list has one position per symbol with a strictly positive sum, carries that sum, and repeats no symbol |
| `Ledger.SellableSymbols` | app.py:279-283 | the sell page lists exactly the symbols with a strictly positive holding, each once |
| `Engine.BuyDecision` | app.py:85-143 | a buy never ends in one of the sell handler's faults; a committed buy has at least one share and costs no more than the user's cash |
| `Engine.SellDecision` | app.py:287-350 | a committed sell removes at least one share and no more than the holding under the submitted symbol |
| `Engine.QuoteRequest` | app.py:215-229 | the quote page fails only with "symbol is blank" or "invalid symbol" |
| `Engine.RegisterDecision` | app.py:241-264 | a successful registration returns the submitted username, which is non-empty and not yet taken |
| `Engine.Settle` | app.py:140 | on a commit the acting user's balance becomes the old balance minus price × signed shares; no other balance changes, and a verdict that is not a commit changes no balance |
| `Engine.Record` | app.py:143 | a commit appends exactly one row `(user, symbol, signed shares, price)`; every earlier row is kept; any other verdict appends nothing |
| `Engine.BuyCommits` | app.py:85-143 | a buy commits if and only if every check passes; the row then holds the quote's symbol and price and the parsed share count |
| `Engine.BuyCheckOrder` | app.py:85-132 | each buy check reports its apology without looking at what later checks read: blank symbol, lookup raised, lookup returned nothing, blank shares, not an int, below 1, not enough cash |
| `Engine.BuyTooExpensive` | app.py:129-132 | with 100.00 in cash, three shares at 50.00 are rejected for lack of cash |
| `Engine.BuyAffordable` | app.py:130-143 | with 100.00 in cash, five shares at 10.00 leave 50.00 and append one row of +5 at 10.00 |
| `Engine.BuyKeepsCashNonNegative` | app.py:129-140 | a buy never drives cash below zero |
| `Engine.SellShares` | app.py:293-297 | the share count the sell handler reads: 400 when the field is missing, otherwise `int()` of it; `SellSharesQuirks` states the edge cases |
| `Engine.SellCommits` | app.py:287-350 | a sell commits if and only if the symbol is non-blank, the share count is at least 1 and at most the holding, the user has rows for the symbol, and the provider returns a quote; the row then has minus that count at the quote's symbol and price |
| `Engine.SellCrashes` | app.py:319-340 | a sell crashes on a symbol the user has no rows for, and on a provider that returns `None` once the holding checks pass, and in no other case |
| `Engine.SellSharesQuirks` | app.py:293-303 | a missing shares field is a request for 400 shares; an empty one is not an int, and such a sell is rejected as "Not an int"; "0" parses to zero, and such a sell is rejected as "Shares is blank" |
| `Engine.SellCheckOrder` | app.py:287-330 | each sell check that fails gives its own apology, in source order: blank symbol, not an int, zero as "Shares is blank", a negative count, "You don't own this stock" when the user has rows but a holding below 1, "You don't have that many" when 1 <= holding < count |
| `Engine.SellTooMany` | app.py:329-330 | with five shares of a symbol held, a request for six is rejected as "You don't have that many", whatever the provider returns |
| `Engine.SellHoldingsBeforeQuote` | app.py:318-338 | a sell rejected (or crashed) before the quote gets the same verdict whatever the provider returns; every verdict that depends on the quote implies the holding checks passed |
| `Engine.SellReducesHolding` | app.py:340-350 | after a committed sell, the holding under the submitted symbol is the old one minus the shares sold, and at least 0, when the quote carries that symbol; otherwise that holding is unchanged |
| `Engine.SellRaisesCash` | app.py:340-347 | a sell never lowers the seller's cash |
| `Engine.SellOutVanishes` | app.py:279 | when the provider returns a quote whose symbol is the one submitted, selling the whole holding removes that symbol from the portfolio while its rows remain and the history grows by one row |
| `Engine.TradeFrame` | app.py:347-350 | a trade leaves every other user's holdings, history and spending unchanged |
| `Engine.TradeHistory` | app.py:350 | the acting user's history gains exactly the new row |
| `Engine.TradeBalances` | app.py:140-143 | cash plus net spending is the same for every user before and after any verdict |
| `Engine.SellKeepsNoShortPositions` | app.py:319-350 | if the provider maps each stored symbol to itself, a sell never makes one of the user's holdings negative |
| `Engine.BuyKeepsNoShortPositions` | app.py:143 | a buy never makes a holding negative |
| `Engine.QuoteShown` | app.py:215-229 | the quote page shows a quote if and only if the symbol is not blank and the provider returns one, and it shows that quote |
| `Engine.RegisterChecks` | app.py:241-264 | registration succeeds if and only if all five checks pass; otherwise it reports the first check that fails, in source order |
| `App.TradeKeepsConsistent` | app.py:139-143 | a trade that leaves the acting user's cash non-negative keeps the table invariant |
| `App.Brokerage.Buy` | app.py:83-145 | a buy keeps the invariant; cash and ledger change only as the verdict's `Settle` and `Record` say; users are untouched |
| `App.Brokerage.Sell` | app.py:285-352 | a sell keeps the invariant; cash and ledger change only as the verdict's `Settle` and `Record` say; users are untouched |
| `App.Brokerage.Register` | app.py:239-267 | a rejection changes nothing; a success adds exactly one user with the next id, the username, the password's hash and the starting cash |
| `App.Brokerage.Index` | app.py:44-76 | the index shows exactly the positive holdings, each once, and the user's non-negative cash |

## Left out

- Flask routing, templates, `redirect`, the rendering and status codes of
  `apology`, the cache headers of `after_request`, and the `API_KEY` check
  (app.py:12-39): these are web plumbing.
- Login, logout and the session (app.py:162-206). The session user is a
  parameter. `Buy`, `Sell` and `Index` require that this user exists, which
  `login_required` and the session guarantee.
- Password hashing and checking are foreign library calls. The hash is a
  parameter; login is not modelled.
- The quote provider `lookup` (helpers.py) is an HTTP client and is not part
  of this model. It appears only as the function parameter described above.
- Floating-point prices and cash. Amounts are exact integer cents, so float
  rounding in `total_cost > available_cash` is not modelled.
- SQLite's 64-bit integer columns. Share counts and cents are unbounded.
- The `transacted` timestamp of each row, and the order SQLite returns rows
  in. The model returns groups in order of first appearance and history in
  ledger order.
- Portfolio valuation in `index` (app.py:58-68): the quote lookup per
  position and the float totals. `App.Brokerage.Index`'s result does not
  include prices, names or totals. Nor does it model that `index` crashes
  when `lookup` raises or returns `None` for a held symbol (app.py:59-62).
- `Engine.BuyDecision`: does not model the `OverflowError` at app.py:130.
  There the float price is multiplied by the parsed share count, which raises
  for a count above the float range (about 1.8e308, e.g. "1" followed by 309
  zeros). The source then ends in an uncaught exception before any write,
  while the model rejects for lack of cash (or commits at price 0).
- The race between concurrent requests (app.py:309-316). Each request is one
  atomic step. So is the window between the `UPDATE` and the `INSERT`, which
  the source does not protect with a transaction.
- The GET branches, which only render forms.
- `Forms.ParseInt`: accepts only the ASCII digits 0-9. Python's `int()` also
  accepts other Unicode decimal digits.
- `Forms.ParseInt`: has no length limit. Recent Python versions raise on a
  string of more than 4300 digits (`sys.int_info.default_max_str_digits`),
  and the version the application runs on is not part of this model.
- `App.Brokerage.Register`: user ids are numbered consecutively from 1. This
  is how SQLite assigns row ids when no user is ever deleted.
