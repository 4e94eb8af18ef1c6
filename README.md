# Crypto bot state model

A Dafny model of the state-changing core of a Telegram bot for crypto
prices (`crypto_bot.py`). The bot keeps four tables in memory, each keyed
by the chat user's id:

- price alerts: a list of (asset id, target price, direction) per user;
- the portfolio: a quantity per asset per user;
- favorites: an ordered list of asset ids per user;
- the balance in sum (UZS), topped up through the payment provider.

The commands `/alert`, `/delalert`, `/add`, `/remove`, `/fav`, `/unfav` and
`/balance` read and edit these tables. A periodic job, `check_alerts`,
fetches a price for every alert. It notifies the user of each triggered
alert, and it removes an alert only when that notification was sent.
`/deposit` checks the requested amount and issues an invoice whose payload
is `deposit_{user}_{timestamp}` and whose total is in tiyin. The
pre-checkout callback checks the payload prefix. The successful-payment
callback credits the total back in sum. A user's text names an asset
either by its price-service id or by its ticker code; `find_crypto_id`
resolves it through a fixed table. The read-only commands contribute three
small argument rules: the `/top` limit, the `/history` day count and the
Fear & Greed bands.

Layout:

- `common.dfy`: user and asset ids, `Option`, the handler `Outcome`, the
  `Step` of a table, and Python's `list.remove` as `RemoveFirst`.
- `assets.dfy`: lower-casing, the asset table and `FindCryptoId`.
- `commands.dfy`: the `/top`, `/history` and `/feargreed` rules.
- `alerts.dfy`: the alert record, the trigger rule, `/alert`, `/delalert`,
  and the specification of one sweep of `check_alerts`.
- `portfolio.dfy`, `favorites.dfy`: `/add`, `/remove`, `/fav`, `/unfav` as
  functions on tables.
- `payments.dfy`: `/deposit`, the payload, the tiyin conversion, the
  pre-checkout answer and the credit.
- `store.dfy`: the class `UserStore` holding the four tables. Each handler
  is a method that updates its table in place and is proved equal to the
  function that specifies it. `CheckAlerts` loops over the users, and
  `SweepList` loops over one user's snapshot.

Calls to the price service, Telegram and the clock are parameters:

- `listed` says whether the price service returned the asset (`/add`, `/fav`).
- `lookup` is the price service's answer to `/alert`: the asset missing,
  present without a "usd" price, or priced.
- `Quotes` maps (user, position in that user's snapshot) to the price the
  sweep fetched; a missing key is a failed fetch.
- `Deliveries` holds the (user, position) pairs whose notification was
  sent.
- `approvalSent` says whether answering the pre-checkout query succeeded.
- `configured` says whether a provider token is set.
- `timestamp` is the clock reading.

## Model

| member | source | states |
|---|---|---|
| Common.RemoveFirst | crypto_bot.py:258 | `list.remove` deletes the first occurrence: the result is the list without that position, one shorter, with the multiset minus that element |
| Common.RemoveFirstOfNoDup | crypto_bot.py:764 | on a list without repeats, removing an element leaves no occurrence of it, keeps every other element and keeps the list repeat-free |
| Assets.LowerSpec | crypto_bot.py:68 | lower-casing keeps the length, leaves no upper-case letter, and is the identity on lower-case text |
| Assets.LowerIdempotent | crypto_bot.py:68 | lower-casing twice equals lower-casing once |
| Assets.FirstMatch | crypto_bot.py:71-73 | the table walk returns the first entry whose id or lower-cased code equals the key, and no earlier entry matches; none means no entry matches |
| Assets.FindCryptoIdSpec | crypto_bot.py:66-76 | the result is the id of the first entry the lower-cased input names, and the lower-cased input itself when no entry matches |
| Assets.TableCodesLower | crypto_bot.py:53-64 | every ticker code in the table is lower-case, so `code.lower()` equals the code |
| Assets.TableIdsDistinct | crypto_bot.py:53-64 | the ids of the table are pairwise distinct |
| Assets.TableIdsAreNotCodes | crypto_bot.py:53-64 | no id of the table is also a ticker code |
| Assets.IdMatchesOnlyItself | crypto_bot.py:71-73 | an asset id matches its own entry and no other |
| Assets.FindCryptoIdOfId | crypto_bot.py:66-76 | every id in the table resolves to itself |
| Assets.FindCryptoIdIdempotent | crypto_bot.py:66-76 | resolving ignores case, and a resolved id resolves to itself, so the handlers' extra `.lower()` changes nothing |
| Commands.TopLimit | crypto_bot.py:363-365 | the limit is at most 50; it is 10 without a numeric argument, the argument when that is at most 50, and 50 above that |
| Commands.HistoryDays | crypto_bot.py:442-446 | the day count is always one of 1, 7, 30, 90, 365; it equals the argument exactly when the argument is one of them, and is 7 otherwise |
| Commands.Band | crypto_bot.py:520-534 | the five bands are decided by the cut points 25, 45, 55, 75, each band stated as an if-and-only-if |
| Commands.BandMonotone | crypto_bot.py:520-534 | a higher index never gives a more fearful band |
| Alerts.TriggeredAtTarget | crypto_bot.py:248-253 | a price exactly at the target fires both an "above" and a "below" alert |
| Alerts.UnknownDirectionNeverTriggers | crypto_bot.py:248-253 | an alert with any direction other than above or below never fires |
| Alerts.TriggeredMonotone | crypto_bot.py:248-253 | an "above" alert that fires at p fires at every higher price, and a "below" alert at every lower price |
| Alerts.AddAlert | crypto_bot.py:796-809 | NotFound exactly for an unlisted asset, and then nothing changes; an answer without a "usd" price raises after the entry is created, so the user's alerts are unchanged but the user has an entry; a priced answer appends exactly the alert; other users are untouched |
| Alerts.CreateAlert | crypto_bot.py:780-809 | an unknown direction is Invalid and changes nothing; otherwise an unlisted asset is NotFound and changes nothing; an asset listed without a "usd" price raises and stores no alert; a priced asset gets exactly one alert appended, with the resolved id, the target and the lower-cased direction; other users are untouched |
| Alerts.RaisedCreateStoresNothing | crypto_bot.py:801-804 | a raising `/alert` leaves an existing entry as it was, and leaves a new user with only an empty entry |
| Alerts.CreatedAlertHasKnownDirection | crypto_bot.py:788-809 | every alert `/alert` stores has direction "above" or "below" |
| Alerts.DeleteAlert | crypto_bot.py:860-869 | succeeds exactly when 1 <= n <= the list length; removes the n-th alert and keeps the others in order (multiset minus that alert); drops the entry once it is empty; otherwise NotFound and nothing changes |
| Alerts.CreateThenDeleteRestores | crypto_bot.py:780-869 | deleting the alert just created (its number is the new length) restores the table when the user had no entry or a non-empty one; an empty entry is dropped instead |
| Alerts.KeptRemovedPartition | crypto_bot.py:237-260 | during a sweep, each alert of the snapshot is either kept or removed: the two multisets add up to the snapshot |
| Alerts.RemovedAreFired | crypto_bot.py:243-258 | every removed alert had a price, triggered, and had its notification delivered |
| Alerts.KeptAreUnfired | crypto_bot.py:243-260 | every kept alert lacked a price, did not trigger, or its delivery failed |
| Alerts.SweepPrefixPartition | crypto_bot.py:237-260 | part-way through a user's sweep, the live list holds exactly the kept alerts plus those not yet visited (as a multiset) |
| Alerts.SweepPrefixStep | crypto_bot.py:255-258 | each visited snapshot alert is still in the live list, and the step removes its first occurrence exactly when it fired |
| Alerts.SweepUserPartition | crypto_bot.py:237-260 | after the sweep, a user's remaining alerts plus the removed ones are exactly the original list; the sweep never adds an alert |
| Alerts.SweepTableShrinks | crypto_bot.py:237-260 | a sweep keeps every user's entry (an emptied list stays as an empty entry) and only removes alerts |
| Alerts.SweepSomeStep | crypto_bot.py:237 | sweeping one more user changes only that user's entry |
| Alerts.SweepSomeEnds | crypto_bot.py:237 | with no user swept the table is unchanged; with every user swept it is the full sweep |
| Alerts.NotFiredIsKept | crypto_bot.py:243-260 | an alert that did not fire is among the kept ones |
| Alerts.SweepKeepsUnfired | crypto_bot.py:243-260 | an alert without a price, below its trigger, or whose send failed is still present after the sweep |
| Alerts.QuietSweepChangesNothing | crypto_bot.py:243-260 | when no alert fires, the list is unchanged |
| Alerts.SweepStopsWithoutQuotes | crypto_bot.py:243-245 | once the quotes hold no key for a user's alerts from position n on, the list stays as it was after the first n alerts; this is the state a tick that raises at line 245 leaves |
| Alerts.KeptExcludesLater | crypto_bot.py:238 | on a list without repeats, an alert not yet visited is not among the kept ones |
| Alerts.SweepStepOrdered | crypto_bot.py:238-258 | on a list without repeats, one step keeps the live list equal to the kept alerts followed by the unvisited ones |
| Alerts.SweepPrefixOrdered | crypto_bot.py:238-258 | on a list without repeats, the sweep keeps exactly the unfired alerts, in their original order |
| Alerts.FiredNotKept | crypto_bot.py:255-258 | on a list without repeats, an alert that fired is not among the kept ones |
| Alerts.SweepDropsFired | crypto_bot.py:255-258 | on a list without repeats, a delivered alert is gone after the sweep |
| Alerts.BitcoinAlertWaits | crypto_bot.py:248-249 | bitcoin above 50000 does not fire at 48000, and the table is unchanged |
| Alerts.BitcoinAlertFiresOnce | crypto_bot.py:248-258 | at 50500 with the notification delivered, the alert is removed and the user keeps an empty entry |
| Alerts.EmptyEntryStaysEmpty | crypto_bot.py:237-238 | an emptied entry stays empty on later sweeps, so nothing is notified twice |
| Alerts.BitcoinAlertUndelivered | crypto_bot.py:256-260 | when sending fails, the triggered alert stays for the next tick |
| Portfolio.AddHolding | crypto_bot.py:646-660 | an unlisted asset is NotFound and changes nothing; otherwise the amount is added to the held quantity, or becomes it; the user's other assets and other users are untouched; the table stays without empty entries |
| Portfolio.AddHoldingAdditive | crypto_bot.py:657-660 | adding a and then b to an asset equals adding a + b once |
| Portfolio.RemoveHolding | crypto_bot.py:680-686 | NotFound exactly when the asset is not held, and then nothing changes; otherwise the whole entry for the asset goes, and the user's entry is dropped once it is empty; other users are untouched; no empty entries remain |
| Portfolio.AddThenRemoveRestores | crypto_bot.py:646-686 | removing an asset added for the first time restores the table |
| Favorites.AddFavorite | crypto_bot.py:730-745 | unlisted is NotFound, already present is AlreadyPresent, and both change nothing; otherwise the asset is appended; other users are untouched; entries stay non-empty and without repeats |
| Favorites.AddFavoriteIdempotent | crypto_bot.py:741-745 | a second add of the same asset reports it as present and changes nothing, so the asset occurs once |
| Favorites.RemoveFavorite | crypto_bot.py:758-766 | NotFound exactly when the asset is not in the list, and then nothing changes; otherwise its first occurrence is removed, the others keep their order, and the entry is dropped once empty |
| Favorites.RemoveFavoriteWellFormed | crypto_bot.py:760-766 | `/unfav` keeps entries non-empty and without repeats, and afterwards the asset is no longer a favorite |
| Favorites.AddThenRemoveRestores | crypto_bot.py:730-766 | removing a favorite added for the first time restores the table |
| Payments.NatToString | crypto_bot.py:919 | the decimal text of a number is non-empty and all digits |
| Payments.ParseIntToString | crypto_bot.py:919 | reading back the decimal text of an integer gives the integer |
| Payments.Payload | crypto_bot.py:919 | every payload starts with "deposit_" |
| Payments.SplitAtSeparator | crypto_bot.py:919 | cutting at the first "_" recovers both parts when the first part has no "_" |
| Payments.PayloadInjective | crypto_bot.py:919 | two payloads are equal only for the same user and the same second |
| Payments.Truncate | crypto_bot.py:921 | `int()` of a float truncates toward zero: within one unit below a non-negative value and within one unit above a negative one |
| Payments.MinorUnitsRoundTrip | crypto_bot.py:921-970 | converting a tiyin total to sum and back gives the same total |
| Payments.ToMinorUnitsTruncates | crypto_bot.py:921 | a non-negative amount loses less than one tiyin, and nothing when it is a whole number of tiyin |
| Payments.Deposit | crypto_bot.py:889-935 | each refusal holds exactly under its condition (no token; amount <= 0; below 1000; above 10,000,000); an invoice is issued exactly for a configured token and 1000 <= amount <= 10,000,000, with the payload for that user and second and a total between 100000 and 1000000000 tiyin that is within one tiyin of the amount |
| Payments.DepositBoundaries | crypto_bot.py:909-921 | 999 is refused, 1000 and 10,000,000 are accepted, 10,000,001 is refused, 1234.56 is invoiced as 123456 tiyin |
| Payments.PreCheckout | crypto_bot.py:950-959 | WrongPaymentType exactly when the prefix is missing; Approve exactly when the prefix is present and the answer was sent |
| Payments.IssuedInvoicePassesPreCheckout | crypto_bot.py:919-955 | every invoice `/deposit` issues passes the pre-checkout check |
| Payments.CreditPayment | crypto_bot.py:963-975 | without a payment nothing changes; otherwise the payer's balance, 0 if absent, grows by total/100 and other users are untouched |
| Payments.CreditNeverDecreases | crypto_bot.py:970-975 | a non-negative payment lowers nobody's balance |
| Payments.CreditAllAddsSum | crypto_bot.py:963-975 | a series of payments adds exactly the sum of their totals, in sum, to the payer's balance |
| Payments.PaidDepositCreditsAmount | crypto_bot.py:889-975 | paying an issued invoice credits the requested amount less under one tiyin, and exactly that amount when it is a whole number of tiyin |
| Store.UserStore.constructor | crypto_bot.py:47-50 | a fresh process has four empty tables |
| Store.UserStore.CreateAlert | crypto_bot.py:780-809 | updates the alert table and returns the outcome exactly as Alerts.CreateAlert, including the raising path; the other tables are unchanged |
| Store.UserStore.AddAlert | crypto_bot.py:796-809 | the in-place update for a resolved alert equals Alerts.AddAlert |
| Store.UserStore.EnsureAlertEntry | crypto_bot.py:801-802 | gives the user an empty list when they have none, and changes nothing else |
| Store.UserStore.AppendAlert | crypto_bot.py:801-809 | appends the alert to the user's list, creating the list if needed, and changes nothing else |
| Store.UserStore.DeleteAlert | crypto_bot.py:860-869 | updates the alert table and returns the outcome exactly as Alerts.DeleteAlert; the other tables are unchanged |
| Store.UserStore.AddToPortfolio | crypto_bot.py:638-660 | resolves the input and updates the portfolio exactly as Portfolio.AddHolding; the other tables are unchanged |
| Store.UserStore.AddHolding | crypto_bot.py:649-660 | the in-place update for a resolved id equals Portfolio.AddHolding and keeps the table free of empty entries |
| Store.UserStore.RemoveFromPortfolio | crypto_bot.py:676-686 | resolves the input and updates the portfolio exactly as Portfolio.RemoveHolding |
| Store.UserStore.RemoveHolding | crypto_bot.py:680-686 | the in-place update for a resolved id equals Portfolio.RemoveHolding |
| Store.UserStore.AddFavorite | crypto_bot.py:728-745 | resolves the input and updates the favorites exactly as Favorites.AddFavorite |
| Store.UserStore.AddFavoriteId | crypto_bot.py:733-745 | the in-place update for a resolved id equals Favorites.AddFavorite and keeps entries repeat-free |
| Store.UserStore.RemoveFavorite | crypto_bot.py:756-766 | resolves the input and updates the favorites exactly as Favorites.RemoveFavorite |
| Store.UserStore.RemoveFavoriteId | crypto_bot.py:760-766 | the in-place update for a resolved id equals Favorites.RemoveFavorite and keeps entries non-empty and repeat-free |
| Store.UserStore.Balance | crypto_bot.py:878-879 | returns the stored balance, and 0 for a user without one |
| Store.UserStore.SuccessfulPayment | crypto_bot.py:963-975 | updates the balance table exactly as Payments.CreditPayment; a non-negative payment does not lower the payer's balance |
| Store.UserStore.CheckAlerts | crypto_bot.py:235-260 | after visiting every user in any order, the alert table equals Alerts.SweepTable of the old table; the other tables are unchanged |
| Store.UserStore.SweepUserAlerts | crypto_bot.py:238-260 | replaces one user's list with that user's sweep result and changes nothing else |
| Store.SweepList | crypto_bot.py:238-260 | the loop over the snapshot, with removal from the live copy, yields exactly Alerts.SweepUser |

## Left out

- Network and chat I/O (the price service, Telegram replies, invoices) is outside the model. Each answer the core depends on is a parameter: `listed`, `lookup`, `Quotes`, `Deliveries`, `approvalSent`, `configured`.
- The clock is the `timestamp` parameter.
- Prices, amounts and balances are exact `real`s. Binary floating point is not modelled, so `int(amount * 100)` can differ from the model by one tiyin when the product rounds just below an integer.
- Argument parsing (`isdigit`, `float()`, missing arguments) happens before any table is touched and is not modelled. The handlers take the parsed values, and `/top` and `/history` take `Option<nat>`.
- Lower-casing covers ASCII letters only; Python's `str.lower` also folds other scripts.
- Message texts, emoji, formatting and logging are not modelled.
- The read-only commands (`/start`, `/help`, `/price`, `/rates`, `/market`, `/search`, `/exchange`, `/news`, `/alerts`, `/portfolio`, `/favorites`, and the data fetch of `/top`, `/history` and `/feargreed`) only format service answers or table contents. Only their argument rules are modelled.
- Store.UserStore.CheckAlerts: each user's walk is one atomic step. In the source, other handlers can run during the job's `await` at line 257. If `/delalert` drops a user's key or `/alert` adds a new user then, the `user_alerts.items()` loop at line 237 raises `RuntimeError` and the rest of the tick is skipped. That interleaving is not modelled. (An alert that `/delalert` already took out makes `list.remove` raise `ValueError`, which lines 259-260 catch and log like a failed send, so nothing changes.)
- Store.UserStore.CheckAlerts: an answer that lists an asset without a "usd" price makes line 245 raise `KeyError`, which ends the whole tick. The model has no separate abort: such a tick is the sweep whose `Quotes` has no key for any alert the tick had not reached (SweepStopsWithoutQuotes), since alerts without a quote change nothing.
- Store.UserStore.CheckAlerts: users are visited in an unspecified order rather than dict insertion order. Users are independent, so the final table is the same.
- Alerts.SweepPrefixOrdered: keeping the original order, and removing every delivered alert, is proved only for lists without repeated alerts. With duplicates, `list.remove` deletes an earlier equal copy, and only the multiset statements hold.
- Payments.Deposit: a failing `send_invoice` only produces an error reply and changes no state, so it is not modelled.
- Payments.PreCheckout: the source checks only the prefix. Nothing ties a payment to an issued invoice or rejects a repeated confirmation, and the model keeps that.
- The source does not check that a target price, a holding amount or a payment total is positive. The model keeps that; CreditNeverDecreases therefore requires a non-negative total.
- Lists that `check_alerts` empties, and the entry a raising `/alert` creates, are kept as empty entries, as in the source. `/delalert` would then report any number as not found.
- Each alert costs one price request (line 243), and the model indexes quotes by (user, position). The source batches nothing, so two alerts for the same asset may see different prices.
