# Vinted deal-hunting bot: a Dafny model of the scan, dedupe, evaluate and notify pipeline

The bot polls the Vinted catalog for searches that Discord users register. It checks each listing against a profit rule and messages the user about good deals. A global set of already-notified item ids keeps the same listing from being sent twice. The repository has two variants, and both are modelled:

- `bot_ultime.py`: the full bot. It has the profit rule (`check_profit`), the `seen_items` dedup set and how `send_notification` writes to it, and one run of the 5-minute scanner (`vinted_scanner`). It also has the per-user search registry `user_searches`, with the `/add`, `/list`, `/remove` and `/stats` commands.
- main.py: the simpler scraper bot. It has the page filter of `search_vinted` and one pass of `vinted_loop`, whose dedup key is `title + str(price)`.

Files:

| file | module | what it holds |
|---|---|---|
| `wrappers.dfy` | `Wrappers` | `Option` (Python's `None`-or-value) |
| `decimal.dfy` | `Decimal` | `str(n)` for integers, with its inverse |
| `profit.dfy` | `Profit` | items, searches, deals, `check_profit` |
| `ordered_dict.dfy` | `OrderedDict` | Python's insertion-ordered `dict`, as key/value pairs |
| `registry.dfy` | `Registry` | `user_searches` as class `SearchRegistry`, and the commands |
| `scanner.dfy` | `Scanner` | class `VintedBot` (`seen_items`, `scan_count`), the notification write-back, the scan cycle and its specification |
| `scraper.dfy` | `Scraper` | `main.py`: the filter, one loop pass, class `Announcer` (`sent_items`) |

The external world is modelled as parameters:

- `fetch(k)` is what the k-th catalog request of a cycle returned. It is empty when the request failed.
- `deliver(k)` is how the k-th `send_notification` of a cycle ended (`Delivery`).
- `pages(i)` is the page of extracted boxes (title, price text, link) for the i-th search of a `main.py` pass.
- `parse` stands for Python's `float` on the cleaned price text.
- `show` stands for `str` on a price.
- `now` stands for `int(time.time())`.

Prices, margins and profits are exact `real`s, an idealisation of the Python floats.

## Behaviour worth knowing

The model keeps these details of the code exactly as written:

- **When an id is marked seen.** `send_notification` adds the id after a direct message, and also when the user lookup returns a falsy user. It also adds it when the direct message fails and there is no text channel to fall back to. It does not add it when the user lookup or the fallback send raises.
- **When a cycle is skipped.** `vinted_scanner` tests only that no user entry exists. A user whose searches were all removed keeps an empty dict, so the cycle still runs and `scan_count` still goes up, with zero catalog requests.
- **Price parsing in `main.py`.** The price text only loses "€", is stripped and goes to `float`, so a decimal-comma price like "12,50" is skipped.
- **Fee and retention.** The 2 € fee and the 0.87 retention rate are hard-coded in `check_profit`; they are the constants `FixedFee` and `ResaleRetention`.
- **A deal can be lost to another user.** The seen set is shared by all users. When one user's search notifies an item and marks it seen, another user's search that finds the same item later in the cycle gets no notification.

## Model

| member | source | states |
|---|---|---|
| `Decimal.NatToString` | bot_ultime.py:204 | `str(int(time.time()))`: at least one character, all decimal digits, no leading zero |
| `Decimal.NatToStringRoundTrip` | bot_ultime.py:204 | reading the digits back gives the number (round trip) |
| `Decimal.NatToStringInjective` | bot_ultime.py:204 | distinct seconds render as distinct strings |
| `Decimal.IntToString` | bot_ultime.py:126 | `str(id)`: a leading minus exactly for negative ids, digits otherwise |
| `Decimal.IntToStringInjective` | bot_ultime.py:126 | distinct ids render as distinct strings |
| `Profit.PriceOf` | bot_ultime.py:110 | `float(item.get('price', 0))`: an absent price reads as 0; an unparsable one gives no price (the conversion raises) |
| `Profit.EstimatedProfit` | bot_ultime.py:117 | the estimated resale profit: resale at price × margin, keeping 87 %, minus the price paid and the 2 € fee |
| `Profit.Qualifies` | bot_ultime.py:116-119 | the price is at most the search's ceiling and the estimated profit at least its minimum |
| `Profit.WorthBuying` | bot_ultime.py:110-119 | the item's price converts and meets `Qualifies` for the search |
| `Profit.DealFor` | bot_ultime.py:121-128 | the deal dictionary for an item: its id and parsed price, the profit, the 80-character title, the item page and the search name |
| `Profit.Truncate` | bot_ultime.py:111 | `s[:n]` is a prefix of `s` of length at most n, all of `s` when short enough |
| `Profit.DisplayTitle` | bot_ultime.py:111 | the deal title is a prefix of the item title, at most 80 characters; empty when the title is absent |
| `Profit.ItemUrl` | bot_ultime.py:126 | the deal URL is the item-page prefix followed by the id |
| `Profit.ItemUrlInjective` | bot_ultime.py:126 | different ids give different item URLs |
| `Profit.CheckProfit` | bot_ultime.py:107-131 | no deal for a seen id whatever the price; no deal for an unparsable price; otherwise a deal exactly when the item is `WorthBuying` (price <= max_price and price*margin*0.87 - price - 2 >= min_profit); the deal returned is `DealFor` the item and search |
| `Profit.SeenOnlySuppresses` | bot_ultime.py:113-114 | a larger seen set never creates or changes a deal, it only removes them |
| `Profit.WorkedExample` | bot_ultime.py:117-119 | price 20 at margin 1.8 gives 9.32: a deal at min_profit 8, none at 10 |
| `Profit.NoDealWithoutMarkup` | bot_ultime.py:116-119 | with margin*0.87 <= 1, a non-negative price is never a deal while min_profit > -2 |
| `Profit.ProfitMonotoneInMargin` | bot_ultime.py:117 | a larger margin never lowers the estimated profit of a non-negative price |
| `OrderedDict.Keys` | bot_ultime.py:257 | `list(d.keys())` in insertion order |
| `OrderedDict.Values` | bot_ultime.py:254 | `list(d.values())` in insertion order |
| `OrderedDict.Get` | bot_ultime.py:250 | a value is found exactly for a present key, and it is a stored pair |
| `OrderedDict.Put` | bot_ultime.py:205 | `d[k] = v`: a present key keeps its place and the other keys stay; a new key is appended; afterwards `k` maps to `v` and every other key to its old value |
| `OrderedDict.PutTwice` | bot_ultime.py:201-205 | assigning a key twice is the same as assigning it once with the second value |
| `OrderedDict.DeleteAt` | bot_ultime.py:258 | `del d[keys[i]]` removes exactly the i-th pair; keys stay distinct and the deleted key is gone |
| `Registry.SearchKeyOf` | bot_ultime.py:204 | the key is the name, `_`, then the digits of the second |
| `Registry.SearchKeyInjective` | bot_ultime.py:204-205 | two `/add`s share a key (so the later overwrites) exactly when they have the same name and second |
| `Registry.SearchesOf` | bot_ultime.py:250-254 | an unknown user has no searches |
| `Registry.ListOf` | bot_ultime.py:234 | the user's searches, as `user_searches[user].values()` lists them: insertion order, none for an unknown user |
| `Registry.SearchCount` | bot_ultime.py:270 | `sum(len(searches) for searches in user_searches.values())` |
| `Registry.AddSearch` | bot_ultime.py:201-211 | the registry after `/add`: the user's dict created when missing, then the search stored under its key |
| `Registry.RemoveSearch` | bot_ultime.py:250-258 | the registry after `/remove n`: the n-th key of the user's dict deleted when 1 <= n <= len, otherwise unchanged |
| `Registry.AddSearchEffect` | bot_ultime.py:201-211 | `/add` creates the user's dict if needed and stores the search under its key. A new key is appended to the user's list and adds one to the total; an existing key keeps list length and total. Other users are untouched |
| `Registry.RemoveSearchEffect` | bot_ultime.py:250-263 | `/remove n` with 1 <= n <= len deletes exactly the n-th search in list order, keeps the user's (possibly empty) dict, and lowers the total by one. Out of range or an unknown user changes nothing. Other users are untouched |
| `Registry.SearchRegistry.constructor` | bot_ultime.py:29 | the registry starts empty |
| `Registry.SearchRegistry.Add` | bot_ultime.py:196-211 | the new registry is `AddSearch` with key `name_second`, min_profit 8, and margin 1.8 when none is given |
| `Registry.SearchRegistry.List` | bot_ultime.py:223-241 | "no searches" exactly when the user has none; otherwise line i+1 shows the i-th search's name, keywords and max price |
| `Registry.SearchRegistry.Remove` | bot_ultime.py:245-263 | the new registry is `RemoveSearch`. The reply is "no searches" for an unknown user, the removed search's name for a valid number, and "invalid number" otherwise |
| `Registry.SearchRegistry.TotalSearches` | bot_ultime.py:270 | the `/stats` total is the sum of the users' search counts |
| `Scanner.Head` | bot_ultime.py:174 | `items[:3]`: a prefix of at most 3 items, exactly 3 when there are enough |
| `Scanner.MarksSeen` | bot_ultime.py:146-159 | whether `send_notification` reaches `seen_items.add`: every ending except a raising user lookup or a raising fallback send |
| `Scanner.Jobs` | bot_ultime.py:170-171 | the searches the nested loops visit, with their owners: user by user in registry order, each user's in insertion order |
| `Scanner.Evaluate` | bot_ultime.py:175-179 | one item: `check_profit` against the current seen set; a deal is delivered and recorded, and its id is added when the delivery `MarksSeen` |
| `Scanner.EvaluateAll` | bot_ultime.py:174-179 | the items of one response, first to last, each against the seen set left by the ones before |
| `Scanner.RunJobs` | bot_ultime.py:170-179 | the whole cycle: search k is evaluated on the first 3 items of the k-th catalog response, in `Jobs` order |
| `Scanner.JobsOf` | bot_ultime.py:171 | one job per search of the user, in insertion order |
| `Scanner.CycleDedup` | bot_ultime.py:170-177 | during a cycle the seen set only grows, and by exactly the ids whose delivery marked them. No notification is for an id seen at the start. After an id is marked, no later notification of the cycle, for any user, is for it |
| `Scanner.CycleAttemptBound` | bot_ultime.py:170-178 | a cycle over n searches makes at most 3n notification attempts |
| `Scanner.OnlyHeadsEvaluated` | bot_ultime.py:174 | two sources that agree on the first 3 items of every response give the same cycle |
| `Scanner.CycleSound` | bot_ultime.py:170-177 | every notification goes to the owner of a registered search, for one of the first 3 items returned for it. It carries the fields and meets the profit rule of `check_profit` for that search |
| `Scanner.CycleComplete` | bot_ultime.py:170-179 | no deal is lost. Take the state `at` of the cycle when a head item is evaluated. If the item is worth buying for its search, then at least one holds: its id was seen before the cycle; a notification made before `at` (for any user) marked the id; or the very next notification carries the item's deal to the search's owner. The notifications up to `at` stay in the cycle's result |
| `Scanner.RequestsPerCycle` | bot_ultime.py:170-172 | a cycle makes one catalog request per registered search, as many as the `/stats` total |
| `Scanner.JobsAppend` | bot_ultime.py:170-171 | searches are visited user by user in registry order, each user's in insertion order |
| `Scanner.VintedBot.constructor` | bot_ultime.py:37-38 | the seen set starts empty and the scan counter at 0 |
| `Scanner.VintedBot.SendNotification` | bot_ultime.py:133-159 | the id is added after a direct send, a falsy user, a fallback send, or no fallback channel. The set is unchanged when the lookup or the fallback raises. Ids are never removed |
| `Scanner.VintedBot.ScanUser` | bot_ultime.py:171-181 | one user's searches in insertion order, one request each: the queried searches and the cycle state continue `RunJobs` past that user's block |
| `Scanner.VintedBot.EvaluateResponse` | bot_ultime.py:174-179 | evaluating one response's first 3 items, against the seen set as it is at each step, is `EvaluateAll` |
| `Scanner.VintedBot.ScanCycle` | bot_ultime.py:161-187 | with no user the cycle is skipped and nothing changes. Otherwise it makes one request per search in registry order, the new seen set and notifications are `RunJobs` of the cycle, and the counter goes up by exactly 1 |
| `Scanner.VintedBot.Stats` | bot_ultime.py:267-276 | `/stats` reports the user count, the search total (= requests per cycle), the scan counter and the seen-set size |
| `Scraper.RemoveChar` | main.py:28 | `replace("€", "")` leaves no "€" and never lengthens the text |
| `Scraper.RemoveCharAbsent` | main.py:28 | a text without "€" is left unchanged |
| `Scraper.RemoveCharKeepsOthers` | main.py:28 | every other character survives and none is added |
| `Scraper.RemoveCharAppend` | main.py:28 | removal works piece by piece: on a concatenation it is the concatenation of the removals, so the order of the other characters is kept |
| `Scraper.RemoveCharCounts` | main.py:28 | every other character is kept exactly as often as it occurs; every "€" goes |
| `Scraper.Strip` | main.py:28 | `strip()`: leading and trailing whitespace removed (characterised by `StripSpec`) |
| `Scraper.CleanPrice` | main.py:28 | the text handed to `float`: the price text without "€", stripped |
| `Scraper.StripSpec` | main.py:28 | `strip()` keeps a middle part of the text; all that is cut off is whitespace, and the result has no whitespace at either end |
| `Scraper.Accept` | main.py:27-37 | a box is kept exactly when its cleaned price parses and is at most the ceiling. The result has the box's title, the parsed price and the site-rooted link |
| `Scraper.Keep` | main.py:25-37 | never more results than boxes |
| `Scraper.KeepAppend` | main.py:25-37 | the filter keeps page order: filtering two parts and joining them is filtering the whole |
| `Scraper.KeepSingle` | main.py:30-37 | one box gives one result when accepted and none otherwise; an unparsable price is skipped, never read as 0 |
| `Scraper.KeepSound` | main.py:30-37 | every result comes from an accepted box and is priced at most the ceiling |
| `Scraper.Filtered` | main.py:26-39 | what `search_vinted` returns: the accepted results among the first 10 boxes, in page order |
| `Scraper.FilteredCap` | main.py:26 | nothing after the 10th box affects the result |
| `Scraper.FilteredBounds` | main.py:26-37 | at most 10 results, each priced at most `max_price` |
| `Scraper.SearchVinted` | main.py:20-39 | the loop with `continue` on a parse failure returns exactly `Filtered` of the page |
| `Scraper.Uid` | main.py:54 | the dedup key `title + str(price)` |
| `Scraper.Offer` | main.py:54-63 | one result: announced, and its key added, exactly when the key is not yet in `sent_items` |
| `Scraper.OfferAll` | main.py:53-63 | the results of one search, first to last |
| `Scraper.RunPass` | main.py:50-63 | one pass: the searches in order, each on the results of its page |
| `Scraper.PassDedup` | main.py:53-63 | after a pass every result's key is in `sent_items`, which never shrinks. A message is sent only for a key not yet announced. Results sharing a key, from the same search or different ones, give at most one message. `sent_items` grows by exactly the keys of the messages sent, so every result whose key was new is announced |
| `Scraper.OfferAllSound` | main.py:53-63 | handling one search's results only appends messages, each for one of those results under that search's name |
| `Scraper.PassSound` | main.py:50-63 | every message of a pass reports a result that one of the pass's searches found, under that search's name; earlier messages are kept |
| `Scraper.PassMessageBound` | main.py:50-63 | a pass sends at most 10 messages per search |
| `Scraper.ConfiguredPassBound` | main.py:11-15 | with the three configured searches, a pass sends at most 30 messages |
| `Scraper.Announcer.constructor` | main.py:47 | `sent_items` starts empty |
| `Scraper.Announcer.Pass` | main.py:50-63 | one pass of the loop body over `SEARCHES` leaves `sent_items` and the messages sent as `RunPass` describes |

## Left out

- Discord plumbing is not modelled: intents, command sync, `on_ready`, the startup embed, embed and message text, `fetch_user`, channel lookup. A delivery is the abstract outcome `Delivery`.
- HTTP and scraping are not modelled: request parameters, user agent, status codes, JSON decoding, BeautifulSoup selectors. The catalog is the `fetch`/`pages` oracle. The remote `per_page` and `price_to` filters are part of that oracle.
- Timing and randomness are not modelled: `asyncio.sleep` pacing, `random.uniform` delays, the 5-minute `tasks.loop` and the 45-second `while True`. Each is one cycle or one pass; the bot objects keep their state across calls.
- Concurrency is not modelled. In the source a command can change `user_searches` while a cycle is suspended in a sleep, and Python then raises "dictionary changed size during iteration", which ends the scanner task. The model runs a cycle without interleaving.
- Float formatting and rounding, the `float` parser and `str(price)` are left out. They are the oracles `parse` and `show`.
- Profit.CheckProfit: uses exact real arithmetic, so a float rounding error that moves a profit across `min_profit` is not modelled.
- Profit.DisplayTitle: a title that is present but not a string (which makes `check_profit` raise and return nothing) is not modelled. A title is either a string or absent.
- Scraper.SearchVinted: `search_vinted` can raise, and in `main.py` nothing catches that, so the loop ends. This happens when `requests.get` fails (a transport error or timeout), when a box has no image or no price span, and when a box whose price was accepted has no enclosing link (`item.parent["href"]` is only read then). The model takes each fetched page and its extracted boxes as given.
- Scraper.Announcer.Pass: a failing `channel.send` ends the loop in the source. The model takes every send as successful.
- Token loading, exit on a missing token, and the `__main__` launchers are I/O and are not modelled.
- Log output and the `new_deals` counter are not modelled. The counter is only printed; it equals the number of notifications the cycle returns.
