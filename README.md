# Tap-to-earn game backend: authentication check and coin ledger

This project models the core of a Flask backend for a "tap-to-earn" game played in a Telegram mini-app. The model covers:

- the Telegram Web App init-data check `verify_telegram_data`;
- the identity parse that every authenticated handler repeats;
- the five balance-changing handlers: tap, upgrade, daily reward, referral signup and withdrawal;
- the two read projections: user profile with referral count, and the top-100 leaderboard;
- the database rows of `models.py`, with their defaults and constraints, and the constants of `config.py`.

Modules, leaves first:

- `Wrappers`: `Option` and `Result`.
- `Strings`: Python's `str.split` with a one-character separator, `sep.join`, `split(sep, 1)`, `replace`, and the string ordering `list.sort()` uses. A reference insertion sort `SortLex` is proved to be the unique sorted permutation.
- `Lists`: the comprehension `[g(x) for x in xs if p(x)]` as a filter-map.
- `LexSort`: `data_pairs.sort()` as an in-place insertion sort on an `array`. It is proved sorted, a permutation, and equal to `SortLex` of the old contents.
- `InitData`: `verify_telegram_data` as a method with a `for` loop that fills `data_dict` and `hash_str`. The method is proved equal to a specification predicate `Authentic`. Lemmas relate `Authentic` to the last `hash` value, the check string, tampering and reordering.
- `Identity`: the handlers' dict comprehension (`pair.split('=')[0]` and `[1]`) and the decoding of the `user` field.
- `Models`: the five tables' rows as datatypes, the column defaults, and the unique constraints.
- `Rules`: upgrade cost, the tap rate limit, the calendar-date daily check, and the row update each accepted action makes. Lemmas cover runs of taps and claims: at most ten accepted taps per second, and at most one reward per UTC date.
- `Queries`: `filter_by(...).first()`, the referral count, `get_user` and the leaderboard.
- `Ledger`: a `Store` class whose fields are the five tables. It has one method per write handler. Each method states the whole new state, the conditions for refusal and for acceptance, that a refusal changes nothing, and the exact change in the coin total. All of them keep the store invariant `Valid()`.
- `Api`: the endpoints. Tap, upgrade, daily and withdrawal run verify, then parse, then lookup, then the ledger step. Referral runs verify, then parse, then the ledger step, with no lookup of the caller. None reaches the ledger unless the payload verifies. Each endpoint states the ledger step's outcome and new state, and which tables stay unchanged.
- `ReferralAsWritten`: the referral handler exactly as written (see Findings).

Modelling choices:

- Time is an integer count of microseconds since the epoch, UTC, passed in as `now`.
- A user's id is the row's position in the users table, which only grows.
- The bot token and the crypto primitives are parameters. These are UTF-8 encoding, SHA-256, and HMAC-SHA-256 rendered as hex.
- JSON decoding of the `user` field is an abstract partial function parameter.

The model follows the code wherever it departs from the game's intended design:

- The daily reward compares UTC calendar dates (`last_daily_claim.date() == now.date()`), not a rolling 24-hour window. There is no next-eligible time.
- The withdrawal handler does not validate the payout method or the address. A missing one only breaks the NOT NULL columns when the commit runs, and the whole request is rolled back.
- The referral handler has no "already registered" check. Only the unique constraint on `telegram_id` (or on the new code) makes the commit fail, and then nothing changes.
- A referred user's code is `telegram_id[:8]`, and nothing else keeps codes unique.
- The tap handler returns only the new balance.
- The check string sorts the rendered `key=value` strings, not the keys, so the key `a!` comes before the key `a`.
- The check returns false for an empty `hash` value as well as a missing one (`if not hash_str`).
- The identity parse works on the payload as received, without the quote replacement the check does. It cuts every value at its second `=` and fails on a token without `=`.

## Model

| member | source | states |
|---|---|---|
| Models.NewUser | models.py:4-15 | A new user has 0 coins, tap power 1, no claim or tap time, joins at `now`, and keeps the given id, code and referrer. |
| Models.NewReferral | models.py:23-28 | A new referral row is not yet rewarded. |
| Models.NewWithdrawal | models.py:30-37 | A new withdrawal request starts in status `Pending`. |
| Models.InsertKeepsUnique | models.py:6-11 | Adding a row that clashes with no telegram id and no present code keeps both unique constraints. |
| Models.Insertable | models.py:6-11 | A new row can be committed exactly when no stored user has its `telegram_id` and, if its code is not NULL, none has its `referral_code`. Otherwise the commit raises `IntegrityError`. |
| Strings.Split | app.py:22 | `str.split(c)` never returns an empty list. |
| Strings.SplitPiecesFree | app.py:22 | No piece of a split holds the separator. |
| Strings.SplitSingleIff | app.py:53 | A split has one piece exactly when the separator does not occur. |
| Strings.JoinSplit | app.py:22 | Joining the pieces of a split with the separator gives back the string. |
| Strings.SplitJoin | app.py:22 | Splitting a join of separator-free pieces gives back the pieces. |
| Strings.SplitAtFirst | app.py:27 | A split is the text before the first separator followed by the split of the rest. |
| Strings.SplitAbsent | app.py:22 | A string without the separator splits into itself. |
| Strings.SplitConcat | app.py:22 | Splitting `a + c + b` splits `a` and `b` separately. |
| Strings.Join | app.py:37 | `sep.join(parts)`: the pieces in order with `sep` between neighbours, `""` for no pieces. `JoinSplit`, `SplitJoin` and `JoinAvoids` relate it to `Split`. |
| Strings.IndexOf | app.py:27 | The position found holds the separator and none comes before it. |
| Strings.SplitOnce | app.py:27 | `split('=', 1)` gives the key and the value around the first `=`, and the key has no `=`. |
| Strings.ReplaceChar | app.py:20 | `replace("'", '"')` keeps the length and swaps exactly the quote characters. |
| Strings.ReplaceAbsent | app.py:20 | Replacing an absent character changes nothing. |
| Strings.ReplaceConcat | app.py:20 | Replacing distributes over concatenation. |
| Strings.JoinAvoids | app.py:37 | A character absent from the pieces and the separator is absent from the join. |
| Strings.Le | app.py:36 | The string order `list.sort()` uses: code point by code point, with a proper prefix first. `LeTotal`, `LeAntisymmetric` and `LeTransitive` show it is a total order. |
| Strings.LeTotal | app.py:36 | Python's string order is total. |
| Strings.LeAntisymmetric | app.py:36 | Python's string order is antisymmetric. |
| Strings.LeTransitive | app.py:36 | Python's string order is transitive. |
| Strings.SortedPairwise | app.py:36 | In a sorted list every string is at most every later one. |
| Strings.SortedUnique | app.py:36 | Two sorted lists with the same strings are equal, so the sort's result is determined. |
| Strings.Insert | app.py:36 | Inserting into a sorted list keeps it sorted and adds exactly one copy of the string. |
| Strings.SortLex | app.py:36 | The reference sort is sorted and a permutation of its input. |
| Strings.SortLexPermutation | app.py:36 | Lists with the same strings sort to the same list. |
| Lists.FilterMap | app.py:35 | `[g(x) for x in xs if p(x)]` with one option-valued `f`: the values `f` yields, in input order. `FilterMapConcat` and `FilterMapPermutation` relate it to concatenation and reordering. |
| Lists.FilterMapConcat | app.py:35 | The comprehension distributes over concatenation. |
| Lists.FilterMapPermutation | app.py:35 | Reordering a comprehension's input reorders its output. |
| LexSort.SinkInto | app.py:36 | One insertion step leaves a longer sorted prefix and permutes the array. |
| LexSort.SortInPlace | app.py:36 | `data_pairs.sort()` leaves the array sorted, a permutation of its old contents, and equal to `SortLex` of them. |
| InitData.Get | app.py:28-30 | `d.get(k)` is `None` exactly when no item has key `k`, and a found value is an item of `d`. |
| InitData.Put | app.py:28 | After `d[k] = v`, `k` maps to `v`, every other key keeps its value, and a new key goes last. |
| InitData.PutKeysFrom | app.py:28 | `d[k] = v` adds no key other than `k`. |
| InitData.PutKeysDistinct | app.py:28 | `d[k] = v` keeps the dict's keys distinct. |
| InitData.GetIffIn | app.py:28 | In a dict, `d.get(k) == v` exactly when `(k, v)` is an item. |
| InitData.ParseToken | app.py:26-27 | A token parses exactly when it holds `=`; it is key, `=`, value, with no `=` in the key. |
| InitData.Entries | app.py:25-28 | The `(key, value)` items the loop assigns, in token order: one for each token holding `=`, none for the others. |
| InitData.DataDict | app.py:23-28 | The loop's `data_dict` has distinct keys, none containing `=`. |
| InitData.Tokens | app.py:20-22 | The payload with every `'` replaced by `"`, split at `&`. |
| InitData.LastValue | app.py:25-30 | The value of the last parsing token whose key is `k`, `None` when there is none: what `hash_str` ends as for `k = "hash"`. `LastValueAbsent` and `LastValueIsLastToken` characterise it. |
| InitData.RenderPair | app.py:35 | An item `(k, v)` renders as `k=v`, except that the `hash` item is dropped. |
| InitData.DataPairs | app.py:35 | The rendered items of the dict in insertion order, `hash` left out. `InDataPairs` states membership in both directions. |
| InitData.CheckString | app.py:35-37 | The rendered items of the loop's dict, sorted and joined with newlines. `CheckStringItems` and `CheckStringItemShape` state its items. |
| InitData.Signature | app.py:39-40 | The hex HMAC-SHA-256 of the UTF-8 check string under the SHA-256 of the UTF-8 bot token. |
| InitData.Accepts | app.py:32-42 | For the tokens: the last `hash` value is present, not empty, and equal to the signature of the check string. `AcceptsIff` and `RejectsWithoutHash` restate it from the two sides. |
| InitData.Authentic | app.py:19-42 | `Accepts` of the payload's tokens after the quote replacement. `VerifyTelegramData` is proved to compute it. |
| InitData.VerifyTelegramData | app.py:19-42 | The method returns exactly the verdict `Authentic` of the payload, for the given bot token and crypto primitives. |
| InitData.DataDictIsLastValue | app.py:25-30 | For every key, the dict holds the value of the last token with that key. |
| InitData.LastValueAbsent | app.py:29-30 | No `hash` value is found exactly when no token has key `hash`. |
| InitData.LastValueIsLastToken | app.py:29-30 | The value found is that of the last token with the key. |
| InitData.RejectsWithoutHash | app.py:32-33 | Without a `hash` token the payload is rejected. |
| InitData.AcceptsIff | app.py:32-42 | Given the last `hash` token, the payload is accepted exactly when that value is non-empty and equals the HMAC hex of the check string. |
| InitData.InDataPairs | app.py:35 | A string is in `data_pairs` exactly when a non-hash item renders to it. |
| InitData.RenderInjective | app.py:35 | `key=value` with `=`-free keys determines the key and the value. |
| InitData.CheckStringItems | app.py:35-37 | The check string is the sorted newline join, and `k=v` is one of its items exactly when `v` is the last value of the non-hash key `k`. |
| InitData.CheckStringItemShape | app.py:35-37 | Every item of the check string is `k=v` for a non-hash key `k` whose last value is `v`. |
| InitData.SortsRenderedStringsNotKeys | app.py:35-36 | The sort orders whole rendered strings: `a!=2` comes before `a=1` although `a` comes before `a!`. |
| InitData.DataPairsIgnoreHash | app.py:35 | Setting the `hash` entry leaves `data_pairs` unchanged. |
| InitData.HashTokenParses | app.py:26-27 | The token `hash=h` parses to key `hash` and value `h`. |
| InitData.HashDeterminedByRest | app.py:35-42 | With the other tokens fixed, at most one trailing hash value verifies. |
| InitData.TokensWithHash | app.py:20-22 | Appending `&hash=h` to a payload appends exactly one token. |
| InitData.TamperedHashRejected | app.py:19-42 | Changing only the trailing hash of a verified payload makes it fail. |
| InitData.DataDictOfDistinct | app.py:25-28 | With distinct keys, the dict holds the tokens' items in order. |
| InitData.DistinctPermutation | app.py:28 | A permutation of items with distinct keys has distinct keys. |
| InitData.GetPermutation | app.py:28 | Two dicts with the same items answer every lookup alike. |
| InitData.CheckStringPermutation | app.py:22-42 | Reordering tokens with distinct keys changes neither the check string, nor the hash found, nor the verdict. |
| InitData.ReorderKeepsVerdict | app.py:19-42 | Reordering the `&`-free pairs of a payload keeps the verdict, whenever the keys the verifier sees after the quote replacement are distinct. This includes pairs holding `'`. |
| InitData.Requoted | app.py:20 | One pair with every `'` replaced by `"`. |
| InitData.RequotePieces | app.py:20 | Requoting a list of pairs keeps their number and requotes each one. |
| InitData.ReplaceJoin | app.py:20-22 | Replacing quotes in a join of pairs is the join of the requoted pairs. |
| InitData.TokensOfJoin | app.py:20-22 | The tokens of a join of `&`-free pairs are exactly those pairs, requoted. |
| Identity.PiecesOfToken | app.py:53 | For a token with `=`, `split('=')[0]` is the verifier's key and `[1]` is the verifier's value cut at its next `=`. |
| Identity.HandlerDictFailsIff | app.py:53 | The handlers' comprehension raises exactly when some token has no `=`, and then with the index error. |
| Identity.HandlerDictTruncates | app.py:53 | When it succeeds, each key holds the last value for it, cut at its second `=`. |
| Identity.HandlerDictAgreesWithVerifier | app.py:53 | On tokens with exactly one `=` each, the handlers' dict equals the verifier's dict. |
| Identity.ResolveUserDecodesTruncated | app.py:53-55 | The identity is decoded from the last `user` value, truncated at its second `=`. |
| Identity.UserValueCutAtEquals | app.py:53-55 | The token `user=a=b` verifies with value `a=b`, but the handlers see `a`. |
| Identity.HandlerDict | app.py:53 | The handlers' comprehension: for each token in order, `split('=')[0]` maps to `split('=')[1]`, and a token with no `=` raises `IndexError`. `HandlerDictFailsIff` and `HandlerDictTruncates` characterise it. |
| Identity.FromUserField | app.py:54-55 | A missing `user` value raises in `json.loads`, an undecodable one raises, a decoded one without `id` raises `KeyError`; otherwise the caller is the `id` with `username` and `photo_url`. |
| Identity.Truncated | app.py:53 | A value cut before its first `=`: what `split('=')[1]` keeps of a verifier value. |
| Identity.ResolveUser | app.py:53-55 | The payload as received, split at `&`, through `HandlerDict` and then `FromUserField` of its `user` entry. `ResolveUserDecodesTruncated` says which text reaches the decoder. |
| Rules.Pow2 | app.py:94 | `2 ** n` is at least 1. |
| Rules.UpgradeCost | app.py:94 | The next level's price is at least 100 coins. |
| Rules.UpgradeCostDoubles | app.py:94 | Level 1 costs 100, and each level costs twice the previous one. |
| Rules.CostOfUpgradesClosedForm | app.py:94-111 | Buying `n` levels from power `p` costs `UpgradeCost(p) * (2^n - 1)`. |
| Rules.CodeFor | app.py:176 | The referral code `telegram_id[:8]` is a prefix of the id: exactly its first 8 characters for ids of 8 or more, and the whole id for shorter ones. |
| Rules.TapRateLimited | app.py:63 | A tap is refused exactly when a last tap exists and lies less than 100000 µs before `now`. |
| Rules.UtcDate | app.py:139-140 | The UTC calendar date of a time: its microseconds divided by one day, floored. `UtcDateMonotone` shows it never goes back. |
| Rules.ClaimedToday | app.py:138-141 | A claim is refused exactly when a last claim exists and falls on the UTC date of `now`. |
| Rules.Tapped | app.py:71-72 | The user after an accepted tap: coins grow by the tap power, `last_tap` becomes `now`, nothing else changes. |
| Rules.Upgraded | app.py:100-111 | The user after an accepted upgrade: coins drop by `UpgradeCost`, the tap power rises by one, nothing else changes. |
| Rules.Claimed | app.py:144-145 | The user after an accepted claim: coins grow by 1000, `last_daily_claim` becomes `now`, nothing else changes. |
| Rules.Credited | app.py:189 | A user whose balance grows by an amount, nothing else changing. |
| Rules.Emptied | app.py:231 | A user whose balance becomes 0, nothing else changing. |
| Rules.Referred | app.py:172-190 | The new referred user: the column defaults with the given Telegram id, username, avatar, code `telegram_id[:8]` and referrer, holding the 500-coin bonus. |
| Rules.TotalCoinsUpdate | app.py:71 | Replacing one row changes the coin total by that row's change. |
| Rules.TotalCoinsAppend | app.py:179 | Adding a row adds its balance to the total. |
| Rules.TotalWithdrawnAppend | app.py:228 | Adding a withdrawal adds its amount to the withdrawn total. |
| Rules.TotalCoinsNonNegative | models.py:9 | With no negative balance, the total is not negative. |
| Rules.TapAllEarns | app.py:61-73 | A run of taps never changes the tap power and earns it once per accepted tap. |
| Rules.AcceptedTapsSpaced | app.py:63 | Accepted taps are at least 0.1 s apart, after the previous tap, and taken from the taps made. |
| Rules.SpacedSpan | app.py:63 | `n` spaced taps span at least `n - 1` intervals. |
| Rules.AtMostTenTapsPerSecond | app.py:61-64 | Within any one second at most ten taps are accepted. |
| Rules.CoinsPerSecondBounded | app.py:61-71 | One second of tapping earns at most ten times the tap power. |
| Rules.UtcDateMonotone | app.py:139-140 | A later time never has an earlier UTC date. |
| Rules.ClaimDatesIncrease | app.py:138-145 | As the clock advances, each accepted claim falls on a later UTC date than the previous one. |
| Rules.ClaimAllEarns | app.py:138-145 | A run of claims pays `DAILY_REWARD` once per accepted claim. |
| Rules.ClaimAfterADayAccepted | app.py:138-141 | A claim a full day or more after the last one is always accepted. |
| Rules.ClaimsAcrossMidnight | app.py:138-141 | Two claims a microsecond apart either side of midnight UTC are both paid. |
| Queries.FirstWhere | app.py:57 | `.first()` returns the lowest matching row, and `None` exactly when no row matches. |
| Queries.FindByTelegramId | app.py:57 | The user found holds the telegram id, and `None` means no user does. |
| Queries.FindByReferralCode | app.py:167 | The first user holding the code (`None` filters `IS NULL`), and `None` exactly when no user holds it. |
| Queries.FindByTelegramIdUnique | models.py:6 | With unique ids, the lookup finds exactly the row holding the id. |
| Queries.FindByReferralCodeUnique | models.py:11 | With unique codes, a present code finds exactly the row holding it. |
| Queries.ReferralCount | app.py:246 | The referral count is at most the number of referral rows. |
| Queries.ReferralCountIsRowCount | app.py:246 | The referral count is the number of rows naming the user as referrer. |
| Queries.ReferralCountAppend | app.py:182-186 | A new referral row raises its referrer's count by one and no one else's. |
| Queries.GetUser | app.py:239-256 | The profile is `NotFound` exactly when no user has the id; otherwise it reports a user with that id and their referral count. |
| Queries.GetUserOfStored | app.py:239-256 | With unique ids, a stored user's profile reports their own row and referral count. |
| Queries.ProfileOf | app.py:248-256 | The profile a lookup returns: username, avatar, coins, tap power, the given referral count, join time and last claim. |
| Queries.InsertByCoins | app.py:260 | Inserting by coins keeps the list descending and adds one copy of the user. |
| Queries.RankByCoins | app.py:260 | `order_by(coins.desc())` is descending in coins and a permutation of the users. |
| Queries.Leaderboard | app.py:258-268 | The board has `min(100, number of users)` entries, in descending order of coins. |
| Queries.LeaderboardIsTop | app.py:260-266 | The board projects username, coins and tap power of existing users, and no user left off has more coins than any user on it. |
| Queries.EntryOf | app.py:262-266 | A leaderboard entry: the user's username, coins and tap power. |
| Ledger.GrowsKeepsRecords | models.py:23-48 | The log tables stay valid as the users table grows. |
| Ledger.RowValid | models.py:9-12 | A user row has a non-negative balance and a tap power of at least 1. If it has a referrer, that is an earlier row, the foreign key of line 12. If it has a code, the code fits the `String(10)` column. |
| Ledger.UsersValid | models.py:4-15 | Every user row is valid, and `telegram_id` and the non-NULL `referral_code` are unique, as lines 6 and 11 declare. |
| Ledger.ReferralsValid | models.py:23-26 | Every referral row names an existing referrer and an existing, later referred user whose `referrer_id` is that referrer. There is at most one row per referred user, added in order. |
| Ledger.WithdrawalsValid | models.py:30-36 | Every withdrawal row names an existing user, is `Pending`, and is for at least 50000 coins. |
| Ledger.TapsValid | models.py:39-41 | Every tap row names an existing user: the foreign key of line 41. |
| Ledger.UpgradesValid | models.py:44-48 | Every upgrade row names an existing user, a level from 2 up to the user's current tap power, and the price of the level below it. |
| Ledger.Store.Valid | models.py:4-48 | The store invariant: all five tables valid together. Every `Store` method keeps it. |
| Ledger.WithdrawalsAppend | models.py:30-37 | A pending request of at least the minimum by an existing user keeps the withdrawals table valid. |
| Ledger.UpdateKeepsUsersValid | models.py:6-11 | Changing one row's balance, power or times, within bounds, keeps the users table valid. |
| Ledger.WithdrawKeepsValid | app.py:221-231 | Emptying a balance of at least 50000 into one pending withdrawal keeps every table valid and moves the whole amount from coins to withdrawn. |
| Ledger.JoinKeepsValid | app.py:172-190 | A referred user joining keeps the users and referrals tables valid and adds twice the bonus to the total. |
| Ledger.ReferralKeepsValid | app.py:172-192 | A signup keeps all five tables valid, adds 1000 to the total, and raises only the referrer's referral count, by one. |
| Ledger.Store.constructor | models.py:4-49 | A store of given users and no activity is valid. |
| Ledger.Store.HandleTap | app.py:61-75 | Refused with `TapTooFast` and no change exactly when the last tap was under 0.1 s ago. Otherwise coins grow by the tap power, `last_tap = now`, one Tap row is added, the new balance is returned, and the total grows by the tap power. |
| Ledger.Store.HandleUpgrade | app.py:93-117 | Refused with no change exactly when coins are below `100 * 2^(power-1)`. Otherwise coins drop by that cost, power rises by one, an Upgrade row with the new level and cost is added, and power and coins are returned. |
| Ledger.Store.ClaimDailyReward | app.py:135-151 | Refused with no change exactly when the last claim is on today's UTC date. Otherwise coins grow by 1000 and `last_daily_claim = now`, and the balance and time are returned. |
| Ledger.Store.HandleReferral | app.py:166-197 | Refused with `InvalidReferralCode` and no change exactly when no user holds the code. Refused with `IntegrityError` and no change exactly when the code is found but the new user clashes with a unique constraint. Accepted exactly otherwise: the new user is added with code `telegram_id[:8]`, the referrer and 500 coins; the referrer gains 500; one referral row links them; only the referrer's count rises, by one; the total grows by 1000; and the other tables are unchanged. |
| Ledger.Store.HandleWithdrawal | app.py:217-237 | Refused with `BelowWithdrawalMinimum` and no change exactly below 50000 coins, and with `IntegrityError` and no change exactly when the balance suffices but the method or address is missing. Accepted exactly when the balance is at least 50000 and both are present: then one pending withdrawal of the whole balance is added, the balance becomes 0, 0 is returned, coins plus withdrawn stay constant, and the other tables are unchanged. |
| Ledger.ValidTotalNonNegative | models.py:9 | In a valid store the total of balances is not negative. |
| Ledger.ReferrerCounted | app.py:246 | Every referral row's referrer has at least one referral counted. |
| Api.Claimant | app.py:159-164 | An identity is produced only for an authentic payload, and is `InvalidTelegramData` exactly when the payload is not authentic. |
| Api.Caller | app.py:48-59 | The caller is a stored user with the payload's telegram id; it is `UserNotFound` exactly when none has it, and `InvalidTelegramData` exactly when the payload is not authentic. |
| Api.CallerIsTheUser | app.py:53-59 | With unique ids, a verified payload speaks for exactly the row holding its id. |
| Api.UnsignedPayloadRefused | app.py:50-51 | A payload with no `hash` token never reaches the ledger. |
| Api.Identify | app.py:159-164 | The check and the parse compute `Claimant`. |
| Api.Authenticate | app.py:47-59 | The check, the parse and the lookup compute `Caller`. |
| Api.TapEndpoint | app.py:45-75 | Authentication failures change nothing. For the caller: refused with no change exactly when the last tap was under 0.1 s ago; otherwise the caller's row becomes `Tapped`, one `Tap(id, now)` row is appended and the new balance is returned. Referrals, withdrawals and upgrades never change. |
| Api.UpgradeEndpoint | app.py:77-117 | Authentication failures change nothing. For the caller: refused with no change exactly when coins are below the cost; otherwise the row becomes `Upgraded`, one Upgrade row with the new level and the cost is appended, and power and coins are returned. Referrals, withdrawals and taps never change. |
| Api.DailyEndpoint | app.py:119-151 | Authentication failures change nothing. For the caller: refused with no change exactly when the last claim is on today's UTC date; otherwise the row becomes `Claimed` and the balance and time are returned. Referrals, withdrawals, taps and upgrades never change. |
| Api.ReferralEndpoint | app.py:153-197 | Verify and parse, with no lookup of the caller. An unverified payload or a parse failure changes nothing. For a verified caller: `InvalidReferralCode` exactly when no user holds the code, `IntegrityError` exactly when the code is found but the referred user clashes with a unique constraint, and success exactly otherwise. Any refusal changes nothing. Success credits the referrer, appends the referred user and one referral row, and returns 500. Withdrawals, taps and upgrades never change. |
| Api.WithdrawEndpoint | app.py:199-237 | Authentication failures change nothing. For the caller: `BelowWithdrawalMinimum` exactly below 50000 coins, `IntegrityError` exactly when the method or address is missing, and success exactly otherwise; success empties the balance into one pending request and returns 0. Referrals, taps and upgrades never change. |
| ReferralAsWritten.AsWritten | app.py:166-197 | The referral handler line by line, reading the new user's `id` and `coins` attributes from a parameter. An unknown code gives 400. A `None` balance raises at line 190. At the commit, a unique clash or a `None` `referred_id` (NOT NULL, models.py:26) fails. Otherwise the referrer is credited, the new user and one referral row are stored, and the new user's balance is returned. |
| ReferralAsWritten.AsWrittenNeverCommits | app.py:172-192 | As written, the referral handler never commits, and with a valid code it raises at line 190. |
| ReferralAsWritten.FlushedMatchesLedger | app.py:166-197 | Given the attributes a flush would assign, the handler as written gives exactly the ledger's result. |

## Left out

- SHA-256, HMAC and hex rendering are the abstract functions of a `Crypto` value. So are the UTF-8 encoding of the bot token and check string. Their internals are not modelled.
- InitData.TamperedHashRejected: covers only changing the hash itself. Detecting a change to any other field's value rests on HMAC collision resistance, which the abstract primitives cannot express.
- The bot token (config.py:7) is a parameter, not an environment lookup. The other settings in config.py:4-6 are left out.
- `json.loads` of the `user` field is an abstract partial function. It yields an optional `id` already rendered by `str(...)`, an optional `username` and an optional `photo_url`.
- Flask routing, `request.json`, `jsonify` and HTTP status codes are not modelled. Outcomes are result datatypes. A missing `init_data` (`None`), which makes `replace` raise before any check, is not modelled.
- SQLAlchemy sessions, `commit` and rollback are not modelled. Each method is all-or-nothing: a commit that would break a unique or NOT NULL constraint is the `IntegrityError` result, with no change.
- Concurrency, row locking and lost-update races are not modelled: the source does none, and the model is sequential.
- `datetime.utcnow()` is the `now` parameter. Row timestamps (`joined_at`, `requested_at`, `Tap.timestamp` and the others) take that same `now`, not the slightly later time of the INSERT.
- The float comparison `total_seconds() < 0.1` is the integer comparison of microseconds against 100000.
- Column lengths (`String(80)`, `String(50)`, `String(200)`, `String(20)`) are not enforced, because SQLite does not enforce them. The database's integer width is not modelled, so balances and `2 ** (tap_power - 1)` are unbounded.
- Queries.Leaderboard: the order among users with equal coins is whatever order the database returns. The model fixes one such order, and the contract states only the descending order of coins.
- Queries.FindByReferralCode: `.first()` with no `ORDER BY` is modelled as the lowest row id, the order in which SQLite scans the table.
- The recursion of `Queries.RankByCoins` stands for the database's sort, and no sort algorithm of the source is claimed.
- There is no registration path other than referral (the first user cannot join through the API). The store is therefore built from a valid seed of users (`Ledger.Store.constructor`).
- The relationships of models.py:18-21 and the foreign keys are represented by the store invariants on user ids, not by navigation.
- Api.ReferralEndpoint: its outcome for a found code is that of the corrected ledger step `Ledger.Store.HandleReferral`. As written, a found code always raises at app.py:190 and nothing commits (see Findings and `ReferralAsWritten`).
- Ledger.Store.HandleReferral: models the intended behaviour of app.py:172-190, with the new user's id and `coins` as a flush would assign them. The code as written is in `ReferralAsWritten` (see Findings).

## Findings

| source | as written | input that shows it | evidently intended | confidence | as-written member | corrected member |
|---|---|---|---|---|---|---|
| app.py:172-190 | The new `User` is only added to the session, never flushed, before its attributes are read. `new_user.id` is `None` at line 184, and `new_user.coins` is `None` at line 190, so `None += 500` raises `TypeError` and nothing is committed. | Any verified payload with a `referral_code` that some user holds. | The new user is stored with 500 coins, the referrer gains 500, and a referral row links the referrer to the new user's id. | not executed | ReferralAsWritten.AsWrittenNeverCommits | Ledger.Store.HandleReferral |
