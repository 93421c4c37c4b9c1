# Splitwise settlement, modelled in Dafny

This project models the settlement core of a small expense-sharing app. Every
user has a wallet with a balance.

Recording an expense (`Expense.save`) checks that the payer's wallet covers
the amount. If it does, the payer is debited; if not, the expense is refused
with "Insufficient funds".

An expense sharing (`ExpenseSharing.shared_value`) works in three steps:

1. It divides the expense among the selected users, by one of three methods:
   - EQUAL: each user's share is the amount over the number of users plus one.
   - EXACT: the `values` text lists one amount per user.
   - PERCENT: the `values` text lists one percentage of the amount per user.
2. It builds a two-level ledger. For each user it holds the entry "user owes
   payer" and the mirror entry "payer is owed by user".
3. It settles the users in order. A user whose wallet holds enough pays the
   payer, and both mirror entries become `Paid`.

Amounts are exact reals. Wallets are a map from user to balance. The ledger
is a map from (row, column) pairs to entries.

Modules:

- `Wrappers`: the `Option` and `Result` types.
- `Values`: reading the `values` text. Spaces are removed, the text is split
  on commas, and each piece is read as a decimal number.
- `Allocation`: the entities, plus the shares under each method and the
  exceptions raised while computing them.
- `Settlement`: the ledger, the allocation and settlement loops stated round
  by round as functions, and what they amount to in closed form.
- `Models`: the wallet and expense tables as a class (`Store`). Its methods
  carry the loops of the source, proved against the specification functions.
  The module also holds the end-to-end properties and the worked examples.

## Model

| member | source | states |
|---|---|---|
| Values.StripSpaces | splitwise/models.py:102 | the result has no space and keeps every other character with its multiplicity |
| Values.StripSpacesAppend | splitwise/models.py:102 | removing spaces distributes over concatenation, so the order of what remains is kept |
| Values.StripSpacesIdentity | splitwise/models.py:132 | a text without spaces is unchanged, so removing spaces is idempotent |
| Values.Split | splitwise/models.py:102 | splitting on commas gives one more piece than there are commas, and no piece holds a comma |
| Values.JoinSplit | splitwise/models.py:102 | the pieces joined back with commas are the original text |
| Values.SplitJoin | splitwise/models.py:132 | comma-free pieces joined with commas split back into exactly those pieces |
| Values.ParseDecimal | splitwise/models.py:102 | a piece reads only when it is non-empty and holds no comma and no space; its partners `ParseDigits` and `FormatCentsRoundTrip` say what such pieces read as |
| Values.Parse | splitwise/models.py:101-102 | the same reading serves PERCENT at lines 131-132; a readable text gives one number more than its space-free form has commas; an unreadable text reports a comma-free piece that does not read |
| Values.ParseDigits | splitwise/models.py:101-102 | a piece made only of digits reads as the whole number it spells |
| Values.FormatCentsRoundTrip | splitwise/models.py:101-102 | an amount written with two decimal places, optionally negative, reads back as that amount |
| Values.ParseAll | splitwise/models.py:101-102 | on success, one number per piece in order, each what its piece reads as; on failure, the reported piece is the first unreadable one |
| Values.ParseCount | splitwise/models.py:101-105 | a readable `values` text gives exactly one number more than it has commas |
| Values.ParseFormatted | splitwise/models.py:131-132 | amounts written with two decimals and trailing spaces, joined by commas, read back as the amounts |
| Values.OccurrencesIsMultiplicity | splitwise/models.py:102 | counting commas agrees with the multiset count |
| Allocation.EqualShare | splitwise/models.py:78 | the share times the number of users plus one is exactly the amount (no rounding) |
| Allocation.Shares | splitwise/models.py:76-154 | on success there is exactly one share per selected user |
| Allocation.ParsedValues | splitwise/models.py:101-102 | as also at lines 130-132: a missing text is `MissingValues`; any other failure names a piece that does not read; on success there is one number more than the text has commas |
| Allocation.Percentage | splitwise/models.py:132 | 100 percent is the whole amount, 0 percent (or a zero amount) is nothing, and a percentage between 0 and 100 of a non-negative amount lies between 0 and the amount |
| Allocation.Scaled | splitwise/models.py:131-132 | one share per percentage read, and a user given 100 percent is charged the whole amount; `PercentIsScaledExact` ties each share to the EXACT value |
| Allocation.SettlementAmount | splitwise/models.py:156-160 | `split_amount` as last set at line 78, 109 or 139: under EQUAL the amount settled with is the equal share (times the users plus one it is the expense amount); under EXACT/PERCENT it is the last user's share |
| Allocation.EqualSharesIdentical | splitwise/models.py:76-97 | EQUAL never fails and gives every user the identical share amount/(N+1); N shares plus the payer's retained portion make the amount |
| Allocation.ValuesMatchUsers | splitwise/models.py:99-136 | EXACT/PERCENT succeed if and only if `values` is present, reads, and has one number per user; a missing text, an unreadable piece and a count mismatch each give their own error; EXACT shares are the numbers read |
| Allocation.CommaPerUser | splitwise/models.py:101-105 | when the text reads, the count check passes if and only if the text has one comma fewer than there are users |
| Allocation.NoUsersNoSplit | splitwise/models.py:101-105 | EXACT/PERCENT with no selected user always fails, because any text has at least one piece |
| Allocation.PercentIsScaledExact | splitwise/models.py:129-136 | PERCENT fails exactly when EXACT on the same text fails, with the same error; otherwise each share is the EXACT value /100 * amount |
| Allocation.SettlementAmountIsLastShare | splitwise/models.py:156-160 | the amount every user is settled with is the last user's share |
| Allocation.ExactExample | splitwise/models.py:99-127 | values "30,60" give shares 30 and 60 whatever the amount (the sum is not checked), and settle with 60 |
| Settlement.Allocate | splitwise/models.py:80-154 | the ledger has exactly both mirror keys of every selected user |
| Settlement.AllocateEntries | splitwise/models.py:80-154 | before settlement both mirror entries of every user carry that user's share and status `Unpaid`; only the EQUAL mirror summary leaves the payer unnamed |
| Settlement.AllocateStep | splitwise/models.py:107-127 | one round of the allocation loop adds the two entries of the next user to those of the previous users |
| Settlement.SettleOne | splitwise/models.py:157-171 | one round: the user is debited the amount exactly when the balance covers it, the payer gains what the user lost, the two balances keep their sum, no other wallet changes, and only the user's two mirror entries are marked `Paid` with the paid summaries, exactly when the user paid |
| Settlement.SettleOneConserves | splitwise/models.py:159-164 | one round leaves the total over any distinct accounts holding the user and the payer unchanged |
| Settlement.DistinctPrefix | splitwise/models.py:156 | dropping the last of distinct users leaves distinct users that exclude the dropped one |
| Settlement.Settle | splitwise/models.py:156-171 | settlement keeps the set of wallets and the set of ledger keys |
| Settlement.SettleStep | splitwise/models.py:156-171 | one round of the settlement loop settles the next user on top of the previous rounds |
| Settlement.SettleBalances | splitwise/models.py:156-164 | each user is debited their amount exactly when their starting balance covers it; the payer gains the total paid; no other wallet changes |
| Settlement.SettleBalance | splitwise/models.py:158-162 | a user's final balance depends only on their own starting balance and amount |
| Settlement.SettlePayer | splitwise/models.py:163-164 | the payer ends with the starting balance plus the amounts actually paid; wallets outside the sharing stay as they were |
| Settlement.SettleEntries | splitwise/models.py:166-171 | both mirror entries of a user become `Paid` with a paid summary exactly when that user paid, keeping `split_amount`; other entries are unchanged |
| Settlement.SettleEntry | splitwise/models.py:166-171 | the same, for one user |
| Settlement.SettleOthers | splitwise/models.py:156-171 | entries outside the selected users' pairs are untouched |
| Settlement.ShortfallIsolated | splitwise/models.py:156-171 | changing another user's starting balance changes neither this user's final balance nor their entries |
| Settlement.SumUpdate | splitwise/models.py:160-163 | changing one balance changes the total of distinct accounts by the same amount |
| Settlement.SettleConserves | splitwise/models.py:159-164 | the total balance over the payer and the selected users is unchanged by settlement |
| Settlement.PaidTotalNonNegative | splitwise/models.py:163 | with non-negative amounts, the payer's gain is non-negative |
| Settlement.SettleNonNegative | splitwise/models.py:159-164 | settlement never drives a selected user below zero; the payer does not lose money when no amount is negative |
| Settlement.SettleTwo | splitwise/models.py:156 | settling two users is settling the first and then the second |
| Settlement.NegativeAmountOverdrawsPayer | splitwise/models.py:159-164 | with a negative amount the payer is the one debited and can go below zero, because no sign is checked |
| Models.RecordExpense | splitwise/models.py:39-46 | the expense is refused with InsufficientFunds exactly when the balance is below the amount; otherwise the payer is debited by exactly the amount and stays non-negative, and no other wallet changes |
| Models.RecordExpenseTotal | splitwise/models.py:43-44 | recording an expense lowers the total of the wallets by exactly the amount |
| Models.Store.SaveExpense | splitwise/models.py:39-46 | on refusal, the wallets and the saved expenses are unchanged; otherwise the wallets are what `RecordExpense` gives and the expense is appended |
| Models.Store.constructor | splitwise/models.py:20-22 | the store starts with the given wallets and no expenses |
| Models.SharedValueOf | splitwise/models.py:69-173 | `shared_value` fails exactly when computing the shares fails, and then no wallet changes; it keeps the set of wallets; on success the ledger holds exactly both mirror keys of every selected user; `SharedValueOutcome`, `SharedValueConserves` and `SharedValueNonNegative` state the balances and entries |
| Models.SharedValueFailsCleanly | splitwise/models.py:99-136 | `shared_value` raises exactly when computing the shares fails, with that error, and no wallet has changed |
| Models.SharedValueOutcome | splitwise/models.py:69-173 | the ledger has both mirror entries of every user and nothing else, and no entry for the payer with themselves; each entry keeps the user's own share; a user is `Paid` and debited the settlement amount exactly when their balance covers it; the payer gains what was paid |
| Models.SharedValueConserves | splitwise/models.py:156-171 | `shared_value` conserves the total balance over the payer and the selected users |
| Models.SharedValueNonNegative | splitwise/models.py:159-164 | `shared_value` never overdraws a selected user, nor the payer when the settlement amount is non-negative |
| Models.EqualExample | splitwise/models.py:39-97 | payer 100 records 40 and keeps 60; split EQUAL with one user holding 50, the share is 20; afterwards the user has 30, the payer 80, and both entries are `Paid` |
| Models.ReevaluationPaysAgain | splitwise/models.py:69-173 | reading `shared_value` again debits the user again and again reports `Paid`, so settlement is not idempotent |
| Models.StaleAmountExample | splitwise/models.py:156-160 | as written, with EXACT "30,60" a first user holding 40 stays `Unpaid` although the 30 owed was covered, and the second user pays 60 |
| Models.IntendedSharedValueOf | splitwise/models.py:156-171 | the corrected settlement, with each user settled against their own share |
| Models.IntendedSettlesOwnShare | splitwise/models.py:156-171 | corrected: each user is debited their own share exactly when it is covered, both entries are then `Paid`, and money is conserved |
| Models.IntendedExample | splitwise/models.py:156-171 | corrected, on the same example the first user pays their own 30 and ends with 10 |
| Models.IntendedRounds | splitwise/models.py:156-171 | corrected, the two rounds on the example wallets leave 90, 10 and 40 and mark the first user's entry `Paid` |
| Models.StaleRounds | splitwise/models.py:156-164 | as written, the two rounds on the example wallets against 60 leave 60, 40 and 40 and leave the first user's entry as it was |
| Models.Store.SharedValue | splitwise/models.py:69-173 | the returned ledger or error and the new wallets are those of `SharedValueOf`; the saved expenses are unchanged |
| Models.Store.IntendedSharedValue | splitwise/models.py:156-171 | the corrected method: ledger or error and new wallets are those of `IntendedSharedValueOf` |
| Models.Store.SettleUsers | splitwise/models.py:156-171 | the settlement loop leaves the wallets and ledger given by `Settle` |
| Models.Store.SettleUser | splitwise/models.py:157-171 | one round leaves the wallets and ledger given by `SettleOne` |
| Models.AllocateLedger | splitwise/models.py:80-154 | the allocation loop builds exactly the ledger `Allocate` describes |

## Left out

- Decimal arithmetic is modelled with exact reals. The 28-significant-digit context (which rounds the EQUAL quotient) is not modelled. Neither are the database limits `max_digits=10` and `decimal_places=2`.
- Values.ParseDecimal: reads only `[sign]digits[.digits]`, `[sign].digits` and `[sign]digits.`. Python's `Decimal` also accepts exponents, `Infinity`, `NaN`, underscores between digits, and surrounding whitespace other than the space character. The model reports all of these as an unreadable piece.
- Database access is not modelled: `Wallet.objects.get`, `.save()`, transaction ids, timestamps, titles and descriptions. A wallet's existence is taken as a precondition; `User.save` creates one for every user (splitwise/models.py:15-17). The `DoesNotExist` error for a missing wallet is therefore not modelled.
- Summary texts are a `Summary` value naming the debtor, the optional creditor and the amount, not the formatted string. `__str__` methods are not modelled.
- Models.Store.SharedValue: requires distinct selected users and that the payer is not among them. The many-to-many relation yields each user row once, but the model identifies users by username. With the payer among the selected users, the source's two wallet objects for the same row would overwrite each other's saves, and that is not modelled.
- Models.Store.SharedValue: takes the iteration order of `split_with.all()` as the given sequence.
- Models.Store.SharedValue: assumes usernames are unique. The source keys wallets by user row (splitwise/models.py:158) but the ledger by username, and `username` is not unique (splitwise/models.py:9). When two selected users share a username, the source debits both wallets, but the second user's entries overwrite the first user's single ledger pair (splitwise/models.py:118-127, 145-154). The model does not capture that case.
- Values.ParseDecimal: accepts only the ASCII digits 0-9. Python's `Decimal` also accepts other Unicode decimal digits, such as Arabic-Indic digits; the model reports such a piece as unreadable.
- The ledger: the returned nested dictionary becomes a flat map from (row, column) pairs, so the insertion order of its keys is not kept.
- Models.Store.SaveExpense: saving an already stored expense again debits the payer again, as in the source. The model then appends a second record where the database would update the row.
- A `method` field holding text other than the three choices is `Unrecognised`. With selected users this is the `UnboundLocalError` on `split_amount`; with none, the result is an empty ledger.
- Concurrency, and failures of the database between two saves, are not modelled. The source has no locking or transactions.
- The EQUAL share is the unrounded quotient (splitwise/models.py:78), and every read of `shared_value` settles again (splitwise/models.py:69-70, 156-171). The model follows the code in both (`Allocation.EqualShare`, `Models.ReevaluationPaysAgain`).

## Findings

| source | as written | input that shows it | evidently intended | confidence | as-written member | corrected member |
|---|---|---|---|---|---|---|
| splitwise/models.py:156-160 | the settlement loop tests and moves `split_amount`, which after the EXACT/PERCENT loops (lines 109, 139) still holds the last user's share, for every user | EXACT, amount 90, values "30,60", payer 0, first user 40, second user 100: the first user stays `Unpaid` although 40 covers the 30 owed, and the payer ends with 60 | each user is tested and debited against their own share (first user pays 30, payer ends with 90) | high, not executed | Models.StaleAmountExample | Models.IntendedSettlesOwnShare |
