# Operator dashboard core, modelled in Dafny

The dashboard manages a betting site's markets and money requests for
operators. This project models the logic its pages run and proves what that
logic guarantees:

- **Market window evaluator** (`MarketWindow`). This is `parseTime` and
  `isMarketOpen`. A market stores its opening and closing times as free-form
  strings. Every non-digit is stripped from each time, and the digits are read
  as a decimal number ("10:30" becomes 1030). The result is compared with the
  clock reading `hours * 100 + minutes`. The window runs either within the same
  day or overnight.
- **Market pages** (`Markets`, `MarketPages`). These are the search filter over
  `market.name || market.id`, the fallback to the full list when a search
  matches nothing, the open/closed statistics, and the update dialog that
  writes a market's `number`. The Starline page ("button_play") and the main
  markets page ("buttons") run the same code. `MarketPage.kind` picks the
  collection.
- **Withdrawal approval workflow** (`Withdrawals`, `WithdrawalPages`).
  - The function `Workflow` states `updateRequestStatus` as a specification:
    given which remote calls fail and the operator's answers to the `confirm`
    prompts, it says how the call ends and which writes took effect, in order.
  - The method `WithdrawalPage.UpdateRequestStatus` performs the same steps
    one at a time on a `DocumentStore`. It is proved to leave the store exactly
    as applying `Workflow`'s writes does.
- **Wallet (add-money) requests** (`Wallet`, `WalletPages`). This covers the
  status write (`"Approved"` with an `approvedOn` stamp, or `"rejected"`), the
  pending count and total, and the loop of `fetchTodayApprovedAmount`. That
  loop is proved equal to a sum whose behaviour under approvals is proved
  separately.

The shared modules are `Seqs` (filter, sum, subsequence, by-id update) and
`Text` (digit stripping, decimal reading, ASCII lower-casing and trimming,
substring search).

Inputs that come from outside the program are parameters:

- the clock reading;
- the formatted date stamps;
- the search box and dialog input values;
- the operator's answers to `confirm`;
- whether each remote read or write fails.

### Line numbers for main-market-management.js

The `## Model` table cites starline-management.js for the market code.
main-market-management.js holds the same code at these lines:

| code | main-market-management.js |
|---|---|
| globals | 10-12 |
| `searchMarkets` | 15-29 |
| `clearSearch` | 32-37 |
| display fallback | 42 |
| update button | 94 |
| fetch | 107-141 |
| `isMarketOpen` | 145-162 |
| `parseTime` | 165-171 |
| `updateStats` | 174-184 |
| `openUpdateModal` | 187-194 |
| `closeUpdateModal` | 197-200 |
| `updateMarketNumber` | 203-227 |

## Model

| member | source | states |
|---|---|---|
| Text.DigitsOfNonDigits | starline-management.js:168 | a string without digits strips to the empty string |
| Text.DecimalRoundTrip | starline-management.js:169 | reading back the decimal rendering of n gives n |
| Text.ContainsIff | starline-management.js:23 | `includes` holds exactly when the term occurs at some position of the title |
| Text.TrimStart | starline-management.js:16 | trimming the start drops only leading white space, and the result starts with a non-space character |
| Text.TrimEnd | starline-management.js:16 | trimming the end drops only trailing white space, and the result ends with a non-space character |
| MarketWindow.ParseTime | starline-management.js:164-170 | an absent or empty time reads as 0, and a time made only of digits reads as its decimal value; `ParseSkipsSeparator`, `NoDigitsParsesToZero` and `ClockTextParsesToClockValue` give the rest |
| MarketWindow.IsMarketOpen | starline-management.js:144-161 | closed when either time is missing; open whenever the reading lies between the opening and the closing time; when open, the reading is at or after the opening time or at or before the closing time; `SameDayWindow`, `OvernightWindow` and `IsMarketOpenIsCyclicWindow` give it exactly |
| MarketWindow.ParseTimeExamples | starline-management.js:164-170 | "10:30", "1030" and "10-30" read as 1030; an empty, absent or digit-free time reads as 0 |
| MarketWindow.NoDigitsParsesToZero | starline-management.js:168-169 | a time without digits reads as 0, the fallback for `parseInt` of an empty string |
| MarketWindow.ParseSkipsSeparator | starline-management.js:168 | removing one non-digit character from any position of a time leaves its value unchanged |
| MarketWindow.ParseHoursAndMinutes | starline-management.js:164-170 | digits, a separator and two minute digits read as hours * 100 + minutes |
| MarketWindow.ClockTextParsesToClockValue | starline-management.js:164-170 | an "HH:MM" time reads as the clock reading of that hour and minute |
| MarketWindow.UnpaddedClockTextParsesToClockValue | starline-management.js:164-170 | an "H:MM" time without a leading zero reads the same way |
| MarketWindow.ClockValue | starline-management.js:148 | the clock reading is at most 2359, and its hundreds and its remainder are the hour and the minute |
| MarketWindow.ClockValueOrder | starline-management.js:148 | clock readings are ordered as minutes since midnight are |
| MarketWindow.MissingTimeMeansClosed | starline-management.js:145 | a market with an absent or empty time is closed at every time |
| MarketWindow.SameDayWindow | starline-management.js:154-156 | when open <= close, the market is open exactly from open to close, both ends included |
| MarketWindow.OvernightWindow | starline-management.js:158-160 | when open > close, the market is closed exactly strictly between close and open |
| MarketWindow.CyclicWindowCases | starline-management.js:154-160 | the two branches are one forward window modulo the length of a day |
| MarketWindow.IsMarketOpenIsCyclicWindow | starline-management.js:144-161 | for readings below 2400, `isMarketOpen` is exactly the wrap-around window from open to close |
| MarketWindow.OpenIffWithinMinutesWindow | starline-management.js:144-161 | for "HH:MM" times and a real clock, open exactly when the current minute lies in the window from the opening minute to the closing minute, wrapping past midnight |
| MarketWindow.OvernightBoundaryExample | starline-management.js:158-160 | a 22:00-06:00 market is open at 22:00 and 06:00 and closed at 21:59 and 06:01 |
| Markets.SelectionFor | starline-management.js:131 | the update button passes the market's id, its title, and its number, or "0" when the number is absent |
| Markets.SetNumber | starline-management.js:211-214 | the write sets `number` on the documents with the selected id and changes no other document |
| Markets.Search | starline-management.js:15-25 | an empty term keeps the list; otherwise every market kept matches the term; `SearchMembership` and `SearchIsOrderedSubset` give exactly which markets, how often and in what order |
| Markets.Displayed | starline-management.js:79 | the drawn list is the filtered list or the full list; it is empty only when both are; drawn from a subsequence of the markets, it is one too |
| Markets.Stats | starline-management.js:173-178 | the total is the number of markets, active plus closed is the total, and closed is the number of markets not open now; `StatsCountOpenMarkets` says which markets are active |
| Markets.BlankSearchYieldsAll | starline-management.js:16-19 | a search box holding only white space keeps every market, in order |
| Markets.SearchIsOrderedSubset | starline-management.js:21-24 | the search result keeps the markets in their original order |
| Markets.SearchMembership | starline-management.js:21-24 | a market is in the result exactly when it is in the list and the term occurs in its lower-cased title (the name, or the id when the name is absent or empty); it is kept as often as the list holds it |
| Markets.NoMatchDisplaysAll | starline-management.js:79 | a search that matches nothing shows the whole list |
| Markets.SomeMatchDisplaysResult | starline-management.js:79 | a search that matches a market shows exactly the search result |
| Markets.StatsConsistent | starline-management.js:173-178 | active <= total; active + closed == total; closed counts the markets that are not open |
| Markets.StatsCountOpenMarkets | starline-management.js:175-177 | every market open now is counted as active as often as the list holds it, and a market that is not open is not counted |
| Markets.StatsIndependentOfOrder | starline-management.js:173-178 | the statistics do not depend on the order of the markets, so the sort by id does not affect them |
| Markets.SetNumberKeepsStats | starline-management.js:211-214 | writing a number changes neither the total nor the open count |
| Markets.SetNumberThenSelect | starline-management.js:131 | after the write, the market's update button passes the new number |
| MarketPages.MarketPage.constructor | starline-management.js:10-12 | the page starts with no markets, an empty search result and no selection |
| MarketPages.MarketPage.Shown | starline-management.js:79 | the drawn list is an ordered subsequence of the fetched markets; it is never empty while markets exist; a non-empty search result is drawn as it is |
| MarketPages.MarketPage.CurrentStats | starline-management.js:173-183 | the total is the number of fetched markets, and active plus closed is the total |
| MarketPages.MarketPage.Fetch | starline-management.js:40-74 | a failing read leaves the page unchanged; otherwise the page holds the collection's documents and the search is reset to all of them |
| MarketPages.MarketPage.SearchMarkets | starline-management.js:15-29 | the search result becomes `Search(markets, input)` and stays an ordered subsequence of the markets |
| MarketPages.MarketPage.ClearSearch | starline-management.js:32-37 | the search result becomes the whole list |
| MarketPages.MarketPage.OpenUpdateModal | starline-management.js:186-193 | records the selection {id, name, number} |
| MarketPages.MarketPage.CloseUpdateModal | starline-management.js:196-199 | clears the selection |
| MarketPages.MarketPage.UpdateMarketNumber | starline-management.js:202-226 | with no selection, a failing write or no document with the selected id, nothing changes; otherwise the collection becomes `SetNumber` of it, the selection is cleared and the page is refetched; other collections are unchanged |
| Withdrawals.FindRequest | withdrawal-management.js:127-132 | the request found has the requested id; None only when no request has it |
| Withdrawals.BalanceStepOf | withdrawal-management.js:161-227 | a deduction happens only when the user was read and exists, the write succeeds, and the balance covers the amount or the shortfall was accepted; going on without one needs a "proceed" answer; a covering balance with no fault is always deducted |
| Withdrawals.DebitUser | withdrawal-management.js:172-174 | the user's balance (absent counts as 0) drops by the amount, as the increment here and at lines 191-193 makes it; no user is added, and every other user is unchanged |
| Withdrawals.Workflow | withdrawal-management.js:117-255 | runs that end in a read failure, a missing request or a declined prompt write nothing; rejection never deducts; the call succeeds exactly when the request is read and found, the status write succeeds and, for approval, the balance block is not cancelled; a successful run ends with the status write; `WorkflowShape` gives every run's writes |
| Withdrawals.UpdateData | withdrawal-management.js:139-159 | the write carries the new status and `updatedAt`, and carries `approvedOn` (the stamp) exactly for "Approved" |
| Withdrawals.WorkflowShape | withdrawal-management.js:117-255 | every run either stops with no writes, or writes an optional deduction of exactly the request's amount from its user and then the status; only approval deducts; a failing status write keeps a deduction already made |
| Withdrawals.MissingRequestWritesNothing | withdrawal-management.js:127-132 | a request that cannot be read or does not exist stops the call before any write |
| Withdrawals.MergeFound | withdrawal-management.js:231 | after the status write, looking the request up gives the merge of the update into it |
| Withdrawals.RejectWritesStatusOnly | withdrawal-management.js:139-142 | rejection sets status and `updatedAt` only: no `approvedOn`, no balance change |
| Withdrawals.ApprovalEffect | withdrawal-management.js:161-174 | after a deduction and the status write, the user's balance (absent counts as 0) is lower by exactly the amount and the request is Approved with both timestamps |
| Withdrawals.SufficientBalanceDeductsThenApproves | withdrawal-management.js:170-174 | with a covering balance and no failures: the deduction and then the Approved status are written |
| Withdrawals.MissingBalanceIsZero | withdrawal-management.js:167 | a user without `balance` goes through the same run as one holding 0, and ends with the same balances |
| Withdrawals.ShortfallDeclinedWritesNothing | withdrawal-management.js:176-188 | a shortfall the operator declines ends the call with nothing written |
| Withdrawals.ShortfallAcceptedGoesNegative | withdrawal-management.js:189-195 | an accepted shortfall is still deducted, the balance ends negative, and the request is Approved |
| Withdrawals.MissingUserAsksFirst | withdrawal-management.js:197-211 | a missing user record: declining writes nothing; accepting writes Approved with no balance change |
| Withdrawals.BalanceFailureAsksFirst | withdrawal-management.js:213-227 | a failing user read or deduction: declining writes nothing; accepting writes Approved with no balance change |
| Withdrawals.FailedStatusWriteKeepsDeduction | withdrawal-management.js:162-231 | a status write failing after a deduction leaves the balance lowered and the request unchanged |
| Withdrawals.ApprovingTwiceDeductsTwice | withdrawal-management.js:117-255 | nothing prevents a second approval of an Approved request, which deducts the amount a second time |
| Withdrawals.DecidedRequestLeavesPending | withdrawal-management.js:231-241 | after a successful decision, the refetched Pending list no longer holds the request |
| Withdrawals.TotalAmountIgnoresOrder | withdrawal-management.js:258-260 | the count and the total do not depend on the order of the listed requests |
| Withdrawals.StatsAdd | withdrawal-management.js:258-260 | the counts and the totals of two batches add up |
| Withdrawals.TotalBounds | withdrawal-management.js:260 | with no negative amounts, the total is non-negative and at least each listed amount |
| Withdrawals.PendingOfIsExact | withdrawal-management.js:20-24 | the query keeps exactly the Pending requests that carry a `timestamp` (ordering by it drops the others), in order, each as often as the collection holds it |
| WithdrawalPages.WithdrawalPage.constructor | withdrawal-management.js:10 | the page starts with an empty list |
| WithdrawalPages.WithdrawalPage.Stats | withdrawal-management.js:258-264 | the pending count is the number of listed requests and the total is `TotalAmount` of them, which is order-independent and additive (`TotalAmountIgnoresOrder`, `StatsAdd`); with no negative amounts the total is non-negative and at least each listed amount |
| WithdrawalPages.WithdrawalPage.Fetch | withdrawal-management.js:13-45 | a failing query keeps the list; otherwise the list is the Pending requests of the store |
| WithdrawalPages.WithdrawalPage.UpdateRequestStatus | withdrawal-management.js:117-255 | ends as `Workflow` says; the store's requests and users become the result of applying `Workflow`'s writes; other collections are unchanged; the list is refetched only after success |
| Wallet.UpdateData | wallet-management.js:124-144 | the write carries the new status, and carries `approvedOn` (the stamp) exactly for "Approved" |
| Wallet.StatusWrite | wallet-management.js:147-148 | fails exactly when no document has the id; otherwise merges the update into the documents with that id and changes no other |
| Wallet.PendingTotal | wallet-management.js:173 | the total is a number exactly when every listed request has an amount; `PendingTotalDefined` says it is then their sum |
| Wallet.TodayApproved | wallet-management.js:184-223 | the sum over the Approved query equals the sum, over the whole collection, of the amounts approved today |
| Wallet.PendingTotalDefined | wallet-management.js:173 | the total is a number exactly when every listed request has an amount, and it is then the sum of the amounts |
| Wallet.TodayApprovedOverAll | wallet-management.js:198-215 | summing over the Approved query equals summing, over the whole collection, the amounts of requests that are Approved and stamped today |
| Wallet.NotTodayAddsNothing | wallet-management.js:211 | a request whose `approvedOn` is missing, empty, not a string, or does not include today adds nothing |
| Wallet.UnapprovedAddsNothing | wallet-management.js:198-201 | a request that is not Approved adds nothing |
| Wallet.ApproveRaisesToday | wallet-management.js:129-148 | approving a Pending request with a stamp that includes today raises today's sum by its amount (0 when it has none) |
| Wallet.RejectWritesStatusOnly | wallet-management.js:124-126 | rejection writes the lower-case "rejected" status and changes nothing else |
| Wallet.DecisionLeavesPending | wallet-management.js:147-154 | after approving or rejecting a request it is not on the Pending list; the count drops by one when it was listed and is unchanged otherwise |
| Wallet.PendingOfIsExact | wallet-management.js:20-24 | the query keeps exactly the Pending requests that carry a `timestamp` (ordering by it drops the others), in order, each as often as the collection holds it |
| WalletPages.WalletPage.constructor | wallet-management.js:10 | the page starts with an empty list |
| WalletPages.WalletPage.Fetch | wallet-management.js:13-45 | a failing query keeps the list and shows no statistics; otherwise the list is the store's Pending query, and statistics are shown exactly when every listed request has an amount (drawing one without an amount throws into the catch), and are then the count, the sum of the amounts and today's approved amount |
| WalletPages.WalletPage.FetchTodayApprovedAmount | wallet-management.js:184-223 | the loop's result is `TodayApproved` of the collection, or 0 when the query fails |
| WalletPages.WalletPage.UpdateStats | wallet-management.js:171-181 | the count of listed requests; a total that is NaN exactly when an amount is missing and is otherwise the sum; today's approved amount (or 0 when its query fails) |
| WalletPages.WalletPage.UpdateRequestStatus | wallet-management.js:114-168 | writes exactly when the store does not fail and the document exists, and the collection becomes `StatusWrite`'s result; other collections are unchanged; the list is refetched, and statistics can be shown, only after success; they are shown exactly when every listed amount is present, and are then the count, the sum of the amounts and today's approved amount |

## Left out

- Rendering, alerts, clipboard copying, the hamburger menu, button enabling and Firebase initialisation are DOM or I/O. They are not modelled.
- MarketPages.MarketPage.Fetch: the `localeCompare` sort by id (starline-management.js:60) is not modelled. The page keeps the collection's own order, because locale-aware collation is outside the model. `Markets.StatsIndependentOfOrder` shows the statistics do not depend on that order.
- WithdrawalPages.WithdrawalPage.Fetch and WalletPages.WalletPage.Fetch: the descending order of `orderBy("timestamp", "desc")` is not modelled. The store is taken to hold each request collection in that order already. That the ordering leaves out documents without a `timestamp` is modelled.
- Lower-casing and trimming are the ASCII ones. Unicode case mapping and Unicode white space are left out.
- MarketWindow.ParseTime reads the digit string as an unbounded natural number. `parseInt`'s loss of precision on very long digit strings is not modelled.
- Time fields are strings or absent. A numeric time field (which `toString()` would turn into a string) is not modelled.
- Withdrawal amounts are integers. A missing or non-numeric amount and the NaN or string arithmetic it would cause are not modelled. Wallet amounts may be missing, and that missing-amount case is modelled.
- The clock, `new Date()`, the Asia/Kolkata time zone and the `toLocaleString` formats are parameters: `now` and `stamp` for the workflow, `today` for the wallet sum. The check that a stamp includes today's date text is modelled; how the texts are produced is not.
- `fetchWalletRequests`, `fetchWithdrawalRequests` and the market fetches run without `await` after a write, so they may interleave with other calls. The model runs them in sequence, and concurrent writers to the store are not modelled. `increment` is modelled as an atomic subtraction.
- The log line after a market number update (starline-management.js:223) reads the selection that `closeUpdateModal` has just cleared. The error it raises lands in the empty `catch` after the refetch has started, so it changes no state and is not modelled.
- Market statistics take the clock reading as a parameter (`now`). The fresh `new Date()` that each `isMarketOpen` call makes is not modelled.
- WalletPages.WalletPage.UpdateStats returns the figures instead of writing them into the page. Its NaN total is reached only when it is called directly. `Fetch`, its only caller, stops in the catch before calling it whenever a listed amount is missing.
