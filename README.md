# Mimi+ loyalty points, modelled in Dafny

Mimi+ is a loyalty-points web application. Customers earn one point for every 50 pesos they spend. They ask to redeem points for rewards, and staff or an administrator approve or deny each request. The server is Express over MySQL; the client is React.

This project models the server handlers that read and change the four tables, and the client pages and dialogs that decide what is requested and shown. The tables are `users`, `rewards`, `redemption` and the append-only `transactions` log.

The model follows the program's shape:

- **The database** is one `Stores.Store` object. Its fields are the four tables, as sequences of rows, and their AUTO_INCREMENT counters. `Valid()` says the keys are unique and positive and lie below their counters.
- **Handlers that write** are methods that take the store and name it in `modifies`. Each method's `ensures` states the whole new state.
- **Handlers that only read** are functions of the table contents.
- **Database transactions.** A `BEGIN … COMMIT/ROLLBACK` block is one atomic step.
- **Exceptions** a query may throw are given as an input, saying which query fails.
- **Client pages** are classes whose fields are the React state. Their handlers are methods. Filters, page slices and texts are functions.

Request values that JavaScript tests for truthiness are `Option`s. A missing value is `None`; the falsy values are `None`, 0 and the empty text. Clock readings (`NOW()`, `Date.now()`) are integer parameters.

Modules, by source file:

| module | source |
|---|---|
| `Util` | JavaScript built-ins the handlers rely on: `toLowerCase`, `includes`, `trim`, `parseInt`, `Number`, `Array.prototype.slice`, `Math.ceil`, and SQL `ORDER BY … DESC` |
| `Tables`, `Stores` | the table rows, the keyed UPDATEs and INSERTs, and the points rule |
| `TxViews` | the purchase/redemption `UNION ALL` views and the `LIMIT` clause |
| `Batch` | the approve/deny loop of server/admin-controllers/homeProcessControllers.js, shared with the two `processRedemptions` handlers |
| `AdminHomeProcess` | server/admin-controllers/homeProcessControllers.js (purchase, add and delete reward) |
| `AdminHome` | server/admin-controllers/homeController.js |
| `AdminCustomers`, `AdminStaff`, `AdminRewards`, `AdminTransactions` | the other admin controllers |
| `AdminController` | server/controllers/adminController.js |
| `StaffController`, `ClassicStaffTransactions` | server/controllers/staffController.js and server/staff-controllers/staffController.js |
| `StaffRedemptions`, `StaffTransactions`, `ExistingRoutes` | server/staff-controllers/ |
| `Auth`, `Account`, `CustomerRewards` | server/customer-controllers/ |
| `Home`, `CustomerTransactions` | server/controllers/homeController.js and transactionController.js |
| `ClientList`, `AdminRewardsPage`, `AdminCustomersPage`, `AdminTransactionsPage` | the admin list pages |
| `TransactionPage`, `StaffPage`, `TransactionCard`, `ProcessPending`, `PurchaseForm`, `AddRewardForm` | the customer history page, the staff console and the dialogs |

The batch approver is one loop method, `Batch.RunBatch`. It is proved against a left fold, `Batch.Fold`, of a per-request step. The lemmas about the fold state what the handlers promise:

- the processed and failed counts add up to the number of requests handled;
- a balance that starts non-negative never goes below zero;
- the lifetime counters are untouched;
- the log only grows, and only by rows with payment 0;
- each request leaves `pending` at most once;
- a denial changes no balance and no log.

Points where the code behaves in ways a reader might not expect, modelled as the code does them:

- The log row of an approval has `pointsChange = +pointsUsed`, not minus.
- Nothing ever updates `totalRedeemedLifetime`.
- `addPoints` of server/controllers/adminController.js accepts negative amounts.
- server/controllers/adminController.js and server/controllers/transactionController.js query a legacy `customers` table with a `customerID` column. The model reads the customer rows of `users` instead.

No schema ships with the code, so the tables use MySQL's default collation, which compares text without regard to case. Every lookup by email and the reward category filter compare that way (`Tables.SameText`). QR codes and the verification and reset tokens are machine-generated text and are compared exactly.

## Model

| member | source | states |
|---|---|---|
| Account.GetAccountDetails | server/customer-controllers/accountController.js:9-21 | 404 exactly when no row has the id; otherwise the id, name and email of the first row with it |
| Account.RenameUser | server/customer-controllers/accountController.js:41 | the UPDATE renames every row with the id and leaves every other row as it was |
| Account.UpdateAccountName | server/customer-controllers/accountController.js:30-50 | 400 for a missing, non-string or blank name; 404 when no row has the id; otherwise the trimmed name is stored and echoed; the other tables do not change |
| Account.RenameToSameName | server/customer-controllers/accountController.js:41 | renaming a row to the name it has leaves the table unchanged |
| Account.RenameStoresTrimmed | server/customer-controllers/accountController.js:37-49 | the stored name is the non-empty trimmed input, is its own trim, and storing it again is a no-op |
| AdminController.StatusText | server/controllers/adminController.js:17-23 | a stored status is one of the three texts 'pending', 'completed', 'denied' |
| AdminController.CountStatusText | server/controllers/adminController.js:17-23 | a `COUNT(*) ... WHERE redeemStatus = <text>` never exceeds the number of rows |
| AdminController.CountIsFilter | server/controllers/adminController.js:17-23 | counting the rows stored with a status's text counts exactly the rows with that status |
| AdminController.CountDisjoint | server/controllers/adminController.js:17-24 | counts for two different texts together never exceed the number of rows |
| AdminController.AdminDashboard | server/controllers/adminController.js:10-35 | as written: the customer count is the number of customer-role user rows, the points issued are the sum of their lifetime totals, totalPending is the number of 'pending' rows, and the 'approved' and 'pending' counts together stay within the redemption rows |
| AdminController.RedeemedCountAlwaysZero | server/controllers/adminController.js:17 | no row is ever stored as 'approved', so the dashboard's redeemed count is 0 for every table |
| AdminController.AdminDashboardCorrected | server/controllers/adminController.js:10-35 | corrected: totalRedeemed is the number of 'completed' rows and totalPending the number of 'pending' rows; the customer count and points issued as written |
| AdminController.AccountsCountedOnlyAsCustomers | server/controllers/adminController.js:14-21 | appending a staff or admin account leaves the dashboard unchanged; appending a customer adds 1 to the count and its lifetime total to the points issued |
| AdminController.CountSplit | server/controllers/adminController.js:17-23 | a status count over a table is the sum of the counts over any split of it |
| AdminController.ApprovalCountedOnce | server/controllers/adminController.js:17-23 | approving one pending row raises the corrected redeemed count by exactly 1 and lowers the pending count by exactly 1 |
| AdminController.ApprovalMovesCounts | server/controllers/adminController.js:17-23 | after one approval there is one more row with the text 'completed' and one fewer with 'pending' |
| AdminController.RemoveCustomer | server/controllers/adminController.js:83 | the DELETE keeps exactly the rows that are not the customer row with the id: every other row, staff and admin rows included, stays |
| AdminController.RemoveCustomerCount | server/controllers/adminController.js:83-87 | the row count is unchanged exactly when no customer row had the id |
| AdminController.RemoveCustomerUnique | server/controllers/adminController.js:83 | unique ids stay unique after the DELETE |
| AdminController.DeleteCustomer | server/controllers/adminController.js:71-93 | 400 without an id; otherwise the customer row is removed, 404 exactly when no customer row had the id, 200 otherwise; redemptions and log rows stay |
| AdminController.AddPoints | server/controllers/adminController.js:140-165 | 400 for a falsy amount; otherwise both counters of the customer row with the id move by floor(amount/50), every other row stays, and unless the INSERT throws one log row is appended whether or not the id matched |
| AdminController.NegativePaymentLowersBoth | server/controllers/adminController.js:147-160 | a negative amount passes the check and takes the same positive number of points off the customer's balance and lifetime total (-75 takes 2) |
| AdminController.ViewCustomerPage | server/controllers/adminController.js:180-201 | 404 exactly when no customer row has the id; otherwise its id, name and lifetime total, and exactly the customer's pending redemptions |
| AdminCustomers.ViewAllCustomers | server/admin-controllers/customerController.js:6-22 | exactly the customer rows, inactive ones only when `showInactive` is the text "true", ordered by userID descending |
| AdminCustomers.DeleteCustomer | server/admin-controllers/customerController.js:34-73 | 400 without an id; 404 when no customer has the id; otherwise only the status of that customer's row becomes inactive and the name is echoed; other tables untouched |
| AdminCustomers.DeletedCustomerHidden | server/admin-controllers/customerController.js:8-56 | after the soft delete the row differs only in its status, drops out of the default list, stays in the `showInactive=true` list, and no other account changes |
| ClientList.FooterOf | client/src/pages/admin-rewards.jsx:343-358 | the pagination widget is shown exactly when some row matches; otherwise the "no ... found" text |
| ClientList.FooterPagesHoldRows | client/src/pages/admin-rewards.jsx:65-69 | every page the widget offers holds 1 to 10 rows, namely the matches from (page - 1) * 10 on, and pages 1 to totalPages together show every match once, in order |
| ClientList.FirstPageShowsFirstRows | client/src/pages/admin-rewards.jsx:51-69 | page 1, where every new search starts, shows the first ten matches |
| ClientList.PagePastTheEndIsEmpty | client/src/pages/admin-rewards.jsx:65-69 | a page number past the last page shows no row |
| ClientList.VisibleRowsMatch | client/src/pages/admin-customers.jsx:136-148 | every row on any page is a fetched row that satisfies the search filter |
| ClientList.ActiveLabel | client/src/pages/admin-rewards.jsx:305-309 | the badge reads "Active" exactly for the stored text 'active', "Inactive" for anything else (the same rule as admin-customers.jsx:245-246) |
| ClientList.ListView.constructor | client/src/pages/admin-rewards.jsx:9-11 | an empty search on page 1 |
| ClientList.ListView.Search | client/src/pages/admin-rewards.jsx:51-76 | the term is stored, and the page goes back to 1 exactly when the term changed |
| ClientList.ListView.ChangePage | client/src/pages/admin-rewards.jsx:71-72 | the requested page is taken as given; the term is kept |
| AdminRewardsPage.FilteredRewards | client/src/pages/admin-rewards.jsx:57-63 | sound and complete: exactly the fetched rewards whose name, category or brand contains the term ignoring ASCII case; a null field matches nothing |
| AdminRewardsPage.ShownRewardsMatch | client/src/pages/admin-rewards.jsx:57-69 | every reward on any page is fetched and matches the term |
| AdminRewardsPage.SearchIgnoresCase | client/src/pages/admin-rewards.jsx:58-60 | a term and its lower-case form select the same rewards |
| AdminRewardsPage.EmptySearchListsNamedRewards | client/src/pages/admin-rewards.jsx:58-60 | with an empty search a reward is listed iff at least one of name, category, brand is non-null |
| AdminCustomersPage.FilteredUsers | client/src/pages/admin-customers.jsx:136-142 | sound and complete: exactly the fetched users whose name or email contains the term ignoring ASCII case; a null field matches nothing |
| AdminCustomersPage.ShownUsersMatch | client/src/pages/admin-customers.jsx:136-148 | every user on any page is fetched and matches the term |
| AdminCustomersPage.SearchIgnoresCase | client/src/pages/admin-customers.jsx:138-139 | a term and its lower-case form select the same users |
| AdminCustomersPage.FoundByEmailPart | client/src/pages/admin-customers.jsx:138-139 | a user is found by any piece of their email address |
| AdminTransactionsPage.KindText | server/admin-controllers/transactionsController.js:15-34 | the `type` column is 'Purchase' or 'Redeem', and lower-cases to "redeem" exactly for redemptions |
| AdminTransactionsPage.FilteredTransactions | client/src/pages/admin-transactions.jsx:41-48 | sound and complete: exactly the fetched rows whose name, description or type contains the term ignoring ASCII case |
| AdminTransactionsPage.ShownTransactionsMatch | client/src/pages/admin-transactions.jsx:41-55 | every row on any page is fetched and matches the term |
| AdminTransactionsPage.SearchIgnoresCase | client/src/pages/admin-transactions.jsx:43-47 | a term and its lower-case form select the same rows |
| AdminTransactionsPage.RedeemSearchKeepsRedemptions | client/src/pages/admin-transactions.jsx:47 | searching "redeem" keeps every redemption the server listed |
| AdminTransactionsPage.PointsBadge | client/src/pages/admin-transactions.jsx:137-141 | a badge exists exactly when the row has a type |
| AdminTransactionsPage.BadgeReadsBack | client/src/pages/admin-transactions.jsx:137-141 | the badge opens with '-' exactly for a type that lower-cases to 'redeem' (else '+'), and the number after the sign parses back to the magnitude of the points |
| AdminTransactionsPage.RedemptionBadgeShowsPointsSpent | client/src/pages/admin-transactions.jsx:137-141 | a listed redemption, which carries -pointsUsed, shows '-' followed by the points spent |
| AdminHome.UserIdsSince | server/admin-controllers/homeController.js:39-43 | the distinct requesters since the month start are exactly the user ids of redemption rows dated on or after it, whatever their status |
| AdminHome.DistinctAtMostRows | server/admin-controllers/homeController.js:39-43 | `COUNT(DISTINCT userID)` never exceeds the number of redemption rows |
| AdminHome.EngagementRate | server/admin-controllers/homeController.js:67-70 | 0 when nothing was earned; otherwise 100 * redeemed / earned rounded to the nearest integer, halves up |
| AdminHome.EngagementRateIsPercentage | server/admin-controllers/homeController.js:67-70 | while no more points were redeemed than earned the rate lies in 0..100 |
| AdminHome.MonthWithinTotal | server/admin-controllers/homeController.js:21-50 | with non-negative costs the points redeemed this month are between 0 and all points redeemed |
| AdminHome.AdminDashboard | server/admin-controllers/homeController.js:5-92 | totalUsers is the number of customer-role rows; activeMembers the number of rows of any role holding points; pointsRedeemed the sum of pointsUsed over completed requests; totalPending the number of pending requests; the three month figures the distinct requesters, completed points and pending requests dated on or after the month start; totalPointsEarned the sum of every user's lifetime points; the rate computed from the two sums; and the month figures never exceed the overall ones |
| AdminHome.DashboardApproval | server/admin-controllers/homeController.js:21-30 | approving one pending request adds its pointsUsed to pointsRedeemed and takes one off totalPending |
| AdminHome.DashboardNewAccount | server/admin-controllers/homeController.js:9-64 | a new account adds one to totalUsers only when it is a customer's, one to activeMembers exactly when it holds points, and its lifetime points to totalPointsEarned; the redemption figures do not change |
| AdminHome.DashboardLimit | server/admin-controllers/homeController.js:104-144 | a missing or empty `limit` is 10; digits are that count; anything else makes the SQL invalid |
| AdminHome.DashboardLimitReadsCounts | server/admin-controllers/homeController.js:104 | every printed count is read back as itself |
| AdminHome.DashFilter | server/admin-controllers/homeController.js:150-162 | 'purchase' keeps completed redemptions only, 'redeem' pending ones only, any other type everything not denied |
| AdminHome.LatestPurchases | server/admin-controllers/homeController.js:107-122 | exactly min(`limit`, number of paid purchases of known users) rows, newest first, each such a purchase; when fewer than `limit` come back every paid purchase is there |
| AdminHome.LatestPurchasesKeepNewest | server/admin-controllers/homeController.js:120-121 | the part keeps the newest purchases: every paid purchase left out is no newer than the last row listed |
| AdminHome.LatestRedemptions | server/admin-controllers/homeController.js:126-142 | exactly min(`limit`, number of admitted redemptions) rows, newest first, each a redemption the status filter admits; when fewer than `limit` come back every one is there |
| AdminHome.LatestRedemptionsKeepNewest | server/admin-controllers/homeController.js:140-141 | the part keeps the newest admitted redemptions: every one left out is no newer than the last row listed |
| AdminHome.DashboardParts | server/admin-controllers/homeController.js:106-145 | every row of the UNION ALL is a purchase (when that part is kept) or an admitted redemption |
| AdminHome.DashboardRows | server/admin-controllers/homeController.js:143-144 | exactly min(`limit`, number of rows of the two parts) rows, newest first, each one that may be shown |
| AdminHome.DashboardRowsKeepNewest | server/admin-controllers/homeController.js:143-144 | the outer sort and LIMIT keep the newest rows: every row of the two parts left out is no newer than the last row listed |
| AdminHome.ShortListIsComplete | server/admin-controllers/homeController.js:106-145 | when fewer than `limit` rows come back, every paid purchase (when kept) and every admitted redemption is listed |
| AdminHome.GetDashboardTransactionsAsWritten | server/admin-controllers/homeController.js:101-176 | the handler as written: an invalid limit is the error reply and nothing else is; otherwise the newest rows of the full panel (the purchase part kept for every type, "redeem" included) as `DashboardRows` gives them |
| AdminHome.GetDashboardTransactions | server/admin-controllers/homeController.js:101-176 | corrected: an invalid limit is the error reply and nothing else is; "redeem" lists the newest pending requests only, as the panel without its purchase part; other types the newest rows of the full panel; at most `limit` rows, newest first |
| AdminHome.RedeemTypeShowsPurchases | server/admin-controllers/homeController.js:164 | with one customer and one purchase, type "redeem" lists that purchase as written, and nothing once the purchase part is dropped |
| AdminHome.OnePurchasePanel | server/admin-controllers/homeController.js:106-145 | the panel of one purchase is that purchase with the purchase part and empty without it |
| AdminHome.RankedByPoints | server/admin-controllers/homeController.js:191-192 | the first five of a ranking by balance are ranked by points |
| AdminHome.TopRowsAreCustomers | server/admin-controllers/homeController.js:182-190 | each summary row stems from a customer of the users table |
| AdminHome.GetTopCustomers | server/admin-controllers/homeController.js:179-197 | min(5, number of customers) rows, richest first, each summarising one customer |
| AdminHome.RicherCustomersListed | server/admin-controllers/homeController.js:189-192 | a customer is listed while there are fewer than five, or when richer than the fifth listed |
| AdminHomeProcess.ProcessPurchase | server/admin-controllers/homeProcessControllers.js:117-176 | a falsy id or cost is the 400 and an unknown id the 404, both with nothing changed; otherwise the customer gains |floor(cost / 50)| points in balance and lifetime total, one purchase row is logged, and the reply reports name, cost, points and the new balance; if the INSERT fails the credit stays and the reply is the 500 |
| AdminHomeProcess.PurchaseReportsStoredBalance | server/admin-controllers/homeProcessControllers.js:142-170 | the reported newBalance is the balance now stored, the lifetime total rose by the same points, and every other user row is untouched |
| AdminHomeProcess.AddReward | server/admin-controllers/homeProcessControllers.js:179-217 | any falsy field (0 points included) is the 400 with nothing changed; otherwise one active reward with the next id and the given fields is appended and echoed |
| AdminHomeProcess.DeleteReward | server/admin-controllers/homeProcessControllers.js:224-269 | a missing id is the 400, an unknown id the 404, both with nothing changed; otherwise the reward is set inactive and its name reported |
| AdminHomeProcess.DeactivateRewardOnlyFlag | server/admin-controllers/homeProcessControllers.js:249-252 | the soft delete keeps every row, changes no column but `isActive`, leaves other ids alone, makes the id inactive and keeps ids unique |
| AdminRewards.ViewAllRewards | server/admin-controllers/rewardsController.js:6-24 | highest id first; exactly the active rewards, or every reward when `showInactive` is the text "true" |
| AdminRewards.ShowInactiveExactText | server/admin-controllers/rewardsController.js:8 | an inactive reward is listed for "true" and hidden for "True", "1" or no parameter |
| AdminStaff.ViewAllStaff | server/admin-controllers/staffManagementController.js:7-28 | highest id first; exactly the active staff accounts, or every staff account when `showInactive` is "true"; never a customer or an admin |
| AdminStaff.DeleteStaff | server/admin-controllers/staffManagementController.js:35-74 | a missing id is the 400; an id that is not a staff account the 404, nothing changed; otherwise that staff account is set inactive and its name reported |
| AdminStaff.AddStaff | server/admin-controllers/staffManagementController.js:81-112 | a missing field or any role in the body is the 400; an email already used, ignoring case, the other 400; otherwise one staff account with the next id is appended; unique emails stay unique |
| AdminStaff.AddStaffRoleGuard | server/admin-controllers/staffManagementController.js:85 | with name, email and password present the request is refused exactly when a non-empty role is sent, even "staff" |
| AdminTransactions.GetAllTransactions | server/admin-controllers/transactionsController.js:6-52 | every paid purchase and every non-denied redemption, only those, newest first, with `total` the number returned |
| AdminTransactions.ListedPaymentsAreReal | server/admin-controllers/transactionsController.js:15-41 | a listed purchase carries a positive payment, so approval log rows never appear as purchases; a listed redemption has payment 0 and stems from a non-denied request |
| Auth.RegisteredAccount | server/customer-controllers/authController.js:75-78 | the inserted row is an unverified customer with no points, holding the hash, the verification token and the QR hash |
| Auth.Register | server/customer-controllers/authController.js:16-89 | a missing field is the 400 and an email already used (ignoring case) the 409, nothing stored; a failed mail is the 500 with nothing stored; otherwise exactly one row is appended with the next id; unique emails stay unique |
| Auth.MarkVerified | server/customer-controllers/authController.js:113-115 | every row holding the token becomes verified and loses it; every other row is unchanged |
| Auth.VerifyEmail | server/customer-controllers/authController.js:94-127 | a row is verified exactly when some unverified row holds the token; otherwise nothing changes |
| Auth.VerificationTokenSingleUse | server/customer-controllers/authController.js:100-114 | after verification no row awaits verification with that token, and each row that awaited it is verified, so the link works once |
| Auth.FindVerified | server/customer-controllers/authController.js:140-153 | the first verified row whose email matches ignoring case, or none exactly when no verified row matches |
| Auth.Login | server/customer-controllers/authController.js:130-187 | a missing email or password is the 400; no verified row with a matching email (case ignored) is the 401; an inactive account the 403; success only for an active verified row whose hash matches, reporting that row |
| Auth.LoginGating | server/customer-controllers/authController.js:141-165 | an unverified account never logs in, an inactive one is always turned away, and a wrong password gets the same 401 as an unknown email |
| Auth.StoreResetToken | server/customer-controllers/authController.js:212-214 | every row whose email matches ignoring case gets the token and the expiry; other rows are unchanged |
| Auth.ForgotPassword | server/customer-controllers/authController.js:192-253 | a missing email is the 400 and one that matches no row (case ignored) the 500, nothing changed; otherwise the token with an expiry one hour ahead is stored before the mail is tried |
| Auth.ApplyReset | server/customer-controllers/authController.js:280-283 | the row with the id gets the new hash and loses token and expiry; other rows are unchanged |
| Auth.ResetPassword | server/customer-controllers/authController.js:255-296 | no password is the 500; no row with the token still live is the 400, nothing changed; otherwise the first such row gets the new password |
| Auth.ResetTokenLifecycle | server/customer-controllers/authController.js:209-281 | a stored token is live exactly until one hour after it was issued, and is gone after the reset |
| Auth.ClientBase | server/customer-controllers/authController.js:319 | the configured client address, or http://localhost:5173 when none is set |
| Auth.GetQRCode | server/customer-controllers/authController.js:302-326 | 404 exactly when no row has the id; otherwise the staff page address with the stored code as `qrHash` |
| StaffPage.ScannedCodeSelectsOwner | server/customer-controllers/authController.js:316-319 | the customer's QR address is the staff page with the query `handleUserSelect` writes, and with unique codes the page selects exactly that customer |
| StaffPage.StaffLinkText | client/src/pages/staff-page.jsx:178-188 | the server's QR address and the page's own rewritten address carry the same `?qrHash=` query |
| StaffPage.OwnerSelected | client/src/pages/staff-page.jsx:74-82 | with unique codes, a scanned code of a listed customer selects that customer |
| StaffPage.FirstWithCode | client/src/pages/staff-page.jsx:78-80 | with unique codes, a listed customer is the first one carrying its own code |
| Batch.SelectPending | server/admin-controllers/homeProcessControllers.js:17-20 | exactly the pending rows whose id is among the requested ids, no more rows than the table |
| Batch.SelectPendingUnique | server/admin-controllers/homeProcessControllers.js:17-20 | with unique ids in the table the selection has unique ids |
| Batch.SelectPendingReady | server/admin-controllers/homeProcessControllers.js:17-20 | every selected id names only pending rows, so a completed or denied request is never selected again |
| Batch.ApproveRefused | server/admin-controllers/homeProcessControllers.js:37-56 | a missing customer or a balance below pointsUsed counts the item as failed and writes nothing |
| Batch.ApproveSucceeds | server/admin-controllers/homeProcessControllers.js:35-93 | an uninterrupted approval of a customer who can pay completes the request, debits exactly pointsUsed leaving a non-negative balance, keeps the lifetime totals and every other user, logs one row with payment 0 and +pointsUsed, and counts as processed |
| Batch.StepFault | server/admin-controllers/homeProcessControllers.js:94-100 | an item whose query throws counts as failed and never as processed, logs nothing, and writes nothing when the throw comes before the status update |
| Batch.FoldCounts | server/admin-controllers/homeProcessControllers.js:30-101 | every selected item is counted once, as processed or as failed |
| Batch.SetStatusEvolves | server/admin-controllers/homeProcessControllers.js:65-90 | marking a request whose rows are all pending is a change the batch invariant allows |
| Batch.ApprovalEvolves | server/admin-controllers/homeProcessControllers.js:65-84 | the three writes of an approval, however far they get, change only what the batch invariant allows |
| Batch.StepEvolves | server/admin-controllers/homeProcessControllers.js:33-100 | one item, whatever its action and faults, changes only what the batch invariant allows |
| Batch.EvolvesTrans | server/admin-controllers/homeProcessControllers.js:33-101 | two allowed changes in a row are one allowed change |
| Batch.FoldEvolves | server/admin-controllers/homeProcessControllers.js:33-101 | over a ready selection the loop changes users only in their balances, moves only selected pending rows to the action's status, and only appends log rows with payment 0 and consecutive fresh ids |
| Batch.ReadyInit | server/admin-controllers/homeProcessControllers.js:33 | a ready selection stays ready without its last item, whose id is none of the others' and whose rows are pending |
| Batch.EvolvesOutside | server/admin-controllers/homeProcessControllers.js:33-101 | rows whose id the batch does not name keep their contents |
| Batch.FoldBalancesNonNegative | server/admin-controllers/homeProcessControllers.js:37-74 | because the balance is read again before every approval, a batch keeps every balance non-negative and user ids unique |
| Batch.StepBalancesNonNegative | server/admin-controllers/homeProcessControllers.js:48-74 | one item keeps ids unique and balances non-negative |
| Batch.DebitStaysNonNegative | server/admin-controllers/homeProcessControllers.js:50-74 | a debit of at most the current balance leaves balances non-negative |
| Batch.FoldDenyKeepsLedger | server/admin-controllers/homeProcessControllers.js:85-91 | a denial batch leaves every balance and the log as they were |
| Batch.FoldOtherActionKeepsAll | server/admin-controllers/homeProcessControllers.js:35-93 | an action other than "approve" or "deny" changes nothing and counts every item as processed |
| Batch.FoldApprovalsLogged | server/admin-controllers/homeProcessControllers.js:81-93 | without exceptions every processed approval logs exactly one row and the log only grows |
| Batch.OneCustomerStep | server/admin-controllers/homeProcessControllers.js:37-84 | an approval for a sole customer who can pay debits exactly pointsUsed and logs one row; otherwise it fails and changes nothing |
| Batch.ThreeRequestsOneShort | server/admin-controllers/homeProcessControllers.js:33-101 | a customer holding 100 points with three pending requests of 40: two are approved, the third fails and stays pending, 20 points remain |
| Batch.FoldStep | server/admin-controllers/homeProcessControllers.js:33-101 | one more iteration extends the fold by one step and moves exactly one counter |
| Batch.WriteApproval | server/admin-controllers/homeProcessControllers.js:64-84 | the status update, the debit and the log insert, each reached only when the earlier ones did not throw, change the store as the fold's approval writes say |
| Batch.ApproveItem | server/admin-controllers/homeProcessControllers.js:35-84 | the approve branch changes the store as one step of the fold says |
| Batch.DenyItem | server/admin-controllers/homeProcessControllers.js:85-91 | the deny branch marks the request denied unless the update throws |
| Batch.ProcessItem | server/admin-controllers/homeProcessControllers.js:34-100 | the loop body changes the store as one step of the fold says and reports processed or failed |
| Batch.BatchIteration | server/admin-controllers/homeProcessControllers.js:33-101 | after one more iteration the store and counters are the fold over one more item |
| Batch.RunBatch | server/admin-controllers/homeProcessControllers.js:30-101 | the loop leaves the store and the two counters exactly as the fold over the whole selection |
| Batch.Fold | server/admin-controllers/homeProcessControllers.js:33-101 | neither counter ever goes down over the loop |
| Batch.BatchMessageCount | server/admin-controllers/homeProcessControllers.js:103-105 | the message starts with "approved " or "denied " and the processed count reads back right after it |
| Batch.BatchMessageSuffix | server/admin-controllers/homeProcessControllers.js:105 | the message ends in " failed" exactly when some item failed |
| Batch.ProcessSelection | server/admin-controllers/homeProcessControllers.js:22-109 | an empty selection is the "No pending redemptions" reply with nothing changed; otherwise the store is the fold's and the reply carries the message and both counters, totalProcessed their sum |
| Batch.ProcessPendingRedemptions | server/admin-controllers/homeProcessControllers.js:5-113 | a missing action or a non-array id list is the 400 with nothing changed; an empty list the 500; otherwise the selection of pending requested rows is processed as above |
| Batch.SummaryAccountsForSelection | server/admin-controllers/homeProcessControllers.js:104-109 | totalProcessed is the number of pending rows among the requested ids |
| ClassicStaffTransactions.ClassicTypeOf | server/controllers/staffController.js:438-490 | only the texts "purchase" and "redeem" change the query; anything else, or no type, lists everything |
| ClassicStaffTransactions.ClassicFilter | server/controllers/staffController.js:467-486 | the redemption condition is `= 'completed'` exactly for "purchase", `= 'pending'` exactly for "redeem" and `!= 'denied'` exactly for any other type; whatever the type, a denied request is never admitted |
| ClassicStaffTransactions.ClassicSelected | server/controllers/staffController.js:441-489 | every row is a paid purchase of the customer (not for "redeem") or an admitted redemption of theirs, and every such row is there |
| ClassicStaffTransactions.ClassicOrdered | server/controllers/staffController.js:468 | the same rows, newest first |
| ClassicStaffTransactions.GetTransactionsAsWritten | server/controllers/staffController.js:435-506 | the handler as written: "redeem" or an unreadable limit is the 500; otherwise the chosen rows newest first, all of them without a limit and exactly min(`limit`, their number) with one, always a prefix of the full ordered list |
| ClassicStaffTransactions.RedeemTypeFailsAsWritten | server/controllers/staffController.js:488-489 | as written, the "redeem" view fails whatever the tables hold: the pattern removes nothing and one of the two placeholders stays unbound |
| ClassicStaffTransactions.GetTransactions | server/controllers/staffController.js:435-506 | corrected: only an unreadable or negative limit fails; the chosen rows newest first, all of them without a limit and exactly min(`limit`, their number) with one, always a prefix of the full ordered list |
| ClassicStaffTransactions.CorrectedAgreesElsewhere | server/controllers/staffController.js:474-480 | for every type but "redeem" the corrected handler answers exactly as written |
| ClassicStaffTransactions.RedeemTypeListsPending | server/controllers/staffController.js:481-489 | corrected, "redeem" lists only the customer's pending redemptions |
| ClassicStaffTransactions.PurchaseTypeHidesOpenRequests | server/controllers/staffController.js:475-480 | "purchase" lists purchases and completed requests only, never a pending or denied one |
| CustomerRewards.ViewRewards | server/customer-controllers/rewardsController.js:14-52 | 404 exactly for an unknown user; otherwise the caller's balance and exactly the active rewards, of the given category (compared ignoring letter case) when one is given, with the matching message |
| CustomerRewards.ViewRewardsHidesInactive | server/customer-controllers/rewardsController.js:32 | an inactive reward is never offered, whatever the category |
| CustomerRewards.ViewRewardsIgnoresCase | server/customer-controllers/rewardsController.js:32-38 | two spellings of a category that differ only in letter case list the same rewards |
| CustomerRewards.FindActiveReward | server/customer-controllers/rewardsController.js:80-85 | the first active reward with the id, or none exactly when no active reward has it |
| CustomerRewards.RedeemReward | server/customer-controllers/rewardsController.js:65-96 | unknown user, unknown or inactive reward and too few points are refused with nothing changed; otherwise one pending request costing the reward's pointsRequired is appended, and no balance changes; `quickRedeem` of server/controllers/homeController.js runs the same checks and INSERT with the same replies |
| CustomerRewards.SelectPendingConcat | server/admin-controllers/homeProcessControllers.js:17-20 | the batch selection of two tables joined is the two selections joined |
| CustomerRewards.NewRequestIsSelected | server/customer-controllers/rewardsController.js:94 | the request just recorded is exactly what a later batch naming only its id selects |
| CustomerRewards.NothingOldSelected | server/admin-controllers/homeProcessControllers.js:17-20 | no row whose id is not requested is ever selected |
| CustomerTransactions.TypeOf | server/controllers/transactionController.js:50-93 | only "completed" and "pending" change the queries; any other type, or none, lists everything not denied |
| CustomerTransactions.PurchaseTxs | server/controllers/transactionController.js:23-31 | exactly the customer's log rows (with a payment, when so restricted), one line each, as purchases |
| CustomerTransactions.RedeemTxs | server/controllers/transactionController.js:35-44 | exactly the customer's requests with a wanted status whose reward row exists, one line each |
| CustomerTransactions.Lines | server/controllers/transactionController.js:22-92 | the UNION ALL: purchase lines (none for "pending") and wanted redemption lines, each one listed, and nothing else |
| CustomerTransactions.PendingFirst | server/controllers/transactionController.js:96-98 | a permutation of the lines with every pending line before every other, each group newest first |
| CustomerTransactions.PendingFirstJoin | server/controllers/transactionController.js:96-98 | a newest-first pending group followed by a newest-first rest is in the required order |
| CustomerTransactions.PendingFirstSingle | server/controllers/transactionController.js:96-98 | a single line is its own order |
| CustomerTransactions.AllLines | server/controllers/transactionController.js:22-98 | every selected line exactly once, pending first then newest first |
| CustomerTransactions.ParseOr | server/controllers/transactionController.js:10-11 | `parseInt(x) || d`: a non-zero default never gives 0, and a readable non-zero number is taken as read |
| CustomerTransactions.ParseOrReadsNumbers | server/controllers/transactionController.js:10-11 | every printed non-zero number is read back |
| CustomerTransactions.ParseOrDefaults | server/controllers/transactionController.js:10-11 | no parameter, or text without digits, gives the default |
| CustomerTransactions.ParseOrZero | server/controllers/transactionController.js:10-11 | "0" gives the default too, since 0 is falsy |
| CustomerTransactions.PointsOf | server/controllers/transactionController.js:18-19 | the balance of the caller's customer row, or 0 when no customer row has the id |
| CustomerTransactions.Offset | server/controllers/transactionController.js:13 | page 1 starts at offset 0 |
| CustomerTransactions.PageOf | server/controllers/transactionController.js:10-161 | a negative page or limit is the 500; otherwise page and limit are at least 1, the run of the list from the offset with exactly as many lines as remain there up to `limit`, totalPages the ceiling of total / limit |
| CustomerTransactions.ViewWith | server/controllers/transactionController.js:7-162 | the page of the ordered lines, with exactly as many lines as remain from the offset up to `limit`, the count query's total and the caller's balance |
| CustomerTransactions.CountMatchesList | server/controllers/transactionController.js:105-149 | when every request's reward row exists, `total` is exactly the number of lines the listing can return |
| CustomerTransactions.ApprovalShownAsPurchase | server/controllers/transactionController.js:22-31 | as written, a history holding only an approval log row (payment 0) lists it as a purchase and counts it |
| CustomerTransactions.ApprovalNotShownWhenPaid | server/controllers/transactionController.js:22-31 | corrected, the same history is empty with no pages |
| CustomerTransactions.ViewTransactionsAsWritten | server/controllers/transactionController.js:7-162 | as written: the 500 exactly for a negative page or limit; otherwise page and limit at least 1, the run of all the customer's lines from the offset with exactly as many lines as remain there up to `limit`, points the caller's balance, total the count query's number and totalPages its ceiling over limit |
| CustomerTransactions.ViewTransactions | server/controllers/transactionController.js:7-162 | corrected (paid purchases only): the same page of the paid lines, with the same length and balance, total and page count |
| CustomerTransactions.DefaultPages | server/controllers/transactionController.js:10-159 | without page and limit, one line is one page of one line, and no line is page 1 of 0 pages |
| CustomerTransactions.ApprovalLinesAsWritten | server/controllers/transactionController.js:23-31 | as written, an approval log row is one line and counts once |
| CustomerTransactions.ApprovalLinesPaid | server/controllers/transactionController.js:23-31 | with the payment condition it is no line and counts zero |
| CustomerTransactions.PurchasesArePaid | server/controllers/transactionController.js:23-31 | corrected, every purchase line comes from a log row of the customer with a positive payment |
| CustomerTransactions.PurchaseIsNoRedeemLine | server/controllers/transactionController.js:25-37 | a line marked 'purchase' never comes from the redemption part |
| ExistingRoutes.GetCustomerByHash | server/staff-controllers/existingRoutes.js:7-23 | 404 exactly when no row has the code; otherwise the id, name and lifetime total of the first row with it |
| ExistingRoutes.AddCustomerPoints | server/staff-controllers/existingRoutes.js:30-61 | a falsy or non-positive amount is the 400 with nothing changed; otherwise floor(amount / 50) points are credited to balance and lifetime total, then a 'Purchase' row is logged; a failed INSERT leaves the credit and is the 500 |
| ExistingRoutes.AddCustomerPointsShape | server/staff-controllers/existingRoutes.js:40-52 | the points are non-negative and drop the remainder below 50; for an unknown customer the UPDATE changes no row, yet the purchase row is still logged |
| Home.ViewHome | server/controllers/homeController.js:17-95 | 404 exactly for an unknown user; otherwise the stored counters as they are; the first min(6, number of rewards) rewards of the table, whatever their status; last month's earned figure the points of the user's requests dated within last month, its redeemed figure those of the completed ones; and last month's balance estimated as the balance plus this month's completed minus this month's requested points |
| Home.CompletedWithinRequested | server/controllers/homeController.js:47-72 | with non-negative costs the completed sum lies between 0 and the requested sum over the same window |
| Home.LastMonthEstimateBounded | server/controllers/homeController.js:47-80 | the estimated last-month balance never exceeds the current balance, and last month's redeemed figure lies between 0 and its requested figure |
| StaffController.ProcessPurchase | server/controllers/staffController.js:91-233 | a falsy id or cost, or a cost of 0 or less, is the 400 and changes nothing; an id no row has, or a failing INSERT or COMMIT, is the 500 after the rollback, with both tables as they were (a failed COMMIT uses up one AUTO_INCREMENT value); otherwise the customer's balance and lifetime total rise by abs(floor(cost / 50)), one log row is added, and its new id is returned; both tables change or neither does |
| StaffController.CommittedPurchaseCredit | server/controllers/staffController.js:103-144 | a purchase of a positive cost by a user whose row exists adds floor(cost / 50) to that row's balance and lifetime total and leaves every other row unchanged |
| StaffController.GetAllUsers | server/controllers/staffController.js:6-16 | every listed summary is some customer's row and every customer row is listed; no more rows than the table holds |
| StaffController.GetAllUsersOnlyCustomers | server/controllers/staffController.js:9 | when ids are unique, no staff or admin account appears in the customer list |
| StaffController.UserTxs | server/controllers/staffController.js:32-45 | the user's log rows, all of them and only theirs, newest first |
| StaffController.GetUserById | server/controllers/staffController.js:18-57 | the 404 exactly when no row has the id; otherwise the first such row's details with all of that user's log rows, newest first |
| StaffRedemptions.GetUserRedemptions | server/staff-controllers/redemptionController.js:5-35 | the reply lists, newest first, exactly the customer's pending requests whose user and reward rows exist, and `total` is their count |
| StaffRedemptions.GetUserRedemptionsOnlyPending | server/staff-controllers/redemptionController.js:8-21 | the status query parameter makes no difference, and a request that was approved or denied is never listed |
| StaffRedemptions.ProcessRedemptions | server/staff-controllers/redemptionController.js:37-148 | with the ids bound as a list: a missing action or id list is the 400 with no change; when no requested id is a pending row, the "none found" reply with no change; otherwise the ledger and the processed and failed counts are those of processing, in order, every pending request whose id was asked for, and the message reports them |
| StaffRedemptions.JoinedTextReadsFirst | server/staff-controllers/redemptionController.js:48-54 | MySQL reads the comma-joined id text as its leading number: the first requested id, or 0 when no id was sent |
| StaffRedemptions.JoinedMatch | server/staff-controllers/redemptionController.js:48-54 | as written, the `IN (?)` clause compares each redeemID with one value only: the first requested id, or 0 for an empty list |
| StaffRedemptions.JoinedIdsSelectOnlyFirst | server/staff-controllers/redemptionController.js:48-54 | as written, a pending request named second in the id list is not selected, though the list names it |
| StaffRedemptions.RequestedSelected | server/staff-controllers/redemptionController.js:48-54 | with the ids bound as a list, every pending request asked for is selected, only requested ids are, and an empty list selects nothing |
| StaffTransactions.TypeOf | server/staff-controllers/transactionController.js:9-57 | only the exact texts "purchase" and "redeem" select those views; anything else, or no type, selects everything |
| StaffTransactions.Selected | server/staff-controllers/transactionController.js:13-57 | every row is one the type asks for: a paid purchase of the customer or a redemption of theirs passing the status filter; every such row is there |
| StaffTransactions.Ordered | server/staff-controllers/transactionController.js:60 | the selected rows, all of them and only those, newest first |
| StaffTransactions.GetTransactions | server/staff-controllers/transactionController.js:6-74 | the 500 exactly when the limit cannot be read as a non-negative number; otherwise the selected rows newest first, all of them without a limit and exactly min(`limit`, their number) with one, always a prefix of the full ordered list |
| StaffTransactions.ListedRowsChosen | server/staff-controllers/transactionController.js:45-65 | whatever the limit, every listed row is one the type asks for |
| Stores.Store.CreditPoints | server/controllers/staffController.js:127-140 | the users table becomes the credited table; every other table and every counter is unchanged, and the keys stay unique |
| Stores.Store.SetUsers | server/admin-controllers/homeProcessControllers.js:72 | an update that keeps every key in place replaces the users table and leaves the rest unchanged |
| Stores.Store.SetRedemptions | server/admin-controllers/homeProcessControllers.js:66-88 | an update that keeps every key in place replaces the redemption table and leaves the rest unchanged |
| Stores.Store.AddUser | server/admin-controllers/staffManagementController.js:103 | the row is appended under the next AUTO_INCREMENT id, which is returned; the counter rises by one and the keys stay unique |
| Stores.Store.AddRedemption | server/customer-controllers/rewardsController.js:94 | one pending request is appended under the next id, which is returned; nothing else changes |
| Stores.Store.LogTransaction | server/controllers/staffController.js:152-169 | one log row is appended under the next id, which is returned; nothing else changes |
| Tables.FindUser | server/controllers/staffController.js:23-30 | the first row with the id, or None exactly when no row has it |
| Tables.FindReward | server/admin-controllers/homeProcessControllers.js:238 | the first reward row with the id, or None exactly when no row has it |
| Tables.FindUserUnique | server/controllers/staffController.js:23-30 | when ids are unique, the row found is the only row with the id |
| Tables.UpdateUser | server/controllers/staffController.js:127 | an UPDATE keyed by userID changes exactly the rows with that id, and keeps the row count |
| Tables.UpdateReward | server/admin-controllers/homeProcessControllers.js:250 | an UPDATE keyed by rewardID changes exactly the rows with that id, and keeps the row count |
| Tables.SetRedeemStatus | server/admin-controllers/homeProcessControllers.js:66-88 | exactly the rows with the redeem id get the new status; every other row and column is unchanged |
| Tables.UsersWithIdZero | server/controllers/staffController.js:142-144 | an UPDATE keyed by userID affects no row exactly when no row has the id |
| Tables.RewardsWithIdZero | server/admin-controllers/homeProcessControllers.js:254 | an UPDATE keyed by rewardID affects no row exactly when no row has the id |
| Tables.FindEmail | server/admin-controllers/staffManagementController.js:93 | the first row whose email matches ignoring case, as the collation compares, or None exactly when no row matches |
| Tables.FindEmailIgnoresCase | server/admin-controllers/staffManagementController.js:93 | the lookup gives the same row for any capitalisation of the email |
| Tables.CustomerRows | server/controllers/adminController.js:14 | the legacy `customers` table: exactly the rows of `users` whose role is customer, each one of them |
| Tables.CreditCustomer | server/controllers/adminController.js:159-160 | an UPDATE of the legacy `customers` table keyed by id: the customer rows with the id are credited, every other row, staff and admin included, is unchanged; the row count is kept |
| Tables.FindWithRole | server/admin-controllers/customerController.js:44 | a row with that id and role, or None exactly when there is none |
| Tables.DeactivateWithRole | server/admin-controllers/customerController.js:54 | only the status column changes, and it becomes inactive exactly on the rows with that id and role |
| Tables.NewAccount | server/admin-controllers/staffManagementController.js:103-104 | the new row carries the given name, email, password and role, is active and has no points |
| Tables.Credit | server/controllers/staffController.js:127 | the balance and the lifetime total both rise by the amount; no other column changes |
| Tables.Debit | server/admin-controllers/homeProcessControllers.js:72 | the balance falls by the amount; no other column changes, the lifetime totals included |
| Tables.FloorPoints | server/controllers/adminController.js:154 | the points are the whole number of 50-peso steps in the amount, rounded down |
| Tables.PointsRules | server/controllers/staffController.js:103 | for a non-negative amount the abs rule and the plain floor agree; for a negative amount the floor loses points and the abs rule earns them |
| Tables.CreditUserEffect | server/controllers/staffController.js:127 | with unique ids, crediting by id reaches exactly the one row with the id and keeps the ids unique |
| TxViews.PurchaseEntries | server/staff-controllers/transactionController.js:13-25 | one entry per log row with a positive payment whose user exists, each marked as a purchase, and exactly those |
| TxViews.RedeemEntries | server/staff-controllers/transactionController.js:27-40 | one entry per redemption row the status filter admits whose user and reward exist, each with payment 0, and exactly those |
| TxViews.Union | server/staff-controllers/transactionController.js:55 | `UNION ALL`: as many rows as both parts together, each from one of them, and every row of either part present |
| TxViews.UnionSound | server/staff-controllers/transactionController.js:55 | a row of the concatenation comes from the purchase part or the redemption part |
| TxViews.RedeemEntryShowsCost | server/staff-controllers/transactionController.js:28-35 | a redemption entry shows minus the points used, the request's id and date, the customer's name and "Redeemed: " with the reward name |
| TxViews.NewestFirst | server/staff-controllers/transactionController.js:60 | the same rows, as a permutation, newest first |
| TxViews.Latest | server/admin-controllers/homeController.js:143-144 | exactly min(n, number of rows) rows, newest first, each one of the input rows; no row left out is newer than the last one listed, and when fewer than n come back every row is there |
| TxViews.ParseLimit | server/staff-controllers/transactionController.js:63-65 | no clause exactly when the parameter is missing or empty; a clause of n when parseInt reads n; an invalid query exactly when parseInt yields NaN or a negative number |
| TxViews.ParseLimitReadsCounts | server/staff-controllers/transactionController.js:64 | a printed count followed by any non-digit text limits to that count; a printed negative number is refused |
| TxViews.ApplyLimit | server/staff-controllers/transactionController.js:64 | no clause keeps every row; a limit of n keeps the first min(n, length) rows |
| TransactionPage.TypeQuery | client/src/pages/transaction-page.jsx:44-45 | "All" asks for all and "Pending" for pending, each exactly; any other filter asks for completed |
| TransactionPage.TransactionsView.constructor | client/src/pages/transaction-page.jsx:12-20 | no lines, 0 points, the "All" filter, page 1 of size 10, no total and no pages |
| TransactionPage.TransactionsView.TypeClick | client/src/pages/transaction-page.jsx:66-69 | the new filter is set and the view goes back to page 1; nothing else changes |
| TransactionPage.TransactionsView.PageChange | client/src/pages/transaction-page.jsx:71-75 | a page from 1 to the page count is taken, any other is ignored; nothing else changes |
| TransactionPage.TransactionsView.Receive | client/src/pages/transaction-page.jsx:53-62 | a page reply replaces the lines, the points and the whole pagination object; an error reply leaves the screen as it was; the filter stays |
| TransactionPage.EmptyTextOfTabs | client/src/pages/transaction-page.jsx:112-118 | the empty list reads "You haven't made any transactions yet." under All, and names the tab in lower case under Pending and Completed |
| TransactionPage.TransactionsView.Request | client/src/pages/transaction-page.jsx:44-47 | the query the server reads gives back the view's page, its page size and the type the chosen tab means |
| TransactionPage.TypeFilterReachesServer | client/src/pages/transaction-page.jsx:44-47 | the server reads each filter as the view means it: "All" as everything, "Pending" as pending requests, anything else as completed lines |
| TransactionPage.ServerEchoesPage | client/src/pages/transaction-page.jsx:47-55 | for any page and page size of at least 1 that the view asks for, the server's reply carries them back unchanged |
| TransactionPage.ChosenPageHasLines | client/src/pages/transaction-page.jsx:72 | every page the guard lets through starts before the last counted line |
| StaffPage.Access | client/src/pages/staff-page.jsx:27-37 | the page renders exactly for a token holder whose role is staff or admin; otherwise the browser goes to the login page, stashing the scanned code exactly when there is one |
| StaffPage.InitialChoice | client/src/pages/staff-page.jsx:74-94 | any choice made names a listed customer; nothing is chosen exactly when a code was scanned that no listed customer carries |
| StaffPage.FilteredUsers | client/src/pages/staff-page.jsx:122-126 | exactly the listed customers whose name or email contains the term, ignoring ASCII case |
| StaffPage.StaffView.constructor | client/src/pages/staff-page.jsx:39-44 | no customers, no selection, no initial choice made and an empty search |
| StaffPage.StaffView.UsersLoaded | client/src/pages/staff-page.jsx:65 | the loaded list replaces the customers; nothing else changes |
| StaffPage.StaffView.InitialSelection | client/src/pages/staff-page.jsx:74-94 | while no customer is loaded, or once a choice was made, nothing changes; otherwise the initial choice is applied when there is one, and the choice counts as made |
| StaffPage.StaffView.SelectUser | client/src/pages/staff-page.jsx:178-188 | the customer is selected, and the address written is the code link when the customer has a code, the id link otherwise |
| StaffPage.Navigation | client/src/pages/staff-page.jsx:178-188 | the code link exactly carries a listed customer's own non-empty code; the id link carries the id, and an unknown id always gets the id link |
| StaffPage.NavUrl | client/src/pages/staff-page.jsx:183-187 | the written query holds exactly one of `qrHash` and `userID`, with the link's value |
| StaffPage.IdNavSelectsAgain | client/src/pages/staff-page.jsx:85-87 | a customer reached through the id link is selected again when the page loads from that address |
| StaffPage.ReloadSelectsSameCustomer | client/src/pages/staff-page.jsx:74-188 | with unique codes, picking a listed customer and reloading the address it writes selects that same customer |
| TransactionCard.ToneOf | client/src/components/TransactionCard.jsx:6-28 | red exactly for redeem types, green exactly for purchase or earned, blue exactly for reward, case ignored |
| TransactionCard.StatusBadge | client/src/components/TransactionCard.jsx:56-63 | a badge exactly for a non-empty status, showing it: green exactly for completed, yellow exactly for pending |
| TransactionCard.Card | client/src/components/TransactionCard.jsx:4 | a card exactly when there is a transaction |
| TransactionCard.SignFollowsTone | client/src/components/TransactionCard.jsx:70-71 | the amount starts with '-' exactly on red cards, and the text after the sign reads back as the amount |
| TransactionCard.Title | client/src/components/TransactionCard.jsx:52-54 | other types show the description; redeem types show "Redeemed: " and the description up to its first " - " (the whole when there is none) |
| TransactionCard.AmountText | client/src/components/TransactionCard.jsx:70-71 | a sign and the amount: '-' exactly for redeem types, '+' otherwise, followed by the amount in decimal |
| TransactionCard.ToneIgnoresCase | client/src/components/TransactionCard.jsx:7-19 | the colour does not depend on how the type is capitalised |
| TransactionCard.TitleIsPrefix | client/src/components/TransactionCard.jsx:53 | cutting "name - brand" at the first " - " gives back the name, when the name itself holds no " - " |
| TransactionCard.RedemptionCard | client/src/components/TransactionCard.jsx:52-71 | a customer's redemption line is red, titled "Redeemed: " and the reward's name, shows '-' and the points spent, with a badge for its status |
| TransactionCard.PurchaseCard | client/src/components/TransactionCard.jsx:52-71 | a customer's purchase line is green, titled by its payment, shows '+' and the points earned, with a green completed badge |
| ProcessPending.Toggled | client/src/components/ProcessPending.jsx:50-56 | ticking appends the id; unticking removes every copy of it and keeps every other id |
| ProcessPending.MessageAfter | client/src/components/ProcessPending.jsx:78-95 | after a successful request the reply's own message is shown |
| ProcessPending.MessageAfterAsWritten | client/src/components/ProcessPending.jsx:21-82 | as written, after a successful request the message is empty; after a failure it is the error text |
| ProcessPending.ResponseOf | client/src/components/ProcessPending.jsx:78-92 | `response.ok` exactly for the no-pending reply and the batch summary, which carries its own message; every failure carries a message; no server reply is a network error |
| ProcessPending.StyleOf | client/src/components/ProcessPending.jsx:227 | hidden exactly for an empty message; green exactly when it mentions "successfully" or "No pending" |
| ProcessPending.PendingDialog.constructor | client/src/components/ProcessPending.jsx:5-9 | nothing listed, not busy, no message, nothing selected |
| ProcessPending.PendingDialog.Open | client/src/components/ProcessPending.jsx:11-39 | the fetched list (empty on failure) is shown, the message cleared and the selection emptied |
| ProcessPending.PendingDialog.SelectAll | client/src/components/ProcessPending.jsx:41-48 | every listed id or none is selected; nothing else changes |
| ProcessPending.PendingDialog.SelectItem | client/src/components/ProcessPending.jsx:50-56 | the selection is toggled for the id; nothing else changes |
| ProcessPending.PendingDialog.Submit | client/src/components/ProcessPending.jsx:58-105 | with nothing selected only the reminder is shown; otherwise the dialog is busy and posts the button's action with the selection |
| ProcessPending.PendingDialog.FinishAsWritten | client/src/components/ProcessPending.jsx:78-95 | the message left is the as-written one; the list is refreshed only after a success; the selection is kept |
| ProcessPending.PendingDialog.Finish | client/src/components/ProcessPending.jsx:78-95 | the message left is the reply's own after a success, the error text otherwise; the list is refreshed only after a success |
| ProcessPending.PendingDialog.TimerFires | client/src/components/ProcessPending.jsx:86 | the timer clears the message and nothing else |
| ProcessPending.RequestActionReachesServer | client/src/components/ProcessPending.jsx:69-72 | the server reads the posted action as the button means it |
| ProcessPending.ToggleBack | client/src/components/ProcessPending.jsx:50-56 | ticking and then unticking an id that was not selected gives back the selection |
| ProcessPending.SummaryShownAsSuccess | client/src/components/ProcessPending.jsx:78-87 | a batch summary, once kept, is shown in green |
| ProcessPending.NoPendingShownAsSuccess | client/src/components/ProcessPending.jsx:227 | the reply for ids none of which is pending is shown in green |
| ProcessPending.SummaryLostAsWritten | client/src/components/ProcessPending.jsx:21-82 | as written, a successful batch leaves no message on screen |
| PurchaseForm.CheckedCost | client/src/components/ProcessPurchase.jsx:12-14 | accepted exactly when the name is not blank and `Number` reads the cost as a positive number, which is the value handed on |
| PurchaseForm.PurchaseDialog.constructor | client/src/components/ProcessPurchase.jsx:6-8 | both fields empty and no error |
| PurchaseForm.PurchaseDialog.Process | client/src/components/ProcessPurchase.jsx:10-25 | a refused entry only sets the error text; an accepted one hands on the name and the cost, clears both fields and the error |
| PurchaseForm.DigitsAccepted | client/src/components/ProcessPurchase.jsx:12-14 | any positive whole amount typed in digits is accepted with its value |
| PurchaseForm.BlankRefused | client/src/components/ProcessPurchase.jsx:14 | a blank name or a blank cost is refused |
| PurchaseForm.SubmittedCostPassesServerCheck | client/src/components/ProcessPurchase.jsx:14 | a cost the dialog accepts never meets the purchase handler's 400 check, for any customer id other than 0 |
| AddRewardForm.Checked | client/src/components/AddReward.jsx:13-27 | accepted exactly when every text is non-empty and `Number` reads the points; the handed-on reward carries the fields and that number |
| AddRewardForm.RewardDialog.constructor | client/src/components/AddReward.jsx:6-10 | all five fields empty |
| AddRewardForm.RewardDialog.Save | client/src/components/AddReward.jsx:12-40 | the saved reward is the checked one; the alert is shown exactly when none is saved; a save clears every field, an alert leaves them |
| AddRewardForm.DialogAndServerDisagreeOnZero | client/src/components/AddReward.jsx:16-17 | a reward the dialog sends is refused by the add-reward handler exactly when its points read as 0 |
| AddRewardForm.ZeroPointsPassDialog | client/src/components/AddReward.jsx:16-17 | "0" and a run of blanks both pass the dialog as 0 points |
| Util.Lower | client/src/pages/admin-rewards.jsx:58-60 | `toLowerCase`, for the letters A–Z only: keeps the length and leaves no letter A–Z |
| Util.LowerIdempotent | client/src/pages/admin-rewards.jsx:58-60 | lowering twice is lowering once |
| Util.ParseInt | server/controllers/transactionController.js:10-11 | `parseInt` gives NaN exactly when no digit follows the leading white space and sign |
| Util.ParseIntOfNatToString | server/controllers/transactionController.js:10-11 | a printed count reads back as itself |
| Util.ToNumber | client/src/components/ProcessPurchase.jsx:12 | `Number` reads blank text as 0 |
| Util.ToNumberOfNatToString | client/src/components/ProcessPurchase.jsx:12 | `Number` reads a printed count back as itself |
| Util.SortDesc | server/controllers/staffController.js:43 | `ORDER BY ... DESC`: the same rows, as a permutation, largest key first |
| Util.CeilDiv | client/src/pages/admin-rewards.jsx:66 | `Math.ceil(n / d)`: the fewest pages of d rows that hold n rows |
| Util.PageSliceShape | client/src/pages/admin-rewards.jsx:66-69 | each page from 1 to the page count shows between one and d rows, the ones from (page - 1) * d on |
| Util.PagesCoverAll | client/src/pages/admin-rewards.jsx:66-69 | the pages 1 to the page count, one after another, show every row once, in order |

## Left out

- Database plumbing: connections, the pool and the promise wrappers are I/O. Each query is a read or an update of the tables, and each `BEGIN … COMMIT/ROLLBACK` block is one atomic step. `getConnection` is not exported by server/database/utils.js, and server/staff-controllers/staffController.js never imports it; the model gives `processPurchase` the transactional meaning its authors wrote, not the runtime failure.
- Concurrency: requests run one after another. Two approvals racing past the same balance check are not modelled.
- Order among rows with equal sort keys: `ORDER BY` breaks ties in table order here. MySQL leaves that order unspecified.
- `DATE_FORMAT`, `toLocaleDateString` and the month-boundary date arithmetic: dates are opaque ordered integers, and month starts are parameters.
- Floating point: amounts are whole pesos. `engagementRate` is computed on the exact ratio and rounded half up in integers, not in doubles. `Number()` and `parseInt` read decimal integers only; fractions, exponents and hexadecimal are not modelled, so `PurchaseForm.CheckedCost` refuses "12.50".
- Numbers beyond JavaScript's safe-integer range, and `LIMIT` values that make MySQL reject the query for their size: integers are unbounded here.
- SQL injection through the text spliced into `LIMIT ${…}`: the spliced limit is modelled only for all-digit strings (`AdminHome.DashboardLimit`); any other text is not modelled as SQL.
- `GROUP BY` over duplicated ids and the row multiplication of a `JOIN` on duplicated keys: ids are unique in every table (`Stores.Store.Valid`).
- The `IN (?)` list of mysqljs is modelled two ways. In the batch handler an empty id array passes the guard of server/admin-controllers/homeProcessControllers.js:9 and renders `IN ()`, which MySQL rejects, so `Batch.ProcessPendingRedemptions` answers the 500 on `[]` with nothing changed. In the staff handler the ids are joined into one text first; MySQL reads that text as its leading number, so only the first id (0 for an empty array) is compared (`StaffRedemptions.JoinedMatch`). `StaffRedemptions.ProcessRedemptions` models the handler with the ids bound as a list; see Findings.
- StaffRedemptions.MySqlNumber: MySQL's text-to-number conversion is modelled for a leading integer only; decimal fractions and exponents in the text are not read.
- bcrypt, JSON web tokens, `crypto.randomBytes`, nodemailer and the QR image: hashes, tokens and "email sent" are inputs. `Auth.GetQRCode` models only the address the QR image encodes, not the image `QRCode.toDataURL` draws from it.
- The URL encoding of `qrHash` in the staff-page address: codes are taken to need none.
- Rendering, routing and wiring: React markup, the route files and server/server.js. Dialogs that are closed render nothing; that is not modelled.
- Client I/O: the fetch and axios calls, localStorage, sessionStorage, `window.location` redirects and alerts. Their results are inputs, and the redirect decisions are results (`StaffPage.Access`). The 401/403 logout of client/src/pages/transaction-page.jsx is not modelled.
- The user-details fetch of client/src/pages/staff-page.jsx and its purchase handler, which post to the handlers modelled in `StaffController`.
- `getPendingTransactions` of server/controllers/staffController.js and server/staff-controllers/staffController.js names columns the tables do not have (`redemptionID`, `date`, `status`, `pointsCost`); it is not modelled.
- StaffController.UserTxs: the constant `type` ('Purchase') and the `description` text of each entry are not carried; an entry holds the id, the date, the points and the payment.
- CustomerRewards.ViewRewards: the reply's `points` is the whole row object `{ pointsBalance }` in the code; the model keeps the number.
- `customerName`, which the purchase dialog hands on, is ignored by the staff page and by the server; the model carries it and uses it nowhere.
- ProcessPending: the selection is kept after a request; stale ids are not cleared. That behaviour is modelled as written and not corrected.
- A `null` transaction type in the admin transaction list makes `toLowerCase` throw. The model shows no badge for such a row instead (`AdminTransactionsPage.PointsBadge`).
- Util.Lower: folds only the ASCII letters A–Z. JavaScript's `toLowerCase` folds every cased Unicode letter, so names and emails with other capitals are not folded here.
- AdminRewardsPage.FilteredRewards: the case-ignoring search folds only ASCII letters (`Util.Lower`).
- AdminCustomersPage.FilteredUsers: the case-ignoring search folds only ASCII letters (`Util.Lower`).
- AdminTransactionsPage.FilteredTransactions: the case-ignoring search folds only ASCII letters (`Util.Lower`).
- StaffPage.FilteredUsers: the case-ignoring search folds only ASCII letters (`Util.Lower`).
- Util.Trim: strips only ASCII whitespace (space, tab, line feed, vertical tab, form feed, carriage return). JavaScript's `trim` also strips the no-break space, the other Unicode spaces and the line terminators U+2028 and U+2029.
- Account.UpdateAccountName: the name check and the stored name use `Util.Trim`, so only ASCII whitespace is stripped.
- AdminHome.DashboardLimit: white space around the spliced digits is allowed only when it is ASCII white space (`Util.Trim`); other text, such as a sign or a decimal point, is modelled as invalid SQL.
- Tables.SameText: MySQL's default collation compares emails and reward categories ignoring case; the model ignores ASCII case only. Accent-insensitive matches and non-ASCII case are not modelled, and neither is trailing-space padding.
- Tables.FindEmail: matches by `Tables.SameText`, with the same limits.
- Auth.Register: the "email already registered" lookup matches by `Tables.SameText`, with the same limits.
- Auth.FindVerified: matches by `Tables.SameText`, with the same limits.
- Auth.Login: finds the account by `Tables.SameText`, with the same limits.
- Auth.StoreResetToken: updates the rows whose email matches by `Tables.SameText`, with the same limits.
- Auth.ForgotPassword: finds the account by `Tables.SameText`, with the same limits.
- AdminStaff.AddStaff: the "email already used" lookup matches by `Tables.SameText`, with the same limits.
- ExistingRoutes.GetCustomerByHash: the QR code is compared exactly, character for character, not under the collation. The codes are bcrypt hashes that mix upper and lower case, so a code that differs from a stored one only in letter case would find the row in MySQL but not here.
- Auth.VerifyEmail: the verification token is compared exactly, not under the collation. The tokens are lower-case hexadecimal, so only a token retyped in capitals would differ.
- Auth.MarkVerified: the verification token is compared exactly, not under the collation.
- Auth.ResetPassword: the reset token is compared exactly, not under the collation.
- The visibility of the transaction page's pagination bar and the disabled state of the approve and deny buttons are rendering only and are not modelled. The warning for an empty selection is modelled (`ProcessPending.PendingDialog.Submit`).

## Findings

| source | as written | input that shows it | evidently intended | confidence | as-written member | corrected member |
|---|---|---|---|---|---|---|
| server/controllers/adminController.js:17 | the dashboard counts redemptions whose status is 'approved', a status no row ever has | any table: approvals set 'completed', so the count is 0 however many were approved | count the 'completed' redemptions | not executed | AdminController.RedeemedCountAlwaysZero | AdminController.ApprovalCountedOnce |
| server/admin-controllers/homeController.js:164 | the "redeem" filter removes the purchase part with a regular expression whose text is the literal `${totalLimit}`, not the number in the query, so nothing is removed | one customer with one purchase and no redemptions, type "redeem": the purchase is listed | list only pending redemptions | not executed | AdminHome.RedeemTypeShowsPurchases | AdminHome.GetDashboardTransactions |
| server/controllers/staffController.js:488-489 | for "redeem" the pattern `/SELECT.*FROM transactions.*UNION ALL/` has no `s` flag, so it cannot span the query's lines and removes nothing; one parameter is then bound for two placeholders and the query fails | any tables, type "redeem": the reply is the 500 | list only the customer's pending redemptions | not executed | ClassicStaffTransactions.RedeemTypeFailsAsWritten | ClassicStaffTransactions.RedeemTypeListsPending |
| server/controllers/transactionController.js:22-31 | the customer's purchase lines take every log row of the customer, including the approval rows with payment 0 and `+pointsUsed` | a single approval row (payment 0): it is listed as a completed purchase that earned the points just spent | list only paid purchases (`paymentAmount > 0`), as the staff and admin views do | not executed | CustomerTransactions.ApprovalShownAsPurchase | CustomerTransactions.ApprovalNotShownWhenPaid |
| client/src/components/ProcessPending.jsx:78-82 | after a successful request the dialog sets the reply's message and then awaits the refresh, whose first step clears the message | approving one pending request: the green summary is never left on screen | keep the summary until the five-second timer clears it | not executed | ProcessPending.SummaryLostAsWritten | ProcessPending.SummaryShownAsSuccess |
| server/staff-controllers/redemptionController.js:48-54 | the ids are joined into one text and bound to `IN (?)`; MySQL compares each integer redeemID with that text read as a number, which is its leading id | ids [5, 7] with both requests pending: only request 5 is processed | process every requested pending id | not executed | StaffRedemptions.JoinedIdsSelectOnlyFirst | StaffRedemptions.ProcessRedemptions |
