/** Rows of the four MySQL tables the handlers work on (`users`, `rewards`, `redemption`,
    `transactions`) and the row-level effects of the UPDATE statements they issue. */
module Tables {
  import opened Util

  datatype Role = Customer | Staff | Admin

  /** `users.status` and `rewards.isActive`. */
  datatype Status = Active | Inactive

  /** `redemption.redeemStatus`; `pending` is the initial state, the other two are terminal. */
  datatype RedeemStatus = Pending | Completed | Denied

  /** A row of `users`. Times (dateJoined, resetExpires) are milliseconds since the epoch. */
  datatype User = User(
    userID: int,
    name: string,
    email: string,
    password: string,
    role: Role,
    status: Status,
    pointsBalance: int,
    totalEarnedLifetime: int,
    totalRedeemedLifetime: int,
    qrcode: Option<string>,
    dateJoined: int,
    isVerified: bool,
    verificationToken: Option<string>,
    resetToken: Option<string>,
    resetExpires: Option<int>)

  /** A row of `rewards`. */
  datatype Reward = Reward(
    rewardID: int,
    rewardName: string,
    description: string,
    pointsRequired: int,
    brand: string,
    category: string,
    isActive: Status,
    dateCreated: int)

  /** A row of `redemption`: a customer's request to exchange `pointsUsed` points for a reward. */
  datatype Redemption = Redemption(
    redeemID: int,
    userID: int,
    rewardID: int,
    pointsUsed: int,
    redeemStatus: RedeemStatus,
    dateRedeemed: int)

  /** A row of the append-only `transactions` log. `txType` is the optional `type` column. */
  datatype TxRow = TxRow(
    transactionID: int,
    userID: int,
    paymentAmount: int,
    pointsChange: int,
    date: int,
    txType: Option<string>)

  // ------------------------------------------------------------------
  // Primary keys
  // ------------------------------------------------------------------

  ghost predicate UniqueUserIds(us: seq<User>)
  {
    forall i, j :: 0 <= i < j < |us| ==> us[i].userID != us[j].userID
  }

  ghost predicate UniqueRewardIds(rs: seq<Reward>)
  {
    forall i, j :: 0 <= i < j < |rs| ==> rs[i].rewardID != rs[j].rewardID
  }

  ghost predicate UniqueRedeemIds(rs: seq<Redemption>)
  {
    forall i, j :: 0 <= i < j < |rs| ==> rs[i].redeemID != rs[j].redeemID
  }

  ghost predicate UniqueTxIds(ts: seq<TxRow>)
  {
    forall i, j :: 0 <= i < j < |ts| ==> ts[i].transactionID != ts[j].transactionID
  }

  // ------------------------------------------------------------------
  // Lookups: `SELECT ... WHERE id = ?` and `rows[0]`
  // ------------------------------------------------------------------

  /** Index of the first `users` row with this id. */
  function FindUser(us: seq<User>, id: int): (r: Option<nat>)
    ensures r.Some? ==> r.value < |us| && us[r.value].userID == id
    ensures r.Some? ==> forall k :: 0 <= k < r.value ==> us[k].userID != id
    ensures r.None? <==> forall k :: 0 <= k < |us| ==> us[k].userID != id
  {
    FirstIndex(us, (u: User) => u.userID == id)
  }

  /** Index of the first `rewards` row with this id. */
  function FindReward(rs: seq<Reward>, id: int): (r: Option<nat>)
    ensures r.Some? ==> r.value < |rs| && rs[r.value].rewardID == id
    ensures r.Some? ==> forall k :: 0 <= k < r.value ==> rs[k].rewardID != id
    ensures r.None? <==> forall k :: 0 <= k < |rs| ==> rs[k].rewardID != id
  {
    FirstIndex(rs, (w: Reward) => w.rewardID == id)
  }

  /** With unique ids, the row found is the only row with that id. */
  lemma FindUserUnique(us: seq<User>, id: int, k: nat)
    requires UniqueUserIds(us) && k < |us| && us[k].userID == id
    ensures FindUser(us, id) == Some(k)
  {
  }

  // ------------------------------------------------------------------
  // Row updates: `UPDATE table SET ... WHERE id = ?` touches every row with the id
  // ------------------------------------------------------------------

  /** `UPDATE users SET <f> WHERE userID = id`. */
  function UpdateUser(us: seq<User>, id: int, f: User -> User): (r: seq<User>)
    ensures |r| == |us|
    ensures forall k :: 0 <= k < |us| ==> r[k] == if us[k].userID == id then f(us[k]) else us[k]
  {
    seq(|us|, k requires 0 <= k < |us| => if us[k].userID == id then f(us[k]) else us[k])
  }

  /** `UPDATE users SET <f> WHERE <p>`. */
  function UpdateUsersWhere(us: seq<User>, p: User -> bool, f: User -> User): (r: seq<User>)
    ensures |r| == |us|
    ensures forall k :: 0 <= k < |us| ==> r[k] == if p(us[k]) then f(us[k]) else us[k]
  {
    seq(|us|, k requires 0 <= k < |us| => if p(us[k]) then f(us[k]) else us[k])
  }

  /** `UPDATE rewards SET <f> WHERE rewardID = id`. */
  function UpdateReward(rs: seq<Reward>, id: int, f: Reward -> Reward): (r: seq<Reward>)
    ensures |r| == |rs|
    ensures forall k :: 0 <= k < |rs| ==> r[k] == if rs[k].rewardID == id then f(rs[k]) else rs[k]
  {
    seq(|rs|, k requires 0 <= k < |rs| => if rs[k].rewardID == id then f(rs[k]) else rs[k])
  }

  /** `UPDATE redemption SET redeemStatus = st WHERE redeemID = id`. */
  function SetRedeemStatus(rs: seq<Redemption>, id: int, st: RedeemStatus): (r: seq<Redemption>)
    ensures |r| == |rs|
    ensures forall k :: 0 <= k < |rs| ==>
      r[k] == if rs[k].redeemID == id then rs[k].(redeemStatus := st) else rs[k]
  {
    seq(|rs|, k requires 0 <= k < |rs| =>
      if rs[k].redeemID == id then rs[k].(redeemStatus := st) else rs[k])
  }

  /** `affectedRows` of an UPDATE on `users` keyed by userID. */
  function UsersWithId(us: seq<User>, id: int): nat
  {
    |Filter(us, (u: User) => u.userID == id)|
  }

  /** `affectedRows` of an UPDATE on `rewards` keyed by rewardID. */
  function RewardsWithId(rs: seq<Reward>, id: int): nat
  {
    |Filter(rs, (w: Reward) => w.rewardID == id)|
  }

  /** An UPDATE keyed by an id affects no row exactly when no row has that id. */
  lemma UsersWithIdZero(us: seq<User>, id: int)
    ensures UsersWithId(us, id) == 0 <==> FindUser(us, id).None?
  {
    if UsersWithId(us, id) != 0 {
      var f := Filter(us, (u: User) => u.userID == id);
      assert f[0] in us;
    }
  }

  lemma RewardsWithIdZero(rs: seq<Reward>, id: int)
    ensures RewardsWithId(rs, id) == 0 <==> FindReward(rs, id).None?
  {
    if RewardsWithId(rs, id) != 0 {
      var f := Filter(rs, (w: Reward) => w.rewardID == id);
      assert f[0] in rs;
    }
  }

  // ------------------------------------------------------------------
  // Accounts: role-keyed lookups, soft delete, new rows
  // ------------------------------------------------------------------

  /** `req.query.showInactive === "true"`: only that exact text switches the flag on. */
  predicate ShowInactive(q: Option<string>) { q == Some("true") }

  /** `column = ?` on text under MySQL's default collation, which ignores letter case: the
      two strings agree once their letters are lowered (emails, reward categories). */
  predicate SameText(a: string, b: string) { Lower(a) == Lower(b) }

  /** No two accounts share an email address, as the collation compares them. */
  ghost predicate UniqueEmails(us: seq<User>)
  {
    forall i, j :: 0 <= i < j < |us| ==> !SameText(us[i].email, us[j].email)
  }

  /** `SELECT ... FROM users WHERE email = ?`, first row. */
  function FindEmail(us: seq<User>, email: string): (r: Option<nat>)
    ensures r.Some? ==> r.value < |us| && SameText(us[r.value].email, email)
    ensures r.Some? ==> forall k :: 0 <= k < r.value ==> !SameText(us[k].email, email)
    ensures r.None? <==> forall k :: 0 <= k < |us| ==> !SameText(us[k].email, email)
  {
    FirstIndex(us, (u: User) => SameText(u.email, email))
  }

  /** The lookup does not depend on how the address is cased: an address, its lower-case
      form and any other casing of it find the same row. */
  lemma FindEmailIgnoresCase(us: seq<User>, email: string, other: string)
    requires Lower(other) == Lower(email)
    ensures FindEmail(us, other) == FindEmail(us, email)
    ensures FindEmail(us, Lower(email)) == FindEmail(us, email)
  {
    LowerIdempotent(email);
    FirstIndexSame(us, (u: User) => SameText(u.email, other), (u: User) => SameText(u.email, email));
    FirstIndexSame(us, (u: User) => SameText(u.email, Lower(email)), (u: User) => SameText(u.email, email));
  }

  /** `SELECT ... FROM users WHERE userID = ? AND role = <role>`, first row. */
  function FindWithRole(us: seq<User>, id: int, role: Role): (r: Option<nat>)
    ensures r.Some? ==> r.value < |us| && us[r.value].userID == id && us[r.value].role == role
    ensures r.None? <==> forall k :: 0 <= k < |us| ==> !(us[k].userID == id && us[k].role == role)
  {
    FirstIndex(us, (u: User) => u.userID == id && u.role == role)
  }

  /** The legacy `customers` table of the older handlers: the customer rows of `users`, in
      table order. */
  predicate IsCustomer(u: User) { u.role == Customer }

  function CustomerRows(us: seq<User>): (r: seq<User>)
    ensures forall k :: 0 <= k < |r| ==> r[k] in us && r[k].role == Customer
    ensures forall k :: 0 <= k < |us| && us[k].role == Customer ==> us[k] in r
  {
    Filter(us, IsCustomer)
  }

  /** `UPDATE customers SET totalEarnedLifetime = totalEarnedLifetime + p,
      pointsBalance = pointsBalance + p WHERE customerID = id`. */
  function CreditCustomer(us: seq<User>, id: int, p: int): (r: seq<User>)
    ensures |r| == |us|
    ensures forall k :: 0 <= k < |us| ==>
              r[k] == if us[k].userID == id && us[k].role == Customer then Credit(us[k], p) else us[k]
  {
    UpdateUsersWhere(us, (u: User) => u.userID == id && u.role == Customer, (u: User) => Credit(u, p))
  }

  /** `UPDATE users SET status = 'inactive' WHERE userID = ? AND role = <role>`. */
  function DeactivateWithRole(us: seq<User>, id: int, role: Role): (r: seq<User>)
    ensures SameButStatus(us, r)
    ensures forall k :: 0 <= k < |us| ==>
              r[k].status == if us[k].userID == id && us[k].role == role then Inactive else us[k].status
  {
    UpdateUsersWhere(us, (u: User) => u.userID == id && u.role == role, (u: User) => u.(status := Inactive))
  }

  /** A fresh `users` row as an INSERT that names only `name`, `email`, `password` and `role`
      leaves it: active, no points, no QR code, unverified, no tokens, joined `now`. The id is
      the AUTO_INCREMENT value and is filled in by the insert. */
  function NewAccount(name: string, email: string, password: string, role: Role, now: int): (u: User)
    ensures u.name == name && u.email == email && u.password == password && u.role == role
    ensures u.status == Active && u.pointsBalance == u.totalEarnedLifetime == u.totalRedeemedLifetime == 0
  {
    User(0, name, email, password, role, Active, 0, 0, 0, None, now, false, None, None, None)
  }

  // ------------------------------------------------------------------
  // Ledger effects on one user row
  // ------------------------------------------------------------------

  /** `pointsBalance = pointsBalance + p, totalEarnedLifetime = totalEarnedLifetime + p`. */
  function Credit(u: User, p: int): (r: User)
    ensures r.pointsBalance - u.pointsBalance == r.totalEarnedLifetime - u.totalEarnedLifetime == p
    ensures r.(pointsBalance := u.pointsBalance, totalEarnedLifetime := u.totalEarnedLifetime) == u
  {
    u.(pointsBalance := u.pointsBalance + p, totalEarnedLifetime := u.totalEarnedLifetime + p)
  }

  /** `pointsBalance = pointsBalance - p`; the lifetime counters are not touched. */
  function Debit(u: User, p: int): (r: User)
    ensures u.pointsBalance - r.pointsBalance == p
    ensures r.(pointsBalance := u.pointsBalance) == u
  {
    u.(pointsBalance := u.pointsBalance - p)
  }

  /** `UPDATE users SET pointsBalance = pointsBalance + p, totalEarnedLifetime = totalEarnedLifetime + p
      WHERE userID = id`. */
  function CreditUser(us: seq<User>, id: int, p: int): seq<User>
  {
    UpdateUser(us, id, (u: User) => Credit(u, p))
  }

  /** `UPDATE users SET pointsBalance = pointsBalance - p WHERE userID = id`. */
  function DebitUser(us: seq<User>, id: int, p: int): seq<User>
  {
    UpdateUser(us, id, (u: User) => Debit(u, p))
  }

  /** `UPDATE rewards SET isActive = 'inactive' WHERE rewardID = id`. */
  function DeactivateReward(rs: seq<Reward>, id: int): seq<Reward>
  {
    UpdateReward(rs, id, (w: Reward) => w.(isActive := Inactive))
  }

  /** `UPDATE users SET status = 'inactive' WHERE userID = id`. */
  function DeactivateUser(us: seq<User>, id: int): seq<User>
  {
    UpdateUser(us, id, (u: User) => u.(status := Inactive))
  }

  // ------------------------------------------------------------------
  // Points for a purchase: one point per 50 pesos
  // ------------------------------------------------------------------

  function Abs(x: int): nat { if x < 0 then -x else x }

  /** `Math.floor(amount / 50)`. */
  function FloorPoints(amount: int): (p: int)
    ensures 50 * p <= amount < 50 * p + 50
  {
    amount / 50
  }

  /** `Math.abs(Math.floor(amount / 50))`. */
  function AbsPoints(amount: int): nat
  {
    Abs(FloorPoints(amount))
  }

  /** For a positive amount the two rules agree and discard the remainder: 149 pesos earn 2
      points. A negative amount earns points under the `abs` rule and loses them under the
      plain floor. */
  lemma PointsRules(amount: int)
    ensures amount >= 0 ==> AbsPoints(amount) == FloorPoints(amount) && 50 * AbsPoints(amount) <= amount
    ensures amount < 0 ==> FloorPoints(amount) < 0 && AbsPoints(amount) == -FloorPoints(amount) > 0
    ensures FloorPoints(149) == 2 && AbsPoints(-100) == 2 && FloorPoints(-75) == -2
  {
  }

  /** Two user tables that differ at most in the balances. */
  ghost predicate SameButBalances(a: seq<User>, b: seq<User>)
  {
    |a| == |b| && forall k :: 0 <= k < |a| ==> b[k] == a[k].(pointsBalance := b[k].pointsBalance)
  }

  /** Two user tables that differ at most in the status column. */
  ghost predicate SameButStatus(a: seq<User>, b: seq<User>)
  {
    |a| == |b| && forall k :: 0 <= k < |a| ==> b[k] == a[k].(status := b[k].status)
  }

  /** Crediting or debiting a user row by id keeps the keys and every column other than the
      counters, and with unique ids reaches exactly the row with that id. */
  lemma CreditUserEffect(us: seq<User>, id: int, p: int, k: nat)
    requires UniqueUserIds(us) && k < |us| && us[k].userID == id
    ensures UniqueUserIds(CreditUser(us, id, p))
    ensures CreditUser(us, id, p)[k] == Credit(us[k], p)
    ensures forall j :: 0 <= j < |us| && j != k ==> CreditUser(us, id, p)[j] == us[j]
  {
  }

  lemma SameButBalancesTrans(a: seq<User>, b: seq<User>, c: seq<User>)
    requires SameButBalances(a, b) && SameButBalances(b, c)
    ensures SameButBalances(a, c)
  {
  }
}
