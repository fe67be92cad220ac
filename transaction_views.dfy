/** The rows the staff and admin transaction lists are built from: purchases from the
    `transactions` log joined with `users`, and redemptions joined with `users` and `rewards`,
    merged by `UNION ALL` and ordered by date. Dates are shown through `DATE_FORMAT`, which is
    left out: an entry carries only the sort key. */
module TxViews {
  import opened Util
  import opened Tables

  datatype EntryKind = Purchase | Redeem

  /** One listed row: `id, sortDate, name, type, description, points` and, in the admin lists,
      `payment` (0 on redemptions). */
  datatype Entry = Entry(id: int, sortDate: int, name: string, kind: EntryKind, description: string, points: int, payment: int)

  function SortKey(e: Entry): int { e.sortDate }

  /** How the purchase description reads: `CONCAT('Payment: ₱', t.paymentAmount)` in the staff
      lists, the constant 'Purchase' in the admin lists. */
  datatype Wording = StaffWording | AdminWording

  /** Whose rows: `AND x.userID = ?`, or everyone's. */
  predicate Owned(userID: int, who: Option<int>) { who.None? || userID == who.value }

  /** `FROM transactions t JOIN users c ON t.userID = c.userID WHERE t.paymentAmount > 0`:
      approval log rows, whose payment is 0, never appear as purchases. */
  predicate IsPurchaseRow(users: seq<User>, t: TxRow, who: Option<int>)
  {
    t.paymentAmount > 0 && Owned(t.userID, who) && FindUser(users, t.userID).Some?
  }

  function PurchaseRows(users: seq<User>, who: Option<int>): TxRow -> bool
  {
    (t: TxRow) => IsPurchaseRow(users, t, who)
  }

  function PurchaseEntryOf(users: seq<User>, wording: Wording): TxRow -> Entry
  {
    (t: TxRow) =>
      match FindUser(users, t.userID)
      case None => Entry(t.transactionID, t.date, "", Purchase, "", t.pointsChange, t.paymentAmount)
      case Some(i) =>
        var text := if wording == StaffWording then "Payment: ₱" + IntToString(t.paymentAmount) else "Purchase";
        Entry(t.transactionID, t.date, users[i].name, Purchase, text, t.pointsChange, t.paymentAmount)
  }

  /** `e` is the entry of some purchase row. */
  ghost predicate PurchaseOf(users: seq<User>, ts: seq<TxRow>, who: Option<int>, wording: Wording, e: Entry)
  {
    exists j :: 0 <= j < |ts| && IsPurchaseRow(users, ts[j], who) && e == PurchaseEntryOf(users, wording)(ts[j])
  }

  /** The purchase part of the UNION, in table order. */
  function PurchaseEntries(users: seq<User>, ts: seq<TxRow>, who: Option<int>, wording: Wording): (r: seq<Entry>)
    ensures |r| == |Filter(ts, PurchaseRows(users, who))| <= |ts|
    ensures forall k :: 0 <= k < |r| ==> r[k].kind == Purchase && r[k].payment > 0
    ensures forall k :: 0 <= k < |r| ==> PurchaseOf(users, ts, who, wording, r[k])
    ensures forall j :: 0 <= j < |ts| && IsPurchaseRow(users, ts[j], who) ==> PurchaseEntryOf(users, wording)(ts[j]) in r
  {
    var rows := Filter(ts, PurchaseRows(users, who));
    assert forall k :: 0 <= k < |rows| ==> exists j :: 0 <= j < |ts| && ts[j] == rows[k];
    Project(rows, PurchaseEntryOf(users, wording))
  }

  /** The status condition on the redemption part. */
  datatype StatusFilter = NotDenied | OnlyCompleted | OnlyPending

  predicate Admits(f: StatusFilter, st: RedeemStatus)
  {
    match f
    case NotDenied => st != Denied
    case OnlyCompleted => st == Completed
    case OnlyPending => st == Pending
  }

  /** `FROM redemption r JOIN users c ON r.userID = c.userID JOIN rewards rew ON
      r.rewardID = rew.rewardID WHERE <status filter>`. */
  predicate IsRedeemRow(users: seq<User>, rewards: seq<Reward>, r: Redemption, who: Option<int>, f: StatusFilter)
  {
    Admits(f, r.redeemStatus) && Owned(r.userID, who) && FindUser(users, r.userID).Some? && FindReward(rewards, r.rewardID).Some?
  }

  function RedeemRows(users: seq<User>, rewards: seq<Reward>, who: Option<int>, f: StatusFilter): Redemption -> bool
  {
    (r: Redemption) => IsRedeemRow(users, rewards, r, who, f)
  }

  /** `-r.pointsUsed as points`, `CONCAT('Redeemed: ', rew.rewardName)`, payment 0. */
  function RedeemEntryOf(users: seq<User>, rewards: seq<Reward>): Redemption -> Entry
  {
    (r: Redemption) =>
      match (FindUser(users, r.userID), FindReward(rewards, r.rewardID))
      case (Some(i), Some(w)) => Entry(r.redeemID, r.dateRedeemed, users[i].name, Redeem, "Redeemed: " + rewards[w].rewardName, -r.pointsUsed, 0)
      case _ => Entry(r.redeemID, r.dateRedeemed, "", Redeem, "", -r.pointsUsed, 0)
  }

  /** `e` is the entry of some redemption row the filter admits. */
  ghost predicate RedeemOf(users: seq<User>, rewards: seq<Reward>, rs: seq<Redemption>, who: Option<int>, f: StatusFilter, e: Entry)
  {
    exists j :: 0 <= j < |rs| && IsRedeemRow(users, rewards, rs[j], who, f) && e == RedeemEntryOf(users, rewards)(rs[j])
  }

  /** The redemption part of the UNION, in table order. */
  function RedeemEntries(users: seq<User>, rewards: seq<Reward>, rs: seq<Redemption>, who: Option<int>, f: StatusFilter): (r: seq<Entry>)
    ensures |r| == |Filter(rs, RedeemRows(users, rewards, who, f))| <= |rs|
    ensures forall k :: 0 <= k < |r| ==> r[k].kind == Redeem && r[k].payment == 0
    ensures forall k :: 0 <= k < |r| ==> RedeemOf(users, rewards, rs, who, f, r[k])
    ensures forall j :: 0 <= j < |rs| && IsRedeemRow(users, rewards, rs[j], who, f) ==> RedeemEntryOf(users, rewards)(rs[j]) in r
  {
    var rows := Filter(rs, RedeemRows(users, rewards, who, f));
    assert forall k :: 0 <= k < |rows| ==> exists j :: 0 <= j < |rs| && rs[j] == rows[k];
    Project(rows, RedeemEntryOf(users, rewards))
  }

  /** `<purchases> UNION ALL <redemptions>`: every row of either part, purchases first. */
  function Union(users: seq<User>, rewards: seq<Reward>, ts: seq<TxRow>, rs: seq<Redemption>,
                 who: Option<int>, wording: Wording, f: StatusFilter): (r: seq<Entry>)
    ensures |r| == |PurchaseEntries(users, ts, who, wording)| + |RedeemEntries(users, rewards, rs, who, f)|
    ensures forall k :: 0 <= k < |r| ==> PurchaseOf(users, ts, who, wording, r[k]) || RedeemOf(users, rewards, rs, who, f, r[k])
    ensures forall j :: 0 <= j < |ts| && IsPurchaseRow(users, ts[j], who) ==> PurchaseEntryOf(users, wording)(ts[j]) in r
    ensures forall j :: 0 <= j < |rs| && IsRedeemRow(users, rewards, rs[j], who, f) ==> RedeemEntryOf(users, rewards)(rs[j]) in r
  {
    var p := PurchaseEntries(users, ts, who, wording);
    var q := RedeemEntries(users, rewards, rs, who, f);
    UnionSound(p, q, users, rewards, ts, rs, who, wording, f);
    p + q
  }

  lemma UnionSound(p: seq<Entry>, q: seq<Entry>, users: seq<User>, rewards: seq<Reward>, ts: seq<TxRow>, rs: seq<Redemption>,
                   who: Option<int>, wording: Wording, f: StatusFilter)
    requires forall k :: 0 <= k < |p| ==> PurchaseOf(users, ts, who, wording, p[k])
    requires forall k :: 0 <= k < |q| ==> RedeemOf(users, rewards, rs, who, f, q[k])
    ensures forall k :: 0 <= k < |p + q| ==> PurchaseOf(users, ts, who, wording, (p + q)[k]) || RedeemOf(users, rewards, rs, who, f, (p + q)[k])
  {
    forall k | 0 <= k < |p + q|
      ensures PurchaseOf(users, ts, who, wording, (p + q)[k]) || RedeemOf(users, rewards, rs, who, f, (p + q)[k])
    {
      if k < |p| {
        assert (p + q)[k] == p[k];
      } else {
        assert (p + q)[k] == q[k - |p|];
      }
    }
  }

  /** A redemption entry shows the points taken, as a negative number, for a reward the
      customer asked for. */
  lemma RedeemEntryShowsCost(users: seq<User>, rewards: seq<Reward>, r: Redemption, who: Option<int>, f: StatusFilter)
    requires IsRedeemRow(users, rewards, r, who, f)
    ensures var e := RedeemEntryOf(users, rewards)(r);
      && e.points == -r.pointsUsed && e.id == r.redeemID && e.sortDate == r.dateRedeemed
      && e.name == users[FindUser(users, r.userID).value].name
      && e.description == "Redeemed: " + rewards[FindReward(rewards, r.rewardID).value].rewardName
  {
  }

  /** `ORDER BY sortDate DESC` over rows already chosen: the same rows, newest first. */
  function NewestFirst(s: seq<Entry>): (r: seq<Entry>)
    ensures |r| == |s| && multiset(r) == multiset(s)
    ensures SortedDesc(r, SortKey)
    ensures forall k :: 0 <= k < |r| ==> r[k] in s
    ensures forall k :: 0 <= k < |s| ==> s[k] in r
  {
    var r := SortDesc(s, SortKey);
    SameElements(r, s);
    r
  }

  /** `ORDER BY sortDate DESC LIMIT n`: the `n` newest rows, or all of them when there are
      fewer; a list shorter than `n` holds every row. */
  function Latest(s: seq<Entry>, n: nat): (r: seq<Entry>)
    ensures |r| == if n < |s| then n else |s|
    ensures SortedDesc(r, SortKey)
    ensures forall k :: 0 <= k < |r| ==> r[k] in s
    ensures |r| < n ==> forall k :: 0 <= k < |s| ==> s[k] in r
    ensures |r| > 0 ==> forall e :: e in s && e !in r ==> SortKey(e) <= SortKey(r[|r| - 1])
  {
    var ordered := NewestFirst(s);
    var r := Take(ordered, n);
    assert forall k :: 0 <= k < |r| ==> r[k] == ordered[k];
    TakeKeepsLargest(ordered, n, SortKey);
    r
  }

  /** A list cut short of `n` rows holds every row, each named by value. */
  lemma ShortListHoldsAll(s: seq<Entry>, n: nat)
    requires |Latest(s, n)| < n
    ensures forall e :: e in s ==> e in Latest(s, n)
  {
    forall e | e in s ensures e in Latest(s, n) {
      var k :| 0 <= k < |s| && s[k] == e;
    }
  }

  /** What `if (limit) query += LIMIT ${parseInt(limit)}` makes of the query parameter. */
  datatype LimitClause = NoLimit | LimitTo(n: nat) | BadLimit

  /** A missing or empty parameter adds no clause; a text parseInt reads as a non-negative
      number limits the rows; `NaN` or a negative number makes the SQL invalid. */
  function ParseLimit(limit: Option<string>): (r: LimitClause)
    ensures r == NoLimit <==> FalsyStr(limit)
    ensures r.LimitTo? ==> ParseInt(limit.value) == Some(r.n)
    ensures r == BadLimit <==> !FalsyStr(limit) && (ParseInt(limit.value).None? || ParseInt(limit.value).value < 0)
  {
    if FalsyStr(limit) then NoLimit
    else match ParseInt(limit.value)
      case None => BadLimit
      case Some(n) => if n < 0 then BadLimit else LimitTo(n)
  }

  /** A printed count, with or without trailing text, limits to that count; a printed
      negative number is refused. */
  lemma ParseLimitReadsCounts(n: nat, i: int, rest: string)
    requires i < 0 && (rest == [] || !IsDigit(rest[0]))
    ensures ParseLimit(Some(NatToString(n) + rest)) == LimitTo(n)
    ensures ParseLimit(Some(IntToString(i) + rest)) == BadLimit
  {
    ParseIntOfIntToStringThen(n, rest);
    assert IntToString(n) == NatToString(n);
    ParseIntOfIntToStringThen(i, rest);
  }

  /** The rows a valid clause lets through: the first `n`, or all. */
  function ApplyLimit(s: seq<Entry>, clause: LimitClause): (r: seq<Entry>)
    requires !clause.BadLimit?
    ensures clause == NoLimit ==> r == s
    ensures clause.LimitTo? ==> |r| == (if clause.n < |s| then clause.n else |s|) && r == s[..|r|]
  {
    if clause.LimitTo? then Take(s, clause.n) else s
  }

  /** The reply of a staff transaction list: the rows, or the 500 of an invalid query. */
  datatype ListReply = Listed(transactions: seq<Entry>) | ListError
}
