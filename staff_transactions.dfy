/** The staff view of one customer's history (server/staff-controllers/transactionController.js). */
module StaffTransactions {
  import opened Util
  import opened Tables
  import opened TxViews

  /** `req.query.type || "all"`, then compared with "purchase" and "redeem". */
  datatype TypeParam = PurchaseType | RedeemType | AllType

  function TypeOf(typ: Option<string>): (t: TypeParam)
    ensures t == PurchaseType <==> typ == Some("purchase")
    ensures t == RedeemType <==> typ == Some("redeem")
  {
    if typ == Some("purchase") then PurchaseType else if typ == Some("redeem") then RedeemType else AllType
  }

  /** The status filter on the redemption part: pending for "redeem", not denied otherwise. */
  function RedeemFilter(t: TypeParam): StatusFilter
  {
    if t == RedeemType then OnlyPending else NotDenied
  }

  /** `e` is a row that the type asks for. */
  ghost predicate Chosen(users: seq<User>, rewards: seq<Reward>, ts: seq<TxRow>, rs: seq<Redemption>,
                         userId: int, t: TypeParam, e: Entry)
  {
    match t
    case PurchaseType => PurchaseOf(users, ts, Some(userId), StaffWording, e)
    case RedeemType => RedeemOf(users, rewards, rs, Some(userId), OnlyPending, e)
    case AllType => PurchaseOf(users, ts, Some(userId), StaffWording, e) || RedeemOf(users, rewards, rs, Some(userId), NotDenied, e)
  }

  /** The rows the type selects before ordering: purchases for "purchase", pending requests
      for "redeem", and otherwise (no type, "all" or any other text) the union of purchases
      and requests that were not denied. */
  function Selected(users: seq<User>, rewards: seq<Reward>, ts: seq<TxRow>, rs: seq<Redemption>,
                    userId: int, t: TypeParam): (r: seq<Entry>)
    ensures forall k :: 0 <= k < |r| ==> Chosen(users, rewards, ts, rs, userId, t, r[k])
    ensures t != RedeemType ==>
              forall j :: 0 <= j < |ts| && IsPurchaseRow(users, ts[j], Some(userId)) ==> PurchaseEntryOf(users, StaffWording)(ts[j]) in r
    ensures t != PurchaseType ==>
              forall j :: 0 <= j < |rs| && IsRedeemRow(users, rewards, rs[j], Some(userId), RedeemFilter(t)) ==>
                RedeemEntryOf(users, rewards)(rs[j]) in r
  {
    match t
    case PurchaseType => PurchaseEntries(users, ts, Some(userId), StaffWording)
    case RedeemType => RedeemEntries(users, rewards, rs, Some(userId), OnlyPending)
    case AllType => Union(users, rewards, ts, rs, Some(userId), StaffWording, NotDenied)
  }

  /** `... ORDER BY sortDate DESC`: the selected rows, newest first. */
  function Ordered(users: seq<User>, rewards: seq<Reward>, ts: seq<TxRow>, rs: seq<Redemption>,
                   userId: int, t: TypeParam): (r: seq<Entry>)
    ensures SortedDesc(r, SortKey)
    ensures forall k :: 0 <= k < |r| ==> Chosen(users, rewards, ts, rs, userId, t, r[k])
    ensures t != RedeemType ==>
              forall j :: 0 <= j < |ts| && IsPurchaseRow(users, ts[j], Some(userId)) ==> PurchaseEntryOf(users, StaffWording)(ts[j]) in r
    ensures t != PurchaseType ==>
              forall j :: 0 <= j < |rs| && IsRedeemRow(users, rewards, rs[j], Some(userId), RedeemFilter(t)) ==>
                RedeemEntryOf(users, rewards)(rs[j]) in r
  {
    var rows := Selected(users, rewards, ts, rs, userId, t);
    var r := NewestFirst(rows);
    Inherits(rows, r, (e: Entry) => Chosen(users, rewards, ts, rs, userId, t, e));
    r
  }

  /** `getTransactions`: the selected rows, newest first, cut to `limit` when one is given; an
      unreadable or negative `limit` makes the query fail. */
  function GetTransactions(users: seq<User>, rewards: seq<Reward>, ts: seq<TxRow>, rs: seq<Redemption>,
                           userId: int, typ: Option<string>, limit: Option<string>): (r: ListReply)
    ensures r.ListError? <==> ParseLimit(limit).BadLimit?
    ensures r.Listed? ==> SortedDesc(r.transactions, SortKey)
    ensures r.Listed? && ParseLimit(limit).LimitTo? ==> var all := Ordered(users, rewards, ts, rs, userId, TypeOf(typ));
              |r.transactions| == if ParseLimit(limit).n < |all| then ParseLimit(limit).n else |all|
    ensures r.Listed? && ParseLimit(limit) == NoLimit ==> r.transactions == Ordered(users, rewards, ts, rs, userId, TypeOf(typ))
    ensures r.Listed? ==> var all := Ordered(users, rewards, ts, rs, userId, TypeOf(typ));
              |r.transactions| <= |all| && r.transactions == all[..|r.transactions|]
  {
    var clause := ParseLimit(limit);
    if clause.BadLimit? then ListError
    else
      var ordered := Ordered(users, rewards, ts, rs, userId, TypeOf(typ));
      var shown := ApplyLimit(ordered, clause);
      assert shown == ordered[..|shown|];
      Listed(shown)
  }

  /** Whatever the limit, every listed row is one the type asks for. */
  lemma ListedRowsChosen(users: seq<User>, rewards: seq<Reward>, ts: seq<TxRow>, rs: seq<Redemption>,
                         userId: int, typ: Option<string>, limit: Option<string>, k: nat)
    requires GetTransactions(users, rewards, ts, rs, userId, typ, limit).Listed?
    requires k < |GetTransactions(users, rewards, ts, rs, userId, typ, limit).transactions|
    ensures Chosen(users, rewards, ts, rs, userId, TypeOf(typ), GetTransactions(users, rewards, ts, rs, userId, typ, limit).transactions[k])
  {
    var shown := GetTransactions(users, rewards, ts, rs, userId, typ, limit).transactions;
    var all := Ordered(users, rewards, ts, rs, userId, TypeOf(typ));
    assert shown[k] == all[k];
  }
}
