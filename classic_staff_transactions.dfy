/** `getTransactions` of server/controllers/staffController.js: one customer's purchases and
    redemptions for the staff screen, built as one UNION query that the `type` parameter
    rewrites by text replacement. */
module ClassicStaffTransactions {
  import opened Util
  import opened Tables
  import opened TxViews

  /** `req.query.type || "all"`: only "purchase" and "redeem" change the query. */
  datatype ClassicType = ClassicAll | ClassicPurchase | ClassicRedeem

  function ClassicTypeOf(typ: Option<string>): (t: ClassicType)
    ensures t == ClassicPurchase <==> typ == Some("purchase")
    ensures t == ClassicRedeem <==> typ == Some("redeem")
  {
    if typ == Some("purchase") then ClassicPurchase else if typ == Some("redeem") then ClassicRedeem else ClassicAll
  }

  /** The redemption condition after the replacement: `!= 'denied'`, `= 'completed'` for
      "purchase", `= 'pending'` for "redeem". */
  function ClassicFilter(t: ClassicType): (f: StatusFilter)
    ensures f == OnlyCompleted <==> t == ClassicPurchase
    ensures f == OnlyPending <==> t == ClassicRedeem
    ensures f == NotDenied <==> t == ClassicAll
    ensures forall st :: Admits(f, st) ==> st != Denied
  {
    match t
    case ClassicAll => NotDenied
    case ClassicPurchase => OnlyCompleted
    case ClassicRedeem => OnlyPending
  }

  /** `e` is a row the type asks for: a purchase or an admitted redemption, and for "redeem"
      a pending redemption only. */
  ghost predicate ClassicChosen(users: seq<User>, rewards: seq<Reward>, ts: seq<TxRow>, rs: seq<Redemption>,
                                userId: int, t: ClassicType, e: Entry)
  {
    (t != ClassicRedeem && PurchaseOf(users, ts, Some(userId), StaffWording, e))
    || RedeemOf(users, rewards, rs, Some(userId), ClassicFilter(t), e)
  }

  /** The rows of the query before ordering. "purchase" keeps the purchase part and narrows
      the redemption part to completed requests; "redeem" keeps pending requests only. */
  function ClassicSelected(users: seq<User>, rewards: seq<Reward>, ts: seq<TxRow>, rs: seq<Redemption>,
                           userId: int, t: ClassicType): (r: seq<Entry>)
    ensures forall k :: 0 <= k < |r| ==> ClassicChosen(users, rewards, ts, rs, userId, t, r[k])
    ensures t != ClassicRedeem ==>
              forall j :: 0 <= j < |ts| && IsPurchaseRow(users, ts[j], Some(userId)) ==> PurchaseEntryOf(users, StaffWording)(ts[j]) in r
    ensures forall j :: 0 <= j < |rs| && IsRedeemRow(users, rewards, rs[j], Some(userId), ClassicFilter(t)) ==>
              RedeemEntryOf(users, rewards)(rs[j]) in r
  {
    if t == ClassicRedeem then RedeemEntries(users, rewards, rs, Some(userId), OnlyPending)
    else Union(users, rewards, ts, rs, Some(userId), StaffWording, ClassicFilter(t))
  }

  /** `ORDER BY sortDate DESC` over the whole UNION. */
  function ClassicOrdered(users: seq<User>, rewards: seq<Reward>, ts: seq<TxRow>, rs: seq<Redemption>,
                          userId: int, t: ClassicType): (r: seq<Entry>)
    ensures SortedDesc(r, SortKey)
    ensures forall k :: 0 <= k < |r| ==> ClassicChosen(users, rewards, ts, rs, userId, t, r[k])
    ensures t != ClassicRedeem ==>
              forall j :: 0 <= j < |ts| && IsPurchaseRow(users, ts[j], Some(userId)) ==> PurchaseEntryOf(users, StaffWording)(ts[j]) in r
    ensures forall j :: 0 <= j < |rs| && IsRedeemRow(users, rewards, rs[j], Some(userId), ClassicFilter(t)) ==>
              RedeemEntryOf(users, rewards)(rs[j]) in r
  {
    var rows := ClassicSelected(users, rewards, ts, rs, userId, t);
    var r := NewestFirst(rows);
    Inherits(rows, r, (e: Entry) => ClassicChosen(users, rewards, ts, rs, userId, t, e));
    r
  }

  /** `getTransactions` as written. For "redeem" the pattern `/SELECT.*FROM transactions.*UNION ALL/`
      has no `s` flag, so `.` stops at the first line break of the multi-line query and nothing
      is removed; the query keeps both `?` placeholders while only one value is passed, the
      second `?` reaches MySQL unbound and the query fails with a 500. */
  function GetTransactionsAsWritten(users: seq<User>, rewards: seq<Reward>, ts: seq<TxRow>, rs: seq<Redemption>,
                                    userId: int, typ: Option<string>, limit: Option<string>): (r: ListReply)
    ensures r.ListError? <==> typ == Some("redeem") || ParseLimit(limit).BadLimit?
    ensures r.Listed? ==> SortedDesc(r.transactions, SortKey)
    ensures r.Listed? && ParseLimit(limit).LimitTo? ==> var all := ClassicOrdered(users, rewards, ts, rs, userId, ClassicTypeOf(typ));
              |r.transactions| == if ParseLimit(limit).n < |all| then ParseLimit(limit).n else |all|
    ensures r.Listed? && ParseLimit(limit) == NoLimit ==> r.transactions == ClassicOrdered(users, rewards, ts, rs, userId, ClassicTypeOf(typ))
    ensures r.Listed? ==> var all := ClassicOrdered(users, rewards, ts, rs, userId, ClassicTypeOf(typ));
              |r.transactions| <= |all| && r.transactions == all[..|r.transactions|]
  {
    var clause := ParseLimit(limit);
    if ClassicTypeOf(typ) == ClassicRedeem || clause.BadLimit? then ListError
    else
      var ordered := ClassicOrdered(users, rewards, ts, rs, userId, ClassicTypeOf(typ));
      var shown := ApplyLimit(ordered, clause);
      assert shown == ordered[..|shown|];
      Listed(shown)
  }

  /** The "redeem" view as written never lists anything, whatever the tables hold. */
  lemma RedeemTypeFailsAsWritten(users: seq<User>, rewards: seq<Reward>, ts: seq<TxRow>, rs: seq<Redemption>,
                                 userId: int, limit: Option<string>)
    ensures GetTransactionsAsWritten(users, rewards, ts, rs, userId, Some("redeem"), limit) == ListError
  {
  }

  /** `getTransactions` as intended: the purchase part is removed for "redeem", leaving the
      customer's pending requests. The rows are the chosen ones newest first, cut to `limit`
      when one is given; an unreadable or negative `limit` makes the query fail. */
  function GetTransactions(users: seq<User>, rewards: seq<Reward>, ts: seq<TxRow>, rs: seq<Redemption>,
                           userId: int, typ: Option<string>, limit: Option<string>): (r: ListReply)
    ensures r.ListError? <==> ParseLimit(limit).BadLimit?
    ensures r.Listed? ==> SortedDesc(r.transactions, SortKey)
    ensures r.Listed? && ParseLimit(limit).LimitTo? ==> var all := ClassicOrdered(users, rewards, ts, rs, userId, ClassicTypeOf(typ));
              |r.transactions| == if ParseLimit(limit).n < |all| then ParseLimit(limit).n else |all|
    ensures r.Listed? && ParseLimit(limit) == NoLimit ==> r.transactions == ClassicOrdered(users, rewards, ts, rs, userId, ClassicTypeOf(typ))
    ensures r.Listed? ==> var all := ClassicOrdered(users, rewards, ts, rs, userId, ClassicTypeOf(typ));
              |r.transactions| <= |all| && r.transactions == all[..|r.transactions|]
  {
    var clause := ParseLimit(limit);
    if clause.BadLimit? then ListError
    else
      var ordered := ClassicOrdered(users, rewards, ts, rs, userId, ClassicTypeOf(typ));
      var shown := ApplyLimit(ordered, clause);
      assert shown == ordered[..|shown|];
      Listed(shown)
  }

  /** Wherever the corrected view lists rows, it lists what the as-written one lists, and it
      also answers the "redeem" type. */
  lemma CorrectedAgreesElsewhere(users: seq<User>, rewards: seq<Reward>, ts: seq<TxRow>, rs: seq<Redemption>,
                                 userId: int, typ: Option<string>, limit: Option<string>)
    requires typ != Some("redeem")
    ensures GetTransactions(users, rewards, ts, rs, userId, typ, limit) == GetTransactionsAsWritten(users, rewards, ts, rs, userId, typ, limit)
  {
  }

  /** Under "redeem" every listed row is one of this customer's pending redemptions. */
  lemma RedeemTypeListsPending(users: seq<User>, rewards: seq<Reward>, ts: seq<TxRow>, rs: seq<Redemption>,
                               userId: int, limit: Option<string>, k: nat)
    requires GetTransactions(users, rewards, ts, rs, userId, Some("redeem"), limit).Listed?
    requires k < |GetTransactions(users, rewards, ts, rs, userId, Some("redeem"), limit).transactions|
    ensures var e := GetTransactions(users, rewards, ts, rs, userId, Some("redeem"), limit).transactions[k];
      e.kind == Redeem && e.payment == 0 && RedeemOf(users, rewards, rs, Some(userId), OnlyPending, e)
  {
    var shown := GetTransactions(users, rewards, ts, rs, userId, Some("redeem"), limit).transactions;
    var all := ClassicOrdered(users, rewards, ts, rs, userId, ClassicRedeem);
    assert shown[k] == all[k];
  }

  /** "purchase" shows every purchase and only completed requests: a request still pending
      or denied is never listed. */
  lemma PurchaseTypeHidesOpenRequests(users: seq<User>, rewards: seq<Reward>, ts: seq<TxRow>, rs: seq<Redemption>,
                                      userId: int, limit: Option<string>, k: nat)
    requires GetTransactions(users, rewards, ts, rs, userId, Some("purchase"), limit).Listed?
    requires k < |GetTransactions(users, rewards, ts, rs, userId, Some("purchase"), limit).transactions|
    ensures var e := GetTransactions(users, rewards, ts, rs, userId, Some("purchase"), limit).transactions[k];
      PurchaseOf(users, ts, Some(userId), StaffWording, e) || RedeemOf(users, rewards, rs, Some(userId), OnlyCompleted, e)
  {
    var shown := GetTransactions(users, rewards, ts, rs, userId, Some("purchase"), limit).transactions;
    var all := ClassicOrdered(users, rewards, ts, rs, userId, ClassicPurchase);
    assert shown[k] == all[k];
  }
}
