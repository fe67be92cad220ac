/** The admin transaction list of server/admin-controllers/transactionsController.js: every
    customer's purchases and non-denied redemptions in one list, newest first. The ORDER BY
    inside each parenthesised part has no LIMIT, so only the outer ORDER BY shapes the result. */
module AdminTransactions {
  import opened Util
  import opened Tables
  import opened TxViews

  /** `{ transactions, total: transactions.length }`. */
  datatype AllTransactions = AllTransactions(transactions: seq<Entry>, total: nat)

  /** `getAllTransactions`: the purchase rows with a payment, the redemptions that were not
      denied, all of them, newest first; `total` counts what is returned. */
  function GetAllTransactions(users: seq<User>, rewards: seq<Reward>, ts: seq<TxRow>, rs: seq<Redemption>): (r: AllTransactions)
    ensures r.total == |r.transactions|
    ensures SortedDesc(r.transactions, SortKey)
    ensures forall k :: 0 <= k < |r.transactions| ==>
              PurchaseOf(users, ts, None, AdminWording, r.transactions[k]) || RedeemOf(users, rewards, rs, None, NotDenied, r.transactions[k])
    ensures forall j :: 0 <= j < |ts| && IsPurchaseRow(users, ts[j], None) ==> PurchaseEntryOf(users, AdminWording)(ts[j]) in r.transactions
    ensures forall j :: 0 <= j < |rs| && IsRedeemRow(users, rewards, rs[j], None, NotDenied) ==> RedeemEntryOf(users, rewards)(rs[j]) in r.transactions
  {
    var rows := Union(users, rewards, ts, rs, None, AdminWording, NotDenied);
    var ordered := NewestFirst(rows);
    Inherits(rows, ordered, (e: Entry) => PurchaseOf(users, ts, None, AdminWording, e) || RedeemOf(users, rewards, rs, None, NotDenied, e));
    AllTransactions(ordered, |ordered|)
  }

  /** A listed purchase always carries a payment, so the approval log rows (payment 0) never
      show up as purchases; a listed redemption carries payment 0 and a status other than
      'denied'. */
  lemma ListedPaymentsAreReal(users: seq<User>, rewards: seq<Reward>, ts: seq<TxRow>, rs: seq<Redemption>, k: nat)
    requires k < |GetAllTransactions(users, rewards, ts, rs).transactions|
    ensures var e := GetAllTransactions(users, rewards, ts, rs).transactions[k];
      && (e.kind == Purchase ==> e.payment > 0 && e.description == "Purchase")
      && (e.kind == Redeem ==> e.payment == 0 && exists j :: 0 <= j < |rs| && rs[j].redeemStatus != Denied && rs[j].redeemID == e.id)
  {
    var e := GetAllTransactions(users, rewards, ts, rs).transactions[k];
    if PurchaseOf(users, ts, None, AdminWording, e) {
      var j :| 0 <= j < |ts| && IsPurchaseRow(users, ts[j], None) && e == PurchaseEntryOf(users, AdminWording)(ts[j]);
    } else {
      var j :| 0 <= j < |rs| && IsRedeemRow(users, rewards, rs[j], None, NotDenied) && e == RedeemEntryOf(users, rewards)(rs[j]);
    }
  }
}
