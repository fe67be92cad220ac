/** The admin transaction list of client/src/pages/admin-transactions.jsx: the rows of
    `/api/admin/transactions` filtered by the search box, ten to a page, each with a signed
    points badge. */
module AdminTransactionsPage {
  import opened Util
  import opened ClientList
  import opened TxViews

  /** The columns of a fetched row the page reads; the text columns may be null. */
  datatype TxItem = TxItem(name: Option<string>, description: Option<string>, txType: Option<string>, points: int)

  /** The `type` column as the server's SELECT writes it: the literal 'Purchase' or 'Redeem'. */
  function KindText(k: EntryKind): (t: string)
    ensures Lower(t) == "redeem" <==> k == Redeem
  {
    var t := if k == Redeem then "Redeem" else "Purchase";
    assert Lower("Redeem") == "redeem";
    assert Lower("Purchase")[0] == 'p';
    t
  }

  /** The JSON row the page receives for a listed entry. */
  function ItemOf(e: Entry): TxItem
  {
    TxItem(Some(e.name), Some(e.description), Some(KindText(e.kind)), e.points)
  }

  /** The search predicate: the term occurs, ignoring case, in the name, the description or
      the type. */
  predicate TxMatches(term: string, t: TxItem)
  {
    FieldMatches(t.name, term) || FieldMatches(t.description, term) || FieldMatches(t.txType, term)
  }

  /** `filteredTransactions`: the fetched rows that match, in their fetched order. */
  function FilteredTransactions(rows: seq<TxItem>, term: string): (r: seq<TxItem>)
    ensures forall k :: 0 <= k < |r| ==> r[k] in rows && TxMatches(term, r[k])
    ensures forall k :: 0 <= k < |rows| && TxMatches(term, rows[k]) ==> rows[k] in r
  {
    Filter(rows, (t: TxItem) => TxMatches(term, t))
  }

  /** `currentTransactions`: the matching rows on the current page. */
  function CurrentTransactions(rows: seq<TxItem>, term: string, page: int): seq<TxItem>
  {
    Visible(FilteredTransactions(rows, term), page)
  }

  /** Every row on any page is a fetched row that matches the term. */
  lemma ShownTransactionsMatch(rows: seq<TxItem>, term: string, page: int, k: nat)
    requires k < |CurrentTransactions(rows, term, page)|
    ensures CurrentTransactions(rows, term, page)[k] in rows
    ensures TxMatches(term, CurrentTransactions(rows, term, page)[k])
  {
    VisibleRowsMatch(rows, (t: TxItem) => TxMatches(term, t), page, k);
  }

  /** The search ignores case: a term and its lower-case form select the same rows. */
  lemma SearchIgnoresCase(rows: seq<TxItem>, term: string)
    ensures FilteredTransactions(rows, Lower(term)) == FilteredTransactions(rows, term)
  {
    forall t: TxItem ensures TxMatches(Lower(term), t) == TxMatches(term, t) {
      if t.name.Some? { ContainsIgnoringCaseOfLower(t.name.value, term); }
      if t.description.Some? { ContainsIgnoringCaseOfLower(t.description.value, term); }
      if t.txType.Some? { ContainsIgnoringCaseOfLower(t.txType.value, term); }
    }
    FilterSame(rows, (t: TxItem) => TxMatches(Lower(term), t), (t: TxItem) => TxMatches(term, t));
  }

  /** Searching "redeem" (in any case) keeps every redemption the server listed. */
  lemma RedeemSearchKeepsRedemptions(entries: seq<Entry>, k: nat)
    requires k < |entries| && entries[k].kind == Redeem
    ensures ItemOf(entries[k]) in FilteredTransactions(Project(entries, ItemOf), "redeem")
  {
    var rows := Project(entries, ItemOf);
    assert rows[k] == ItemOf(entries[k]);
    assert KindText(Redeem) == "Redeem";
    assert Lower("Redeem") == "" + Lower("redeem") + "";
    ContainsInfix("", Lower("redeem"), "");
  }

  function Abs(i: int): nat { if i < 0 then -i else i }

  /** The badge: `type.toLowerCase() === 'redeem' ? '-' : '+'`, then `Math.abs(points)` and
      " points". A row without a type makes the page throw, modelled as no badge. */
  function PointsBadge(t: TxItem): (b: Option<string>)
    ensures b.Some? <==> t.txType.Some?
  {
    match t.txType
    case None => None
    case Some(ty) => Some((if Lower(ty) == "redeem" then "-" else "+") + IntToString(Abs(t.points)) + " points")
  }

  /** The badge opens with '-' exactly for a redeem row, and the number after the sign reads
      back as the magnitude of the row's points. */
  lemma BadgeReadsBack(t: TxItem)
    requires t.txType.Some?
    ensures var b := PointsBadge(t).value;
      && |b| > 1
      && (b[0] == '-' <==> Lower(t.txType.value) == "redeem")
      && (b[0] == '-' || b[0] == '+')
      && ParseInt(b[1..]) == Some(Abs(t.points))
  {
    var b := PointsBadge(t).value;
    var sign := if Lower(t.txType.value) == "redeem" then "-" else "+";
    assert b == sign + (IntToString(Abs(t.points)) + " points");
    assert b[1..] == IntToString(Abs(t.points)) + " points";
    ParseIntOfIntToStringThen(Abs(t.points), " points");
  }

  /** A listed redemption carries `-pointsUsed`, so its badge reads '-' followed by the
      points the customer spent, and the sign and the number read back from it. */
  lemma RedemptionBadgeShowsPointsSpent(users: seq<Tables.User>, rewards: seq<Tables.Reward>, r: Tables.Redemption)
    requires r.pointsUsed >= 0
    ensures var b := PointsBadge(ItemOf(RedeemEntryOf(users, rewards)(r))).value;
      && b == "-" + IntToString(r.pointsUsed) + " points"
      && ParseInt(b[1..]) == Some(r.pointsUsed)
  {
    var e := RedeemEntryOf(users, rewards)(r);
    assert e.kind == Redeem && e.points == -r.pointsUsed;
    var t := ItemOf(e);
    assert Lower(t.txType.value) == "redeem";
    assert Abs(t.points) == r.pointsUsed;
    BadgeReadsBack(t);
  }
}
