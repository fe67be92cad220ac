/** The customer's history page of client/src/pages/transaction-page.jsx: a type filter
    (All, Completed, Pending), the page the server is asked for, and what the last reply of
    `/api/transactions` put on screen. The redirects (an admin to the dashboard, no token or a
    401/403 to the login page) and the local storage they read are left out. */
module TransactionPage {
  import opened Util
  import opened CustomerTransactions

  /** `selectedType === "All" ? "all" : selectedType === "Pending" ? "pending" : "completed"`. */
  function TypeQuery(selected: string): (q: string)
    ensures q == "all" <==> selected == "All"
    ensures q == "pending" <==> selected == "Pending"
  {
    if selected == "All" then "all" else if selected == "Pending" then "pending" else "completed"
  }

  /** The three query parameters of `/api/transactions?page=...&limit=...&type=...`. */
  datatype Query = Query(page: string, limit: string, txType: string)

  /** The empty-history text: `You haven't made any ${selectedType.toLowerCase()} yet.`, or
      the general one under "All". */
  function EmptyText(selected: string): string
  {
    if selected == "All" then "You haven't made any transactions yet."
    else "You haven't made any " + Lower(selected) + " yet."
  }

  /** Each of the three tabs names what is missing: the Pending and Completed tabs in lower
      case. */
  lemma EmptyTextOfTabs()
    ensures EmptyText("All") == "You haven't made any transactions yet."
    ensures EmptyText("Pending") == "You haven't made any pending yet."
    ensures EmptyText("Completed") == "You haven't made any completed yet."
  {
    LowerCapitalised("Pending");
    assert "Pending"[1..] == "ending";
    LowerCapitalised("Completed");
    assert "Completed"[1..] == "ompleted";
  }

  /** A word whose only capital is its first letter is lowered by lowering that letter. */
  lemma LowerCapitalised(w: string)
    requires |w| >= 1 && forall i :: 1 <= i < |w| ==> !IsUpper(w[i])
    ensures Lower(w) == [LowerChar(w[0])] + w[1..]
  {
  }

  class TransactionsView {
    var transactions: seq<CustomerTx>
    var userPoints: int
    var selectedType: string
    var page: int
    var limit: int
    var total: nat
    var totalPages: nat

    /** The page and the page size the server is asked for are at least 1. */
    predicate Valid()
      reads this
    {
      page >= 1 && limit >= 1
    }

    /** The initial state: no lines, 0 points, "All", `{ page: 1, limit: 10, total: 0, totalPages: 0 }`. */
    constructor ()
      ensures Valid()
      ensures transactions == [] && userPoints == 0 && selectedType == "All"
      ensures page == 1 && limit == 10 && total == 0 && totalPages == 0
    {
      transactions, userPoints, selectedType := [], 0, "All";
      page, limit, total, totalPages := 1, 10, 0, 0;
    }

    /** The request the effect sends whenever `selectedType` or the page changes: the
        server reads back the page and the page size of the view, and the filter of its tab. */
    function Request(): (q: Query)
      requires Valid()
      reads this
      ensures ParseOr(Some(q.page), 1) == page && ParseOr(Some(q.limit), 20) == limit
      ensures TypeOf(Some(q.txType)) == if selectedType == "All" then AllTypes
                                        else if selectedType == "Pending" then PendingType else CompletedType
    {
      ParseOrReadsNumbers(page, 1);
      ParseOrReadsNumbers(limit, 20);
      Query(IntToString(page), IntToString(limit), TypeQuery(selectedType))
    }

    /** `handleTypeClick`: the new filter, back on page 1. */
    method TypeClick(selected: string)
      requires Valid()
      modifies this
      ensures Valid()
      ensures selectedType == selected && page == 1
      ensures transactions == old(transactions) && userPoints == old(userPoints)
      ensures limit == old(limit) && total == old(total) && totalPages == old(totalPages)
    {
      selectedType, page := selected, 1;
    }

    /** `handlePageChange`: a page from 1 to `totalPages` is taken, any other is ignored. */
    method PageChange(newPage: int)
      requires Valid()
      modifies this
      ensures Valid()
      ensures page == if 1 <= newPage <= old(totalPages) then newPage else old(page)
      ensures transactions == old(transactions) && userPoints == old(userPoints) && selectedType == old(selectedType)
      ensures limit == old(limit) && total == old(total) && totalPages == old(totalPages)
    {
      if newPage >= 1 && newPage <= totalPages {
        page := newPage;
      }
    }

    /** The reply arrives: a page replaces the lines, the balance and the whole pagination
        object; an error reply leaves the screen as it was. */
    method Receive(reply: TxReply)
      requires Valid()
      requires reply.TxPage? ==> reply.page >= 1 && reply.limit >= 1
      modifies this
      ensures Valid()
      ensures selectedType == old(selectedType)
      ensures reply.TxPage? ==> (transactions == reply.transactions && userPoints == reply.points
                                  && page == reply.page && limit == reply.limit
                                  && total == reply.total && totalPages == reply.totalPages)
      ensures reply.TxError? ==> (transactions == old(transactions) && userPoints == old(userPoints)
                                   && page == old(page) && limit == old(limit)
                                   && total == old(total) && totalPages == old(totalPages))
    {
      if reply.TxPage? {
        transactions, userPoints := reply.transactions, reply.points;
        page, limit, total, totalPages := reply.page, reply.limit, reply.total, reply.totalPages;
      }
    }
  }

  /** The server reads the page filter as the view means it: "All" lists everything that is
      not denied, "Pending" only pending requests, "Completed" only completed ones. */
  lemma TypeFilterReachesServer(selected: string)
    ensures TypeOf(Some(TypeQuery(selected))) ==
              if selected == "All" then AllTypes else if selected == "Pending" then PendingType else CompletedType
  {
  }

  /** The server reads back the page and the page size the view asks for, so a page reply
      always carries them unchanged and the view stays on the page it asked for. */
  lemma ServerEchoesPage(all: seq<CustomerTx>, total: nat, points: int, page: int, limit: int)
    requires page >= 1 && limit >= 1
    ensures var r := PageOf(all, total, points, Some(IntToString(page)), Some(IntToString(limit)));
      r.TxPage? && r.page == page && r.limit == limit
  {
    ParseOrReadsNumbers(page, 1);
    ParseOrReadsNumbers(limit, 20);
  }

  /** Every page the view can ask for after a reply names lines that exist: with the guard of
      `handlePageChange`, a page past the first is one the server counted. */
  lemma ChosenPageHasLines(total: nat, limit: int, page: int)
    requires limit >= 1 && 1 <= page <= CeilDiv(total, limit)
    ensures Offset(page, limit) < total
  {
    var n := CeilDiv(total, limit);
    assert (n - 1) * limit < total;
    MulMono(page - 1, n - 1, limit);
  }
}
