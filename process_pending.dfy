/** The approve/deny dialog of client/src/components/ProcessPending.jsx: the pending
    redemptions fetched when it opens, the check boxes, the request it posts to
    `/api/admin/process-pending` and the message it shows afterwards. The fetches themselves
    are left out: their results are parameters. */
module ProcessPending {
  import opened Util
  import opened Batch

  /** The request body `{ action, redemptionIds: selectedItems }`. */
  datatype BatchRequest = BatchRequest(action: string, redemptionIds: seq<int>)

  /** What the dialog learns from the response: `response.ok` with `data.message`, an error
      status with `errorData.message` (possibly missing), or a failed fetch. */
  datatype Response = Ok(message: string) | Failed(errorMessage: Option<string>) | NetworkError

  /** The JSON the batch handler answers with, as the dialog sees it: `response.ok` holds
      exactly for the two 200 replies, a summary is seen with its own message, and every
      error status carries a message. */
  function ResponseOf(r: BatchReply): (o: Response)
    ensures o.Ok? <==> r.NoPendingFound? || r.Summary?
    ensures r.Summary? ==> o == Ok(r.message)
    ensures o.Failed? ==> o.errorMessage.Some?
    ensures !o.NetworkError?
  {
    match r
    case BadRequest => Failed(Some("Invalid request. Action and redemptionIds array are required."))
    case NoPendingFound => Ok("No pending redemptions found with the provided IDs")
    case Summary(m, _, _, _) => Ok(m)
    case ServerError => Failed(Some("Server Error"))
  }

  /** The two buttons and the texts that belong to them. */
  datatype Choice = ApproveChoice | DenyChoice

  function ChoiceText(c: Choice): string
  {
    if c == ApproveChoice then "approve" else "deny"
  }

  function EmptySelectionText(c: Choice): string
  {
    "Please select at least one redemption to " + ChoiceText(c) + "."
  }

  /** `handleSelectItem(id, checked)`: append the id, or drop every copy of it. */
  function Toggled(selected: seq<int>, id: int, checked: bool): (r: seq<int>)
    ensures checked ==> r == selected + [id]
    ensures !checked ==> id !in r && forall x :: x in selected && x != id ==> x in r
  {
    if checked then selected + [id] else Filter(selected, (x: int) => x != id)
  }

  /** The list the refresh leaves: `data.pendingRedemptions || []`, `[]` on any failure. */
  function Listed(fetched: Option<seq<int>>): seq<int>
  {
    if fetched.Some? then fetched.value else []
  }

  /** The message after a request completes, when the refresh keeps the reply's message. */
  function MessageAfter(resp: Response): (m: string)
    ensures resp.Ok? ==> m == resp.message
  {
    match resp
    case Ok(m) => m
    case Failed(m) => if FalsyStr(m) then "Failed to process pending redemptions" else m.value
    case NetworkError => "Network error. Please try again."
  }

  /** The message after a request completes, as written: on success the refresh that follows
      `setMessage(data.message)` starts with `setMessage("")`, which is the write that stays. */
  function MessageAfterAsWritten(resp: Response): (m: string)
    ensures resp.Ok? ==> m == ""
    ensures !resp.Ok? ==> m == MessageAfter(resp)
  {
    if resp.Ok? then "" else MessageAfter(resp)
  }

  /** The message box: hidden while the message is empty, green when it mentions
      "successfully" or "No pending", red otherwise. */
  datatype Style = Hidden | SuccessStyle | ErrorStyle

  function StyleOf(m: string): (st: Style)
    ensures st == Hidden <==> m == ""
    ensures st == SuccessStyle <==> m != "" && (Contains(m, "successfully") || Contains(m, "No pending"))
  {
    if m == "" then Hidden
    else if Contains(m, "successfully") || Contains(m, "No pending") then SuccessStyle
    else ErrorStyle
  }

  class PendingDialog {
    var pending: seq<int>
    var loading: bool
    var message: string
    var selected: seq<int>
    var selectAll: bool

    constructor ()
      ensures pending == [] && !loading && message == "" && selected == [] && !selectAll
    {
      pending, loading, message, selected, selectAll := [], false, "", [], false;
    }

    /** The effect on `open`: the list is fetched (the message cleared), and the selection
        and the select-all box are cleared. */
    method Open(fetched: Option<seq<int>>)
      modifies this
      ensures pending == Listed(fetched) && !loading && message == ""
      ensures selected == [] && !selectAll
    {
      loading, message := true, "";
      pending := Listed(fetched);
      loading := false;
      selected, selectAll := [], false;
    }

    /** `handleSelectAll(checked)`: every listed id, or none. */
    method SelectAll(checked: bool)
      modifies this
      ensures selectAll == checked && selected == (if checked then pending else [])
      ensures pending == old(pending) && loading == old(loading) && message == old(message)
    {
      selectAll := checked;
      selected := if checked then pending else [];
    }

    /** `handleSelectItem(id, checked)`. */
    method SelectItem(id: int, checked: bool)
      modifies this
      ensures selected == Toggled(old(selected), id, checked)
      ensures pending == old(pending) && loading == old(loading) && message == old(message) && selectAll == old(selectAll)
    {
      selected := Toggled(selected, id, checked);
    }

    /** `handleApprove` / `handleDeny` up to the request: with nothing selected only the
        reminder is shown; otherwise the dialog is busy and posts the selection. */
    method Submit(c: Choice) returns (req: Option<BatchRequest>)
      modifies this
      ensures |old(selected)| == 0 ==> req == None && message == EmptySelectionText(c) && loading == old(loading)
      ensures |old(selected)| > 0 ==> req == Some(BatchRequest(ChoiceText(c), old(selected))) && message == "" && loading
      ensures pending == old(pending) && selected == old(selected) && selectAll == old(selectAll)
    {
      if |selected| == 0 {
        message := EmptySelectionText(c);
        return None;
      }
      loading, message := true, "";
      req := Some(BatchRequest(ChoiceText(c), selected));
    }

    /** The rest of the handler as written: the reply's message, then on success the refresh,
        which clears the message again. The selection is kept. */
    method FinishAsWritten(resp: Response, refreshed: Option<seq<int>>)
      modifies this
      ensures message == MessageAfterAsWritten(resp) && !loading
      ensures pending == if resp.Ok? then Listed(refreshed) else old(pending)
      ensures selected == old(selected) && selectAll == old(selectAll)
    {
      match resp {
        case Ok(m) =>
          message := m;
          loading, message := true, "";
          pending := Listed(refreshed);
        case Failed(m) =>
          message := if FalsyStr(m) then "Failed to process pending redemptions" else m.value;
        case NetworkError =>
          message := "Network error. Please try again.";
      }
      loading := false;
    }

    /** The rest of the handler with the reply's message kept across the refresh, until the
        five-second timer clears it. */
    method Finish(resp: Response, refreshed: Option<seq<int>>)
      modifies this
      ensures message == MessageAfter(resp) && !loading
      ensures pending == if resp.Ok? then Listed(refreshed) else old(pending)
      ensures selected == old(selected) && selectAll == old(selectAll)
    {
      if resp.Ok? {
        pending := Listed(refreshed);
      }
      message := MessageAfter(resp);
      loading := false;
    }

    /** `setTimeout(() => setMessage(""), 5000)`. */
    method TimerFires()
      modifies this
      ensures message == ""
      ensures pending == old(pending) && loading == old(loading) && selected == old(selected) && selectAll == old(selectAll)
    {
      message := "";
    }
  }

  /** The server reads the action the dialog sends as the button means it. */
  lemma RequestActionReachesServer(c: Choice)
    ensures ActionOf(ChoiceText(c)) == if c == ApproveChoice then Approve else Deny
  {
  }

  /** Ticking a box and unticking it again gives back a selection that did not hold the id. */
  lemma {:induction false} ToggleBack(selected: seq<int>, id: int)
    requires id !in selected
    ensures Toggled(Toggled(selected, id, true), id, false) == selected
  {
    FilterAll(selected, (x: int) => x != id);
    FilterConcat(selected, [id], (x: int) => x != id);
    assert Filter([id], (x: int) => x != id) == [];
  }

  /** A batch summary contains "successfully", so, when it is kept, it is shown in green. */
  lemma SummaryShownAsSuccess(action: Action, processed: nat, failed: nat)
    ensures var m := MessageAfter(ResponseOf(Summary(BatchMessage(action, processed, failed), processed, failed, processed + failed)));
      m == BatchMessage(action, processed, failed) && StyleOf(m) == SuccessStyle
  {
    SummarySaysSuccessfully(action, processed, failed);
  }

  lemma SummarySaysSuccessfully(action: Action, processed: nat, failed: nat)
    ensures Contains(BatchMessage(action, processed, failed), "successfully")
  {
    var tail := if failed > 0 then ", " + NatToString(failed) + " failed" else "";
    assert MessageTail(failed) == " redemptions " + "successfully" + tail;
    ContainsInfix(" redemptions ", "successfully", tail);
    ContainsAfter(NatToString(processed), MessageTail(failed), "successfully");
    ContainsAfter(ActionText(action) + " ", NatToString(processed) + MessageTail(failed), "successfully");
  }

  /** The reply for ids none of which is pending is shown in green too. */
  lemma NoPendingShownAsSuccess()
    ensures var m := MessageAfter(ResponseOf(NoPendingFound)); StyleOf(m) == SuccessStyle
  {
    var m := "No pending redemptions found with the provided IDs";
    var needle := "No pending";
    forall i | 0 <= i < 10 ensures m[i] == needle[i] { }
    assert m[0..10] == needle;
    assert MatchAt(m, "No pending", 0);
  }

  /** As written, a batch that succeeded leaves no message on screen: the green summary is
      never seen. */
  lemma SummaryLostAsWritten(action: Action, processed: nat, failed: nat)
    ensures StyleOf(MessageAfterAsWritten(ResponseOf(Summary(BatchMessage(action, processed, failed), processed, failed, processed + failed)))) == Hidden
  {
  }
}
