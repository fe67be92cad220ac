/** The staff console of client/src/pages/staff-page.jsx: who may open it, which customer it
    selects when it loads (from a scanned QR code, a `userID` in the address, or the first
    customer), the customer search, and the address written back when a customer is picked,
    so that reloading the page selects the same customer again. */
module StaffPage {
  import opened Util
  import opened Tables
  import opened StaffController
  import Auth

  /** What the auth effect does: let the page render, or send the browser to /login, stashing
      a scanned QR code in session storage first. */
  datatype Gate = Allowed | ToLogin(stash: Option<string>)

  /** `!token || !user || (user.role !== "staff" && user.role !== "admin")`. */
  function Access(token: Option<string>, role: Option<string>, qrHash: Option<string>): (g: Gate)
    ensures g.Allowed? <==> !FalsyStr(token) && (role == Some("staff") || role == Some("admin"))
    ensures g.ToLogin? ==> (g.stash.Some? <==> !FalsyStr(qrHash)) && (g.stash.Some? ==> g.stash == qrHash)
  {
    if FalsyStr(token) || role.None? || (role.value != "staff" && role.value != "admin") then
      ToLogin(if FalsyStr(qrHash) then None else qrHash)
    else Allowed
  }

  /** `selectedUserId`: the page stores a listed customer's numeric `userID`, or the text of
      the `userID` query parameter as it was given. */
  datatype Selection = UserNum(id: int) | UserParam(text: string)

  /** A selection names customer `u`: `String(u.userID) === selection` on the text form. */
  predicate Denotes(s: Selection, u: UserSummary)
  {
    match s
    case UserNum(id) => id == u.userID
    case UserParam(text) => text == IntToString(u.userID)
  }

  function HasCode(code: string): UserSummary -> bool
  {
    (u: UserSummary) => u.qrcode == Some(code)
  }

  function HasIdText(text: string): UserSummary -> bool
  {
    (u: UserSummary) => IntToString(u.userID) == text
  }

  /** The initial choice once customers are loaded. A scanned code selects the first customer
      carrying it, or nobody; otherwise a `userID` parameter naming a listed customer is taken
      as it is, and failing that the first customer is selected. `None`: nothing is set. */
  function InitialChoice(users: seq<UserSummary>, qrHash: Option<string>, userIDParam: Option<string>): (r: Option<Selection>)
    requires |users| > 0
    ensures r.Some? ==> exists k :: 0 <= k < |users| && Denotes(r.value, users[k])
    ensures r.None? <==> !FalsyStr(qrHash) && forall k :: 0 <= k < |users| ==> users[k].qrcode != qrHash
  {
    if !FalsyStr(qrHash) then
      match FirstIndex(users, HasCode(qrHash.value))
      case Some(i) => Some(UserNum(users[i].userID))
      case None => None
    else if !FalsyStr(userIDParam) && FirstIndex(users, HasIdText(userIDParam.value)).Some? then
      Some(UserParam(userIDParam.value))
    else
      Some(UserNum(users[0].userID))
  }

  /** Where `handleUserSelect` sends the browser: `?qrHash=<code>` when the customer has a
      code, `?userID=<id>` otherwise. */
  datatype Nav = QrNav(code: string) | IdNav(id: int)

  function Navigation(users: seq<UserSummary>, userId: int): (n: Nav)
    ensures n.IdNav? ==> n.id == userId
    ensures n.QrNav? ==> exists i :: 0 <= i < |users| && users[i].userID == userId && users[i].qrcode == Some(n.code) && n.code != ""
    ensures (forall i :: 0 <= i < |users| ==> users[i].userID != userId) ==> n == IdNav(userId)
  {
    match FirstIndex(users, (u: UserSummary) => u.userID == userId)
    case Some(i) => if FalsyStr(users[i].qrcode) then IdNav(userId) else QrNav(users[i].qrcode.value)
    case None => IdNav(userId)
  }

  /** The address carries exactly the parameter the page reads back from it. */
  function NavUrl(n: Nav): (url: string)
    ensures ParamsOf(n).0.Some? ==> url == "?qrHash=" + ParamsOf(n).0.value
    ensures ParamsOf(n).1.Some? ==> url == "?userID=" + ParamsOf(n).1.value
    ensures ParamsOf(n).0.Some? != ParamsOf(n).1.Some?
  {
    match n
    case QrNav(code) => "?qrHash=" + code
    case IdNav(id) => "?userID=" + IntToString(id)
  }

  /** The query parameters `qrHash` and `userID` the page reads from that address. */
  function ParamsOf(n: Nav): (Option<string>, Option<string>)
  {
    match n
    case QrNav(code) => (Some(code), None)
    case IdNav(id) => (None, Some(IntToString(id)))
  }

  /** No two customers share a QR code. */
  ghost predicate UniqueCodes(users: seq<UserSummary>)
  {
    forall i, j :: 0 <= i < j < |users| && users[i].qrcode.Some? ==> users[i].qrcode != users[j].qrcode
  }

  /** The customer search: name or email contains the term, ignoring case. */
  function FilteredUsers(users: seq<UserSummary>, term: string): (r: seq<UserSummary>)
    ensures forall k :: 0 <= k < |r| ==>
              r[k] in users && (ContainsIgnoringCase(r[k].name, term) || ContainsIgnoringCase(r[k].email, term))
    ensures forall k :: 0 <= k < |users| && (ContainsIgnoringCase(users[k].name, term) || ContainsIgnoringCase(users[k].email, term))
              ==> users[k] in r
  {
    Filter(users, (u: UserSummary) => ContainsIgnoringCase(u.name, term) || ContainsIgnoringCase(u.email, term))
  }

  class StaffView {
    var users: seq<UserSummary>
    var selected: Option<Selection>
    var initialSelectionMade: bool
    var searchTerm: string

    constructor ()
      ensures users == [] && selected == None && !initialSelectionMade && searchTerm == ""
    {
      users, selected, initialSelectionMade, searchTerm := [], None, false, "";
    }

    /** `setUsers(data.users || [])`. */
    method UsersLoaded(us: seq<UserSummary>)
      modifies this
      ensures users == us && selected == old(selected)
      ensures initialSelectionMade == old(initialSelectionMade) && searchTerm == old(searchTerm)
    {
      users := us;
    }

    /** The selection effect: nothing while no customer is loaded or once a choice was made;
        otherwise the initial choice, made exactly once. */
    method InitialSelection(qrHash: Option<string>, userIDParam: Option<string>)
      modifies this
      ensures users == old(users) && searchTerm == old(searchTerm)
      ensures initialSelectionMade == (old(initialSelectionMade) || |users| > 0)
      ensures selected == if old(initialSelectionMade) || |users| == 0 then old(selected)
                          else match InitialChoice(users, qrHash, userIDParam)
                               case Some(s) => Some(s)
                               case None => old(selected)
    {
      if |users| == 0 || initialSelectionMade {
        return;
      }
      var choice := InitialChoice(users, qrHash, userIDParam);
      if choice.Some? {
        selected := choice;
      }
      initialSelectionMade := true;
    }

    /** `handleUserSelect(userId)`: select the customer and rewrite the address. */
    method SelectUser(userId: int) returns (url: string)
      modifies this
      ensures selected == Some(UserNum(userId))
      ensures url == NavUrl(Navigation(users, userId))
      ensures users == old(users) && initialSelectionMade == old(initialSelectionMade) && searchTerm == old(searchTerm)
    {
      selected := Some(UserNum(userId));
      url := NavUrl(Navigation(users, userId));
    }
  }

  /** A customer without a QR code is found again by id. */
  lemma IdNavSelectsAgain(users: seq<UserSummary>, k: nat)
    requires k < |users|
    ensures var (q, p) := ParamsOf(IdNav(users[k].userID));
      var r := InitialChoice(users, q, p); r.Some? && Denotes(r.value, users[k])
  {
    var text := IntToString(users[k].userID);
    var r := FirstIndex(users, HasIdText(text));
    assert HasIdText(text)(users[k]);
    assert text != [];
  }

  /** Picking a listed customer and reloading the address it writes selects that customer
      again, when QR codes are unique. */
  lemma ReloadSelectsSameCustomer(users: seq<UserSummary>, k: nat)
    requires UniqueCodes(users) && k < |users|
    ensures var (q, p) := ParamsOf(Navigation(users, users[k].userID));
      var r := InitialChoice(users, q, p); r.Some? && Denotes(r.value, users[k])
  {
    var id := users[k].userID;
    var i := FirstIndex(users, (u: UserSummary) => u.userID == id).value;
    var n := Navigation(users, id);
    match n
    case QrNav(code) =>
      assert users[i].qrcode == Some(code);
      var j := FirstIndex(users, HasCode(code)).value;
      assert HasCode(code)(users[i]);
    case IdNav(_) =>
      IdNavSelectsAgain(users, i);
  }

  /** The QR image `getQRCode` makes for a customer opens this page on that customer: the
      address carries the stored code as `qrHash`, and with unique codes the console loaded
      with the customer list selects exactly that customer. */
  lemma ScannedCodeSelectsOwner(accounts: seq<User>, id: int, clientUrl: Option<string>)
    requires FindUser(accounts, id).Some?
    requires var u := accounts[FindUser(accounts, id).value];
      u.role == Customer && u.qrcode.Some? && u.qrcode.value != ""
    requires UniqueCodes(GetAllUsers(accounts))
    ensures var code := accounts[FindUser(accounts, id).value].qrcode.value;
      && Auth.GetQRCode(accounts, id, clientUrl) == Auth.QrLink(Auth.ClientBase(clientUrl) + "/staff" + NavUrl(QrNav(code)))
      && var (q, p) := ParamsOf(QrNav(code));
         InitialChoice(GetAllUsers(accounts), q, p) == Some(UserNum(id))
  {
    var u := accounts[FindUser(accounts, id).value];
    var code := u.qrcode.value;
    StaffLinkText(Auth.ClientBase(clientUrl), code);
    OwnerSelected(accounts, u);
  }

  /** The address `getQRCode` writes is the staff page with the query `handleUserSelect`
      writes for the same code. */
  lemma StaffLinkText(base: string, code: string)
    ensures base + "/staff?qrHash=" + code == base + "/staff" + NavUrl(QrNav(code))
  {
    var lit := "/staff?qrHash=";
    var parts := "/staff" + "?qrHash=";
    assert |lit| == |parts| == 14;
    forall i | 0 <= i < 14 ensures lit[i] == parts[i] {}
    assert lit == parts;
  }

  /** With unique codes, the first listed customer carrying `u`'s code is `u`. */
  lemma OwnerSelected(accounts: seq<User>, u: User)
    requires u in accounts && u.role == Customer && u.qrcode.Some? && u.qrcode.value != ""
    requires UniqueCodes(GetAllUsers(accounts))
    ensures InitialChoice(GetAllUsers(accounts), u.qrcode, None) == Some(UserNum(u.userID))
  {
    var users := GetAllUsers(accounts);
    var j :| 0 <= j < |accounts| && accounts[j] == u;
    assert SummaryOf(u) in users;
    var m :| 0 <= m < |users| && users[m] == SummaryOf(u);
    FirstWithCode(users, m);
    assert users[m].qrcode == u.qrcode && users[m].userID == u.userID;
    assert FirstIndex(users, HasCode(u.qrcode.value)) == Some(m);
    assert !FalsyStr(u.qrcode);
  }

  /** With unique codes, a listed customer is the first one carrying its own code. */
  lemma FirstWithCode(users: seq<UserSummary>, m: nat)
    requires m < |users| && users[m].qrcode.Some? && UniqueCodes(users)
    ensures FirstIndex(users, HasCode(users[m].qrcode.value)) == Some(m)
  {
    var code := users[m].qrcode.value;
    assert HasCode(code)(users[m]);
    var i := FirstIndex(users, HasCode(code)).value;
    if i < m {
      assert false;
    }
  }
}
