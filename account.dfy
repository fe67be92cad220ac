/** The customer's own account (server/customer-controllers/accountController.js). The user id
    comes from the verified login token. */
module Account {
  import opened Util
  import opened Tables
  import opened Stores

  /** `SELECT userID, name, email`. */
  datatype AccountDetails = AccountDetails(userID: int, name: string, email: string)

  /** `getAccountDetails`: None is the 404; otherwise three columns of the first row with the id. */
  function GetAccountDetails(users: seq<User>, userID: int): (r: Option<AccountDetails>)
    ensures r.None? <==> FindUser(users, userID).None?
    ensures r.Some? ==>
              exists k :: && 0 <= k < |users| && users[k].userID == userID
                          && (forall j :: 0 <= j < k ==> users[j].userID != userID)
                          && r.value == AccountDetails(userID, users[k].name, users[k].email)
  {
    match FindUser(users, userID)
    case None => None
    case Some(k) => Some(AccountDetails(users[k].userID, users[k].name, users[k].email))
  }

  /** The body's `newName`: absent, a string, or a value of another JSON type. */
  datatype NameField = Missing | Text(text: string) | NotText

  datatype RenameReply =
    | NameRequired            // 400 "Valid name is required"
    | UserNotFound            // 404 "User not Found"
    | Renamed(newName: string) // 200 { newName }

  predicate ValidName(newName: NameField)
  {
    newName.Text? && newName.text != "" && Trim(newName.text) != ""
  }

  /** `UPDATE users SET name = ? WHERE userID = ?`. */
  function RenameUser(us: seq<User>, id: int, name: string): (r: seq<User>)
    ensures |r| == |us|
    ensures forall k :: 0 <= k < |us| ==> r[k] == if us[k].userID == id then us[k].(name := name) else us[k]
  {
    UpdateUser(us, id, (u: User) => u.(name := name))
  }

  /** `updateAccountName`: the trimmed name is stored and echoed; no other column changes. */
  method UpdateAccountName(s: Store, userID: int, newName: NameField) returns (reply: RenameReply)
    requires s.Valid()
    modifies s
    ensures s.Valid()
    ensures s.rewards == old(s.rewards) && s.redemptions == old(s.redemptions) && s.transactions == old(s.transactions)
    ensures !ValidName(newName) ==> reply == NameRequired && s.users == old(s.users)
    ensures ValidName(newName) && FindUser(old(s.users), userID).None? ==> reply == UserNotFound && s.users == old(s.users)
    ensures ValidName(newName) && FindUser(old(s.users), userID).Some? ==>
              reply == Renamed(Trim(newName.text)) && s.users == RenameUser(old(s.users), userID, Trim(newName.text))
  {
    // `!newName || typeof newName !== 'string' || newName.trim().length === 0`
    if !ValidName(newName) {
      return NameRequired;
    }
    var trimmed := Trim(newName.text);
    var affectedRows := UsersWithId(s.users, userID);
    UsersWithIdZero(s.users, userID);
    if affectedRows == 0 {
      return UserNotFound;
    }
    var updated := RenameUser(s.users, userID, trimmed);
    assert forall k :: 0 <= k < |updated| ==> updated[k].userID == s.users[k].userID;
    s.SetUsers(updated);
    reply := Renamed(trimmed);
  }

  /** Renaming a row to the name it already has changes nothing. */
  lemma RenameToSameName(us: seq<User>, id: int, k: nat)
    requires UniqueUserIds(us) && k < |us| && us[k].userID == id
    ensures RenameUser(us, id, us[k].name) == us
  {
    var again := RenameUser(us, id, us[k].name);
    assert forall j :: 0 <= j < |us| ==> again[j] == us[j];
  }

  /** The stored name is the trimmed input, which is not empty and is its own trim, so a
      second rename with the stored name is a no-op. */
  lemma RenameStoresTrimmed(us: seq<User>, id: int, newName: string, k: nat)
    requires UniqueUserIds(us) && Trim(newName) != "" && k < |us| && us[k].userID == id
    ensures var after := RenameUser(us, id, Trim(newName));
      && after[k].name == Trim(newName) != ""
      && Trim(after[k].name) == after[k].name
      && RenameUser(after, id, Trim(after[k].name)) == after
  {
    TrimIdempotent(newName);
    var after := RenameUser(us, id, Trim(newName));
    RenameToSameName(after, id, k);
  }
}
