/** Staff accounts as the admin manages them (server/admin-controllers/staffManagementController.js). */
module AdminStaff {
  import opened Util
  import opened Tables
  import opened Stores

  function StaffKey(u: User): int { u.userID }

  /** `WHERE role = 'staff'`, plus `AND status = 'active'` unless inactive rows are asked for. */
  function StaffListed(showInactive: bool): User -> bool
  {
    (u: User) => u.role == Staff && (showInactive || u.status == Active)
  }

  /** `viewAllStaff`: staff accounts only, inactive ones only when `showInactive` is exactly
      "true", highest userID first. */
  function ViewAllStaff(users: seq<User>, showInactive: Option<string>): (r: seq<User>)
    ensures SortedDesc(r, StaffKey)
    ensures forall k :: 0 <= k < |r| ==>
              r[k] in users && r[k].role == Staff && (ShowInactive(showInactive) || r[k].status == Active)
    ensures forall j :: 0 <= j < |users| && users[j].role == Staff && (ShowInactive(showInactive) || users[j].status == Active) ==>
              users[j] in r
  {
    SelectDesc(users, StaffListed(ShowInactive(showInactive)), StaffKey)
  }

  datatype DeleteReply =
    | IdRequired                          // 400 "Staff ID is required"
    | StaffNotFound                       // 404 "Staff not found"
    | Deactivated(id: int, name: string)  // 200 "Staff <name> deactivated successfully."

  /** `deleteStaff`: a soft delete of a staff account; customer and admin ids get the 404. */
  method DeleteStaff(s: Store, userID: Option<int>) returns (reply: DeleteReply)
    requires s.Valid()
    modifies s
    ensures s.Valid()
    ensures s.rewards == old(s.rewards) && s.redemptions == old(s.redemptions) && s.transactions == old(s.transactions)
    ensures userID.None? ==> reply == IdRequired && s.users == old(s.users)
    ensures userID.Some? && FindWithRole(old(s.users), userID.value, Staff).None? ==>
              reply == StaffNotFound && s.users == old(s.users)
    ensures userID.Some? && FindWithRole(old(s.users), userID.value, Staff).Some? ==>
              && reply == Deactivated(userID.value, old(s.users)[FindWithRole(old(s.users), userID.value, Staff).value].name)
              && s.users == DeactivateWithRole(old(s.users), userID.value, Staff)
  {
    if userID.None? {
      return IdRequired;
    }
    var found := FindWithRole(s.users, userID.value, Staff);
    if found.None? {
      return StaffNotFound;
    }
    var name := s.users[found.value].name;
    s.SetUsers(DeactivateWithRole(s.users, userID.value, Staff));
    reply := Deactivated(userID.value, name);
  }

  datatype AddStaffReply =
    | FieldsRequired        // 400 "All fields are required"
    | EmailExists           // 400 "Email already exists"
    | StaffAdded(userID: int) // 201 "Staff member added successfully"

  /** The guard of `addStaff` exactly as written: a missing name, email or password, or any
      non-empty `role` in the body, is refused. */
  predicate AddStaffRefused(name: Option<string>, email: Option<string>, password: Option<string>, role: Option<string>)
  {
    FalsyStr(name) || FalsyStr(email) || FalsyStr(password) || !FalsyStr(role)
  }

  /** `addStaff`: the new account always has role staff, whatever the body says; `hashed` is
      what bcrypt makes of the password. */
  method AddStaff(s: Store, name: Option<string>, email: Option<string>, password: Option<string>,
                  role: Option<string>, hashed: string, now: int)
    returns (reply: AddStaffReply)
    requires s.Valid()
    modifies s
    ensures s.Valid()
    ensures s.rewards == old(s.rewards) && s.redemptions == old(s.redemptions) && s.transactions == old(s.transactions)
    ensures AddStaffRefused(name, email, password, role) ==> reply == FieldsRequired && s.users == old(s.users)
    ensures !AddStaffRefused(name, email, password, role) && FindEmail(old(s.users), email.value).Some? ==>
              reply == EmailExists && s.users == old(s.users)
    ensures !AddStaffRefused(name, email, password, role) && FindEmail(old(s.users), email.value).None? ==>
              && reply == StaffAdded(old(s.nextUserID))
              && s.users == old(s.users) + [NewAccount(name.value, email.value, hashed, Staff, now).(userID := old(s.nextUserID))]
    ensures UniqueEmails(old(s.users)) ==> UniqueEmails(s.users)
  {
    if FalsyStr(name) || FalsyStr(email) || FalsyStr(password) || !FalsyStr(role) {
      return FieldsRequired;
    }
    if FindEmail(s.users, email.value).Some? {
      return EmailExists;
    }
    var id := s.AddUser(NewAccount(name.value, email.value, hashed, Staff, now));
    reply := StaffAdded(id);
  }

  /** A body that names a role is always refused, even `role: "staff"`; a body without one is
      refused only for a missing field. */
  lemma AddStaffRoleGuard(name: string, email: string, password: string, role: string)
    requires name != "" && email != "" && password != ""
    ensures AddStaffRefused(Some(name), Some(email), Some(password), Some(role)) <==> role != ""
    ensures !AddStaffRefused(Some(name), Some(email), Some(password), None)
    ensures AddStaffRefused(Some(name), Some(email), Some(password), Some("staff"))
  {
  }
}
