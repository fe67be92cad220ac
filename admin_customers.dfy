/** The admin customer list and the soft delete of server/admin-controllers/customerController.js. */
module AdminCustomers {
  import opened Util
  import opened Tables
  import opened Stores

  function UserKey(u: User): int { u.userID }

  /** `WHERE role = 'customer'`, plus `AND status = 'active'` unless inactive rows are asked for. */
  function CustomerListed(showInactive: bool): User -> bool
  {
    (u: User) => u.role == Customer && (showInactive || u.status == Active)
  }

  /** `viewAllCustomers`: customers only, inactive ones only when `showInactive` is exactly
      "true", highest userID first. */
  function ViewAllCustomers(users: seq<User>, showInactive: Option<string>): (r: seq<User>)
    ensures SortedDesc(r, UserKey)
    ensures forall k :: 0 <= k < |r| ==>
              r[k] in users && r[k].role == Customer && (ShowInactive(showInactive) || r[k].status == Active)
    ensures forall j :: 0 <= j < |users| && users[j].role == Customer && (ShowInactive(showInactive) || users[j].status == Active) ==>
              users[j] in r
  {
    SelectDesc(users, CustomerListed(ShowInactive(showInactive)), UserKey)
  }

  datatype DeleteReply =
    | IdRequired                          // 400 "Customer ID is required"
    | CustomerNotFound                    // 404 "Customer not found"
    | Deactivated(id: int, name: string)  // 200 "Customer <name> deactivated successfully."

  /** `deleteCustomer`: a soft delete. Only an id that belongs to a customer is accepted, and
      then only the status column of that row changes. (The second 404, for an UPDATE that
      affects no row, cannot follow the SELECT that found the row.) */
  method DeleteCustomer(s: Store, customerID: Option<int>) returns (reply: DeleteReply)
    requires s.Valid()
    modifies s
    ensures s.Valid()
    ensures s.rewards == old(s.rewards) && s.redemptions == old(s.redemptions) && s.transactions == old(s.transactions)
    ensures customerID.None? ==> reply == IdRequired && s.users == old(s.users)
    ensures customerID.Some? && FindWithRole(old(s.users), customerID.value, Customer).None? ==>
              reply == CustomerNotFound && s.users == old(s.users)
    ensures customerID.Some? && FindWithRole(old(s.users), customerID.value, Customer).Some? ==>
              && reply == Deactivated(customerID.value, old(s.users)[FindWithRole(old(s.users), customerID.value, Customer).value].name)
              && s.users == DeactivateWithRole(old(s.users), customerID.value, Customer)
  {
    if customerID.None? {
      return IdRequired;
    }
    var found := FindWithRole(s.users, customerID.value, Customer);
    if found.None? {
      return CustomerNotFound;
    }
    var name := s.users[found.value].name;
    s.SetUsers(DeactivateWithRole(s.users, customerID.value, Customer));
    reply := Deactivated(customerID.value, name);
  }

  /** After a soft delete the customer drops out of the default list but is still listed,
      inactive and with balance and lifetime totals intact, when inactive rows are asked for;
      no account with another id or role is touched. */
  lemma DeletedCustomerHidden(users: seq<User>, id: int, k: nat)
    requires k < |users| && users[k].userID == id && users[k].role == Customer
    ensures var after := DeactivateWithRole(users, id, Customer);
      && after[k] == users[k].(status := Inactive)
      && after[k] !in ViewAllCustomers(after, None)
      && after[k] in ViewAllCustomers(after, Some("true"))
      && (forall j :: 0 <= j < |users| && !(users[j].userID == id && users[j].role == Customer) ==> after[j] == users[j])
  {
  }
}
