/** The customer directory of client/src/pages/admin-customers.jsx: the fetched users filtered
    by the search box, ten to a page, each with an Active/Inactive badge. */
module AdminCustomersPage {
  import opened Util
  import opened ClientList

  /** The columns of a fetched user the page reads; name and email may be null. */
  datatype CustomerItem = CustomerItem(userID: int, name: Option<string>, email: Option<string>, status: string, pointsBalance: int)

  /** The search predicate: the term occurs, ignoring case, in the name or the email. */
  predicate CustomerMatches(term: string, u: CustomerItem)
  {
    FieldMatches(u.name, term) || FieldMatches(u.email, term)
  }

  /** `filteredUsers`: the fetched users that match, in their fetched order. */
  function FilteredUsers(users: seq<CustomerItem>, term: string): (r: seq<CustomerItem>)
    ensures forall k :: 0 <= k < |r| ==> r[k] in users && CustomerMatches(term, r[k])
    ensures forall k :: 0 <= k < |users| && CustomerMatches(term, users[k]) ==> users[k] in r
  {
    Filter(users, (u: CustomerItem) => CustomerMatches(term, u))
  }

  /** `currentUsers`: the matching users on the current page. */
  function CurrentUsers(users: seq<CustomerItem>, term: string, page: int): seq<CustomerItem>
  {
    Visible(FilteredUsers(users, term), page)
  }

  /** Every user on any page is a fetched user that matches the term. */
  lemma ShownUsersMatch(users: seq<CustomerItem>, term: string, page: int, k: nat)
    requires k < |CurrentUsers(users, term, page)|
    ensures CurrentUsers(users, term, page)[k] in users
    ensures CustomerMatches(term, CurrentUsers(users, term, page)[k])
  {
    VisibleRowsMatch(users, (u: CustomerItem) => CustomerMatches(term, u), page, k);
  }

  /** The search ignores case: a term and its lower-case form select the same users. */
  lemma SearchIgnoresCase(users: seq<CustomerItem>, term: string)
    ensures FilteredUsers(users, Lower(term)) == FilteredUsers(users, term)
  {
    forall u: CustomerItem ensures CustomerMatches(Lower(term), u) == CustomerMatches(term, u) {
      if u.name.Some? { ContainsIgnoringCaseOfLower(u.name.value, term); }
      if u.email.Some? { ContainsIgnoringCaseOfLower(u.email.value, term); }
    }
    FilterSame(users, (u: CustomerItem) => CustomerMatches(Lower(term), u), (u: CustomerItem) => CustomerMatches(term, u));
  }

  /** A user is found by any part of their email address, whatever its case. */
  lemma FoundByEmailPart(users: seq<CustomerItem>, k: nat, before: string, part: string, after: string)
    requires k < |users| && users[k].email == Some(before + part + after)
    ensures users[k] in FilteredUsers(users, part)
  {
    var e := before + part + after;
    assert Lower(e) == Lower(before) + Lower(part) + Lower(after);
    ContainsInfix(Lower(before), Lower(part), Lower(after));
  }
}
