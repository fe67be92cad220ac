/** The admin reward list of client/src/pages/admin-rewards.jsx: the fetched rewards filtered
    by the search box, ten to a page, each with an Active/Inactive badge. */
module AdminRewardsPage {
  import opened Util
  import opened ClientList

  /** The columns of a fetched reward the page reads; the text columns may be null. */
  datatype RewardItem = RewardItem(rewardName: Option<string>, category: Option<string>, brand: Option<string>,
                                   isActive: string, pointsRequired: int)

  /** The search predicate: the term occurs, ignoring case, in the name, the category or the brand. */
  predicate RewardMatches(term: string, w: RewardItem)
  {
    FieldMatches(w.rewardName, term) || FieldMatches(w.category, term) || FieldMatches(w.brand, term)
  }

  /** `filteredRewards`: the fetched rewards that match, in their fetched order. */
  function FilteredRewards(rewards: seq<RewardItem>, term: string): (r: seq<RewardItem>)
    ensures forall k :: 0 <= k < |r| ==> r[k] in rewards && RewardMatches(term, r[k])
    ensures forall k :: 0 <= k < |rewards| && RewardMatches(term, rewards[k]) ==> rewards[k] in r
  {
    Filter(rewards, (w: RewardItem) => RewardMatches(term, w))
  }

  /** `currentRewards`: the matching rewards on the current page. */
  function CurrentRewards(rewards: seq<RewardItem>, term: string, page: int): seq<RewardItem>
  {
    Visible(FilteredRewards(rewards, term), page)
  }

  /** Every reward on any page is a fetched reward that matches the term. */
  lemma ShownRewardsMatch(rewards: seq<RewardItem>, term: string, page: int, k: nat)
    requires k < |CurrentRewards(rewards, term, page)|
    ensures CurrentRewards(rewards, term, page)[k] in rewards
    ensures RewardMatches(term, CurrentRewards(rewards, term, page)[k])
  {
    VisibleRowsMatch(rewards, (w: RewardItem) => RewardMatches(term, w), page, k);
  }

  /** The search ignores case: a term and its lower-case form select the same rewards. */
  lemma SearchIgnoresCase(rewards: seq<RewardItem>, term: string)
    ensures FilteredRewards(rewards, Lower(term)) == FilteredRewards(rewards, term)
  {
    forall w: RewardItem ensures RewardMatches(Lower(term), w) == RewardMatches(term, w) {
      if w.rewardName.Some? { ContainsIgnoringCaseOfLower(w.rewardName.value, term); }
      if w.category.Some? { ContainsIgnoringCaseOfLower(w.category.value, term); }
      if w.brand.Some? { ContainsIgnoringCaseOfLower(w.brand.value, term); }
    }
    FilterSame(rewards, (w: RewardItem) => RewardMatches(Lower(term), w), (w: RewardItem) => RewardMatches(term, w));
  }

  /** With an empty search box every reward is listed that has a name, a category or a
      brand; one with all three null never is. */
  lemma EmptySearchListsNamedRewards(rewards: seq<RewardItem>, k: nat)
    requires k < |rewards|
    ensures rewards[k] in FilteredRewards(rewards, "") <==>
              rewards[k].rewardName.Some? || rewards[k].category.Some? || rewards[k].brand.Some?
  {
    var w := rewards[k];
    if w.rewardName.Some? { ContainsEmpty(w.rewardName.value); }
    if w.category.Some? { ContainsEmpty(w.category.value); }
    if w.brand.Some? { ContainsEmpty(w.brand.value); }
  }
}
