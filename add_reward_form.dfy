/** The new-reward dialog of client/src/components/AddReward.jsx: five text fields, checked
    before the reward is handed to the page that posts it to `/api/admin/add-reward`. */
module AddRewardForm {
  import opened Util
  import opened AdminHomeProcess

  const MissingFieldsAlert := "Please fill in all required fields (Name, Description, Points Required, Brand, Category)."

  /** What `onSave` receives, with `pointsRequired: Number(pointsRequired)`. */
  datatype RewardInput = RewardInput(name: string, description: string, pointsRequired: int, brand: string, category: string)

  /** `handleSave`'s check: every text non-empty and the points readable by `Number`. */
  function Checked(name: string, description: string, points: string, brand: string, category: string): (r: Option<RewardInput>)
    ensures r.Some? <==> name != "" && description != "" && points != "" && ToNumber(points).Some? && brand != "" && category != ""
    ensures r.Some? ==> r.value == RewardInput(name, description, ToNumber(points).value, brand, category)
  {
    if name != "" && description != "" && points != "" && ToNumber(points).Some? && brand != "" && category != "" then
      Some(RewardInput(name, description, ToNumber(points).value, brand, category))
    else None
  }

  class RewardDialog {
    var name: string
    var description: string
    var pointsRequired: string
    var brand: string
    var category: string

    constructor ()
      ensures name == "" && description == "" && pointsRequired == "" && brand == "" && category == ""
    {
      name, description, pointsRequired, brand, category := "", "", "", "", "";
    }

    /** `handleSave`: a reward that passes is handed on, the fields are cleared and the dialog
        closes; otherwise the alert text is returned and nothing changes. */
    method Save() returns (saved: Option<RewardInput>, alert: Option<string>)
      modifies this
      ensures saved == Checked(old(name), old(description), old(pointsRequired), old(brand), old(category))
      ensures alert.Some? <==> saved.None?
      ensures alert.Some? ==> alert.value == MissingFieldsAlert
      ensures saved.Some? ==> name == "" && description == "" && pointsRequired == "" && brand == "" && category == ""
      ensures saved.None? ==> name == old(name) && description == old(description) && pointsRequired == old(pointsRequired)
                              && brand == old(brand) && category == old(category)
    {
      saved := Checked(name, description, pointsRequired, brand, category);
      if saved.None? {
        return None, Some(MissingFieldsAlert);
      }
      alert := None;
      name, description, pointsRequired, brand, category := "", "", "", "", "";
    }
  }

  /** The dialog and the handler agree except on zero points: a reward the dialog sends is
      refused by the handler exactly when its points read as 0, which includes "0" and
      points typed as blanks; a negative number passes both. */
  lemma DialogAndServerDisagreeOnZero(name: string, description: string, points: string, brand: string, category: string)
    requires Checked(name, description, points, brand, category).Some?
    ensures var w := Checked(name, description, points, brand, category).value;
      RewardFieldsMissingIn(Some(w.name), Some(w.description), Some(w.pointsRequired), Some(w.brand), Some(w.category)) <==> ToNumber(points) == Some(0)
  {
  }

  /** "0" and a run of blanks both pass the dialog with 0 points. */
  lemma ZeroPointsPassDialog(blanks: string)
    requires blanks != [] && forall i :: 0 <= i < |blanks| ==> blanks[i] == ' '
    ensures Checked("n", "d", "0", "b", "c") == Some(RewardInput("n", "d", 0, "b", "c"))
    ensures Checked("n", "d", blanks, "b", "c") == Some(RewardInput("n", "d", 0, "b", "c"))
  {
    ToNumberOfNatToString(0);
    assert NatToString(0) == "0";
    TrimEmptyIff(blanks);
  }
}
