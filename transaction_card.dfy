/** One line of the customer's history as client/src/components/TransactionCard.jsx draws
    it: a colour from the line's type, a title, an optional status badge and a signed amount.
    The date is shown through `toLocaleDateString`, which is left out. */
module TransactionCard {
  import opened Util
  import opened Tables
  import opened CustomerTransactions

  /** The fields of a `transaction` the card reads. */
  datatype CardTx = CardTx(txType: string, description: string, amount: int, status: Option<string>)

  /** The colour of the icon and of the amount. */
  datatype Tone = Red | Green | Blue | Gray

  /** The colour of the status badge. */
  datatype BadgeTone = BadgeGreen | BadgeYellow | BadgeGray

  datatype Badge = Badge(text: string, tone: BadgeTone)

  datatype CardView = CardView(tone: Tone, title: string, amountText: string, badge: Option<Badge>)

  /** `lowerType === 'redeemed' || lowerType === 'redeem'`. */
  predicate IsRedeemType(txType: string)
  {
    Lower(txType) == "redeemed" || Lower(txType) == "redeem"
  }

  /** `getTransactionColor` and `getTransactionIcon`, which branch alike. */
  function ToneOf(txType: string): (tone: Tone)
    ensures tone == Red <==> IsRedeemType(txType)
    ensures tone == Green <==> Lower(txType) == "purchase" || Lower(txType) == "earned"
    ensures tone == Blue <==> Lower(txType) == "reward"
  {
    var t := Lower(txType);
    if t == "redeemed" || t == "redeem" then Red
    else if t == "purchase" || t == "earned" then Green
    else if t == "reward" then Blue
    else Gray
  }

  /** A redemption is titled by the part of its description before the first " - "
      (`description.split(' - ')[0]`), anything else by the whole description. */
  function Title(t: CardTx): (title: string)
    ensures !IsRedeemType(t.txType) ==> title == t.description
    ensures IsRedeemType(t.txType) ==>
              && |title| >= 10 && title[..10] == "Redeemed: " && |title| - 10 <= |t.description|
              && title[10..] == t.description[..|title| - 10]
              && (forall k :: 0 <= k < |title| - 10 ==> !MatchAt(t.description, " - ", k))
              && (|title| - 10 == |t.description| || MatchAt(t.description, " - ", |title| - 10))
  {
    if IsRedeemType(t.txType) then
      var name := BeforeFirst(t.description, " - ");
      assert ("Redeemed: " + name)[10..] == name;
      "Redeemed: " + name
    else t.description
  }

  /** The badge shows only for a truthy status: green for 'completed', yellow for 'pending',
      grey otherwise. */
  function StatusBadge(status: Option<string>): (b: Option<Badge>)
    ensures b.Some? <==> !FalsyStr(status)
    ensures b.Some? ==> b.value.text == status.value
    ensures b.Some? ==> (b.value.tone == BadgeGreen <==> status.value == "completed")
    ensures b.Some? ==> (b.value.tone == BadgeYellow <==> status.value == "pending")
  {
    if FalsyStr(status) then None
    else if status.value == "completed" then Some(Badge(status.value, BadgeGreen))
    else if status.value == "pending" then Some(Badge(status.value, BadgeYellow))
    else Some(Badge(status.value, BadgeGray))
  }

  /** `'-'` or `'+'` followed by `amount` as it comes: the minus sign marks exactly the
      redemption types. */
  function AmountText(t: CardTx): (text: string)
    ensures |text| >= 1 && (text[0] == '-' || text[0] == '+')
    ensures text[0] == '-' <==> IsRedeemType(t.txType)
    ensures text[1..] == IntToString(t.amount)
  {
    var sign := if IsRedeemType(t.txType) then "-" else "+";
    assert (sign + IntToString(t.amount))[1..] == IntToString(t.amount);
    sign + IntToString(t.amount)
  }

  /** The card, or nothing for a missing transaction. */
  function Card(t: Option<CardTx>): (v: Option<CardView>)
    ensures v.Some? <==> t.Some?
  {
    match t
    case None => None
    case Some(x) => Some(CardView(ToneOf(x.txType), Title(x), AmountText(x), StatusBadge(x.status)))
  }

  /** The amount opens with '-' exactly on the red cards, and the number after the sign reads
      back as the line's amount. */
  lemma SignFollowsTone(x: CardTx)
    ensures var v := Card(Some(x)).value;
      && |v.amountText| > 1
      && (v.amountText[0] == '-' <==> v.tone == Red)
      && ParseInt(v.amountText[1..]) == Some(x.amount)
  {
    var sign := if IsRedeemType(x.txType) then "-" else "+";
    assert AmountText(x) == sign + (IntToString(x.amount) + []);
    assert AmountText(x)[1..] == IntToString(x.amount) + [];
    ParseIntOfIntToStringThen(x.amount, []);
  }

  /** The colour does not depend on how the type is capitalised. */
  lemma ToneIgnoresCase(txType: string)
    ensures ToneOf(Lower(txType)) == ToneOf(txType)
  {
    LowerIdempotent(txType);
  }

  // ------------------------------------------------------------------
  // The lines of /api/transactions on the card
  // ------------------------------------------------------------------

  function StatusText(st: RedeemStatus): string
  {
    match st
    case Pending => "pending"
    case Completed => "completed"
    case Denied => "denied"
  }

  /** The JSON line the page passes to the card: `type` is 'purchase' or 'redeemed'. */
  function CardTxOf(e: CustomerTx): CardTx
  {
    CardTx(if e.kind == Redeemed then "redeemed" else "purchase", e.description, e.amount, Some(StatusText(e.status)))
  }

  /** The title of a redemption line is the reward's name, provided the name itself does not
      run into a " - " (the card cuts the description at the first one). */
  lemma TitleIsPrefix(name: string, brand: string)
    requires forall k :: 0 <= k < |name| ==> !MatchAt(name + " - ", " - ", k)
    ensures BeforeFirst(name + " - " + brand, " - ") == name
  {
    var s := name + " - " + brand;
    var r := BeforeFirst(s, " - ");
    forall k | 0 <= k < |name| ensures MatchAt(s, " - ", k) == MatchAt(name + " - ", " - ", k) {
      assert s == (name + " - ") + brand;
    }
    assert MatchAt(s, " - ", |name|) by {
      assert s[|name|..|name| + 3] == " - ";
    }
  }

  /** A customer's redemption shows red, titled "Redeemed: " and the reward's name, with the
      points spent after a '-' and a badge for its status. */
  lemma RedemptionCard(rewards: seq<Reward>, r: Redemption)
    requires FindReward(rewards, r.rewardID).Some?
    requires var w := rewards[FindReward(rewards, r.rewardID).value];
      forall k :: 0 <= k < |w.rewardName| ==> !MatchAt(w.rewardName + " - ", " - ", k)
    ensures var v := Card(Some(CardTxOf(RedeemTxOf(rewards)(r)))).value;
      && v.tone == Red
      && v.title == "Redeemed: " + rewards[FindReward(rewards, r.rewardID).value].rewardName
      && v.amountText == "-" + IntToString(r.pointsUsed)
      && v.badge == Some(StatusBadge(Some(StatusText(r.redeemStatus))).value)
  {
    var w := rewards[FindReward(rewards, r.rewardID).value];
    var x := CardTxOf(RedeemTxOf(rewards)(r));
    assert x.txType == "redeemed" && x.description == w.rewardName + " - " + w.brand;
    assert Lower("redeemed") == "redeemed";
    TitleIsPrefix(w.rewardName, w.brand);
  }

  /** A customer's purchase shows green, titled by its payment, with the points earned after
      a '+' and a green 'completed' badge. */
  lemma PurchaseCard(t: TxRow)
    ensures var v := Card(Some(CardTxOf(PurchaseTxOf(t)))).value;
      && v.tone == Green
      && v.title == "Payment - ₱" + IntToString(t.paymentAmount)
      && v.amountText == "+" + IntToString(t.pointsChange)
      && v.badge == Some(Badge("completed", BadgeGreen))
  {
    assert Lower("purchase") == "purchase";
  }
}
