/** Batch approval and denial of pending redemptions, shared by
    `processPendingRedemptions` (server/admin-controllers/homeProcessControllers.js) and the
    two `processRedemptions` handlers (server/controllers/staffController.js and
    server/staff-controllers/redemptionController.js).

    The selected rows are processed one at a time. For an approval the handler issues five
    queries in order: 0 reads the customer's balance, 1 reads the reward's name, 2 marks the
    redemption completed, 3 debits the balance, 4 logs the debit. Any of them can throw; the
    handler then counts the item as failed and goes on with the next one, keeping whatever
    the earlier queries of that item already wrote. `faults` says, per redeemID, which query
    throws (none when the id is absent). A denial issues one query (0 marks it denied). */
module Batch {
  import opened Util
  import opened Tables
  import opened Stores

  /** A truthy `action`: "approve", "deny", or anything else. */
  datatype Action = Approve | Deny | OtherAction

  function ActionOf(a: string): Action
  {
    if a == "approve" then Approve else if a == "deny" then Deny else OtherAction
  }

  /** The part of the database a batch can change. */
  datatype Ledger = Ledger(users: seq<User>, redemptions: seq<Redemption>, log: seq<TxRow>, nextTxID: int)

  /** The ledger together with `processedCount` and `failedCount`. */
  datatype Tally = Tally(db: Ledger, processed: nat, failed: nat)

  function LedgerOf(s: Store): Ledger
    reads s
  {
    Ledger(s.users, s.redemptions, s.transactions, s.nextTransactionID)
  }

  /** Query number `q` of the item `id` completes (no earlier or equal query throws). */
  predicate Reaches(faults: map<int, nat>, id: int, q: nat)
  {
    id !in faults || faults[id] > q
  }

  // ------------------------------------------------------------------
  // Selection
  // ------------------------------------------------------------------

  /** `SELECT ... FROM redemption r WHERE r.redeemStatus = 'pending' AND r.redeemID IN (ids)`. */
  function SelectPending(rs: seq<Redemption>, ids: seq<int>): (sel: seq<Redemption>)
    ensures |sel| <= |rs|
    ensures forall r :: r in sel <==> r in rs && r.redeemStatus == Pending && r.redeemID in ids
  {
    if rs == [] then []
    else
      var rest := SelectPending(rs[1..], ids);
      assert forall r :: r in rest ==> r in rs[1..];
      (if rs[0].redeemStatus == Pending && rs[0].redeemID in ids then [rs[0]] else []) + rest
  }

  /** With unique ids in the table, the selection has unique ids. */
  lemma {:induction false} SelectPendingUnique(rs: seq<Redemption>, ids: seq<int>)
    requires UniqueRedeemIds(rs)
    ensures UniqueRedeemIds(SelectPending(rs, ids))
  {
    if rs != [] {
      assert UniqueRedeemIds(rs[1..]);
      SelectPendingUnique(rs[1..], ids);
      var rest := SelectPending(rs[1..], ids);
      forall k | 0 <= k < |rest| ensures rest[k].redeemID != rs[0].redeemID {
        assert rest[k] in rest;
        var j :| 0 <= j < |rs[1..]| && rs[1..][j] == rest[k];
        assert rs[j + 1] == rest[k];
      }
    }
  }

  /** The rows a batch may touch: distinct ids, each of which names only pending rows. */
  ghost predicate Ready(rs: seq<Redemption>, sel: seq<Redemption>)
  {
    && UniqueRedeemIds(sel)
    && forall j, k :: 0 <= j < |sel| && 0 <= k < |rs| && rs[k].redeemID == sel[j].redeemID ==>
         rs[k].redeemStatus == Pending
  }

  /** What the selection query returns is ready for processing; in particular a completed
      or denied redemption is never selected again. */
  lemma SelectPendingReady(rs: seq<Redemption>, ids: seq<int>)
    requires UniqueRedeemIds(rs)
    ensures Ready(rs, SelectPending(rs, ids))
  {
    SelectPendingUnique(rs, ids);
    var sel := SelectPending(rs, ids);
    forall j, k | 0 <= j < |sel| && 0 <= k < |rs| && rs[k].redeemID == sel[j].redeemID
      ensures rs[k].redeemStatus == Pending
    {
      assert sel[j] in sel;
      var k' :| 0 <= k' < |rs| && rs[k'] == sel[j];
    }
  }

  // ------------------------------------------------------------------
  // One item, and the whole loop as a left fold
  // ------------------------------------------------------------------

  /** The ledger after the approval of `r` goes through: status completed, balance debited,
      one log row appended with paymentAmount 0 and pointsChange = +pointsUsed. */
  function Approved(db: Ledger, r: Redemption, now: int): Ledger
  {
    Ledger(
      DebitUser(db.users, r.userID, r.pointsUsed),
      SetRedeemStatus(db.redemptions, r.redeemID, Completed),
      db.log + [TxRow(db.nextTxID, r.userID, 0, r.pointsUsed, now, None)],
      db.nextTxID + 1)
  }

  /** The ledger after one item, and whether it counts as processed (else as failed). */
  datatype Outcome = Outcome(db: Ledger, ok: bool)

  /** The writes of an approval that passed the balance check: queries 2, 3 and 4, each
      reached only if the earlier ones did not throw. */
  function ApprovalWrites(db: Ledger, r: Redemption, faults: map<int, nat>, now: int): Outcome
  {
    if !Reaches(faults, r.redeemID, 2) then Outcome(db, false)
    else
      var db1 := db.(redemptions := SetRedeemStatus(db.redemptions, r.redeemID, Completed));
      if !Reaches(faults, r.redeemID, 3) then Outcome(db1, false)
      else
        var db2 := db1.(users := DebitUser(db1.users, r.userID, r.pointsUsed));
        if !Reaches(faults, r.redeemID, 4) then Outcome(db2, false)
        else Outcome(Approved(db, r, now), true)
  }

  /** The "approve" branch of the loop body for one item. */
  function ApproveOne(db: Ledger, r: Redemption, faults: map<int, nat>, now: int): Outcome
  {
    if !Reaches(faults, r.redeemID, 0) then Outcome(db, false)
    else
      match FindUser(db.users, r.userID)
      case None => Outcome(db, false)
      case Some(i) =>
        if db.users[i].pointsBalance < r.pointsUsed then Outcome(db, false)
        else ApprovalWrites(db, r, faults, now)
  }

  /** The "deny" branch of the loop body for one item. */
  function DenyOne(db: Ledger, r: Redemption, faults: map<int, nat>): Outcome
  {
    if !Reaches(faults, r.redeemID, 0) then Outcome(db, false)
    else Outcome(db.(redemptions := SetRedeemStatus(db.redemptions, r.redeemID, Denied)), true)
  }

  function StepOne(db: Ledger, r: Redemption, action: Action, faults: map<int, nat>, now: int): Outcome
  {
    match action
    case Approve => ApproveOne(db, r, faults, now)
    case Deny => DenyOne(db, r, faults)
    case OtherAction => Outcome(db, true)
  }

  /** One iteration of the `for (const redemption of pendingRedemptions)` loop. */
  function Step(t: Tally, r: Redemption, action: Action, faults: map<int, nat>, now: int): Tally
  {
    var o := StepOne(t.db, r, action, faults, now);
    if o.ok then Tally(o.db, t.processed + 1, t.failed) else Tally(o.db, t.processed, t.failed + 1)
  }

  /** The loop over `sel`, item by item from the first. Neither counter ever goes down. */
  function Fold(t: Tally, sel: seq<Redemption>, action: Action, faults: map<int, nat>, now: int): (r: Tally)
    ensures t.processed <= r.processed && t.failed <= r.failed
  {
    if sel == [] then t
    else Step(Fold(t, sel[..|sel| - 1], action, faults, now), sel[|sel| - 1], action, faults, now)
  }

  // ------------------------------------------------------------------
  // What one item does
  // ------------------------------------------------------------------

  /** Approving an item whose customer is missing, or whose balance is below pointsUsed,
      only counts a failure: the redemption stays pending and no balance or log changes. */
  lemma ApproveRefused(t: Tally, r: Redemption, faults: map<int, nat>, now: int)
    requires FindUser(t.db.users, r.userID).None? ||
             t.db.users[FindUser(t.db.users, r.userID).value].pointsBalance < r.pointsUsed
    ensures Step(t, r, Approve, faults, now) == t.(failed := t.failed + 1)
  {
  }

  /** An approval that no query interrupts: the customer exists and can pay, and the item
      is counted as processed with exactly the effect of `Approved`. */
  lemma ApproveSucceeds(t: Tally, r: Redemption, faults: map<int, nat>, now: int)
    requires UniqueUserIds(t.db.users)
    requires r.redeemID !in faults
    ensures var t' := Step(t, r, Approve, faults, now);
      match FindUser(t.db.users, r.userID)
      case Some(i) =>
        if t.db.users[i].pointsBalance >= r.pointsUsed then
          && t' == Tally(Approved(t.db, r, now), t.processed + 1, t.failed)
          && t'.db.users[i].pointsBalance == t.db.users[i].pointsBalance - r.pointsUsed >= 0
          && t'.db.users[i].totalEarnedLifetime == t.db.users[i].totalEarnedLifetime
          && t'.db.users[i].totalRedeemedLifetime == t.db.users[i].totalRedeemedLifetime
          && (forall k :: 0 <= k < |t.db.users| && k != i ==> t'.db.users[k] == t.db.users[k])
          && t'.db.log == t.db.log + [TxRow(t.db.nextTxID, r.userID, 0, r.pointsUsed, now, None)]
        else t' == t.(failed := t.failed + 1)
      case None => t' == t.(failed := t.failed + 1)
  {
  }

  /** An item whose processing throws is counted as failed and never as processed; the only
      writes it can leave behind are the status change and the debit of an approval. */
  lemma StepFault(t: Tally, r: Redemption, action: Action, faults: map<int, nat>, now: int)
    requires r.redeemID in faults && action != OtherAction
    requires action == Deny ==> faults[r.redeemID] == 0
    requires action == Approve ==> faults[r.redeemID] <= 4
    ensures Step(t, r, action, faults, now).processed == t.processed
    ensures Step(t, r, action, faults, now).failed == t.failed + 1
    ensures Step(t, r, action, faults, now).db.log == t.db.log
    ensures faults[r.redeemID] <= 2 ==> Step(t, r, action, faults, now).db == t.db
  {
  }

  // ------------------------------------------------------------------
  // What the whole loop does
  // ------------------------------------------------------------------

  /** Every selected item is counted once, as processed or as failed. */
  lemma {:induction false} FoldCounts(t: Tally, sel: seq<Redemption>, action: Action, faults: map<int, nat>, now: int)
    ensures Fold(t, sel, action, faults, now).processed + Fold(t, sel, action, faults, now).failed
         == t.processed + t.failed + |sel|
  {
    if sel != [] {
      FoldCounts(t, sel[..|sel| - 1], action, faults, now);
    }
  }

  /** The state a batch reaches from `a`: only balances change among users; a redemption
      row either stays as it was or is one of the batch's pending rows moved to `target`;
      the log only grows, by rows with paymentAmount 0 and consecutive fresh ids. */
  ghost predicate Evolves(a: Ledger, b: Ledger, ids: set<int>, target: RedeemStatus)
  {
    && SameButBalances(a.users, b.users)
    && |a.redemptions| == |b.redemptions|
    && (forall k :: 0 <= k < |a.redemptions| ==>
          b.redemptions[k] == a.redemptions[k] ||
          (a.redemptions[k].redeemID in ids && a.redemptions[k].redeemStatus == Pending
           && b.redemptions[k] == a.redemptions[k].(redeemStatus := target)))
    && a.log <= b.log
    && b.nextTxID == a.nextTxID + |b.log| - |a.log|
    && (forall k :: |a.log| <= k < |b.log| ==>
          b.log[k].paymentAmount == 0 && b.log[k].transactionID == a.nextTxID + k - |a.log|)
  }

  function Target(action: Action): RedeemStatus
  {
    if action == Approve then Completed else Denied
  }

  function IdsOf(sel: seq<Redemption>): set<int>
  {
    set r | r in sel :: r.redeemID
  }

  /** Marking the item's own rows, which are all pending, is a change `Evolves` allows. */
  lemma SetStatusEvolves(db: Ledger, id: int, target: RedeemStatus)
    requires forall k :: 0 <= k < |db.redemptions| && db.redemptions[k].redeemID == id ==>
               db.redemptions[k].redeemStatus == Pending
    ensures Evolves(db, db.(redemptions := SetRedeemStatus(db.redemptions, id, target)), {id}, target)
  {
    assert db.log <= db.log;
  }

  /** The three writes of an approval change the ledger only as `Evolves` allows. */
  lemma ApprovalEvolves(db: Ledger, r: Redemption, faults: map<int, nat>, now: int)
    requires forall k :: 0 <= k < |db.redemptions| && db.redemptions[k].redeemID == r.redeemID ==>
               db.redemptions[k].redeemStatus == Pending
    ensures Evolves(db, ApprovalWrites(db, r, faults, now).db, {r.redeemID}, Completed)
  {
    var db1 := db.(redemptions := SetRedeemStatus(db.redemptions, r.redeemID, Completed));
    SetStatusEvolves(db, r.redeemID, Completed);
    var users := DebitUser(db.users, r.userID, r.pointsUsed);
    assert SameButBalances(db.users, users);
    var db2 := db1.(users := users);
    assert Evolves(db, db2, {r.redeemID}, Completed);
    var db3 := Approved(db, r, now);
    assert db3 == db2.(log := db.log + [TxRow(db.nextTxID, r.userID, 0, r.pointsUsed, now, None)], nextTxID := db.nextTxID + 1);
    assert db.log <= db3.log;
    assert Evolves(db, db3, {r.redeemID}, Completed);
  }

  lemma StepEvolves(t: Tally, r: Redemption, action: Action, faults: map<int, nat>, now: int)
    requires forall k :: 0 <= k < |t.db.redemptions| && t.db.redemptions[k].redeemID == r.redeemID ==>
               t.db.redemptions[k].redeemStatus == Pending
    ensures Evolves(t.db, Step(t, r, action, faults, now).db, {r.redeemID}, Target(action))
  {
    assert t.db.log <= t.db.log;
    match action
    case Approve =>
      ApprovalEvolves(t.db, r, faults, now);
    case Deny =>
      SetStatusEvolves(t.db, r.redeemID, Denied);
    case OtherAction =>
  }

  lemma EvolvesTrans(a: Ledger, b: Ledger, c: Ledger, ids1: set<int>, ids2: set<int>, target: RedeemStatus)
    requires Evolves(a, b, ids1, target) && Evolves(b, c, ids2, target)
    requires forall k :: 0 <= k < |b.redemptions| && b.redemptions[k].redeemID in ids2 ==>
               b.redemptions[k] == a.redemptions[k]
    ensures Evolves(a, c, ids1 + ids2, target)
  {
    assert a.log <= c.log by {
      assert c.log[..|b.log|] == b.log;
    }
  }

  /** The whole loop over a ready selection changes the ledger only as `Evolves` allows:
      in particular no completed or denied row is ever touched again, so a redemption is
      debited at most once. */
  lemma {:induction false} FoldEvolves(t: Tally, sel: seq<Redemption>, action: Action, faults: map<int, nat>, now: int)
    requires Ready(t.db.redemptions, sel)
    ensures Evolves(t.db, Fold(t, sel, action, faults, now).db, IdsOf(sel), Target(action))
  {
    if sel == [] {
      assert t.db.log <= t.db.log;
    } else {
      var init := sel[..|sel| - 1];
      var x := sel[|sel| - 1];
      ReadyInit(t.db.redemptions, sel);
      FoldEvolves(t, init, action, faults, now);
      var m := Fold(t, init, action, faults, now);
      EvolvesOutside(t.db, m.db, IdsOf(init), Target(action), x.redeemID);
      StepEvolves(m, x, action, faults, now);
      EvolvesTrans(t.db, m.db, Fold(t, sel, action, faults, now).db, IdsOf(init), {x.redeemID}, Target(action));
    }
  }

  /** A ready selection stays ready without its last item, whose id is none of the others'
      and whose rows are all pending. */
  lemma ReadyInit(rs: seq<Redemption>, sel: seq<Redemption>)
    requires sel != [] && Ready(rs, sel)
    ensures Ready(rs, sel[..|sel| - 1])
    ensures sel[|sel| - 1].redeemID !in IdsOf(sel[..|sel| - 1])
    ensures IdsOf(sel) == IdsOf(sel[..|sel| - 1]) + {sel[|sel| - 1].redeemID}
    ensures forall k :: 0 <= k < |rs| && rs[k].redeemID == sel[|sel| - 1].redeemID ==> rs[k].redeemStatus == Pending
  {
    var init := sel[..|sel| - 1];
    var x := sel[|sel| - 1];
    forall r | r in init ensures r.redeemID != x.redeemID {
      var j :| 0 <= j < |init| && init[j] == r;
    }
    assert sel == init + [x];
  }

  /** Rows whose id the batch does not name keep their contents. */
  lemma EvolvesOutside(a: Ledger, b: Ledger, ids: set<int>, target: RedeemStatus, id: int)
    requires Evolves(a, b, ids, target) && id !in ids
    ensures forall k :: 0 <= k < |b.redemptions| && b.redemptions[k].redeemID == id ==> b.redemptions[k] == a.redemptions[k]
  {
  }

  /** Because the balance is read again before every approval, a batch never takes a
      balance that started non-negative below zero. */
  lemma {:induction false} FoldBalancesNonNegative(t: Tally, sel: seq<Redemption>, action: Action, faults: map<int, nat>, now: int)
    requires UniqueUserIds(t.db.users)
    requires NonNegativeBalances(t.db.users)
    ensures UniqueUserIds(Fold(t, sel, action, faults, now).db.users)
    ensures NonNegativeBalances(Fold(t, sel, action, faults, now).db.users)
  {
    if sel != [] {
      var init := sel[..|sel| - 1];
      FoldBalancesNonNegative(t, init, action, faults, now);
      StepBalancesNonNegative(Fold(t, init, action, faults, now).db, sel[|sel| - 1], action, faults, now);
    }
  }

  ghost predicate NonNegativeBalances(us: seq<User>)
  {
    forall k :: 0 <= k < |us| ==> us[k].pointsBalance >= 0
  }

  /** One item keeps ids unique and balances non-negative: the only debit follows a check
      that the single row with the customer's id holds enough points. */
  lemma StepBalancesNonNegative(db: Ledger, r: Redemption, action: Action, faults: map<int, nat>, now: int)
    requires UniqueUserIds(db.users) && NonNegativeBalances(db.users)
    ensures UniqueUserIds(StepOne(db, r, action, faults, now).db.users)
    ensures NonNegativeBalances(StepOne(db, r, action, faults, now).db.users)
  {
    var u := db.users;
    if action == Approve && Reaches(faults, r.redeemID, 0) {
      match FindUser(u, r.userID)
      case None =>
      case Some(i) =>
        if u[i].pointsBalance >= r.pointsUsed {
          DebitStaysNonNegative(u, r.userID, r.pointsUsed, i);
        }
    }
  }

  lemma DebitStaysNonNegative(us: seq<User>, id: int, p: int, i: nat)
    requires UniqueUserIds(us) && NonNegativeBalances(us)
    requires i < |us| && us[i].userID == id && us[i].pointsBalance >= p
    ensures UniqueUserIds(DebitUser(us, id, p)) && NonNegativeBalances(DebitUser(us, id, p))
  {
    var d := DebitUser(us, id, p);
    forall k | 0 <= k < |us| ensures d[k].pointsBalance >= 0 {
      if us[k].userID == id {
        assert k == i;
      }
    }
  }

  /** A denial batch leaves every balance and the log as they were. */
  lemma {:induction false} FoldDenyKeepsLedger(t: Tally, sel: seq<Redemption>, faults: map<int, nat>, now: int)
    ensures Fold(t, sel, Deny, faults, now).db.users == t.db.users
    ensures Fold(t, sel, Deny, faults, now).db.log == t.db.log
    ensures Fold(t, sel, Deny, faults, now).db.nextTxID == t.db.nextTxID
  {
    if sel != [] {
      FoldDenyKeepsLedger(t, sel[..|sel| - 1], faults, now);
    }
  }

  /** An action other than "approve" or "deny" changes nothing and counts every item as
      processed. */
  lemma {:induction false} FoldOtherActionKeepsAll(t: Tally, sel: seq<Redemption>, faults: map<int, nat>, now: int)
    ensures Fold(t, sel, OtherAction, faults, now) == t.(processed := t.processed + |sel|)
  {
    if sel != [] {
      FoldOtherActionKeepsAll(t, sel[..|sel| - 1], faults, now);
    }
  }

  /** Without exceptions, every approval that is counted as processed logs exactly one row,
      and the processed items are the only ones that log. */
  lemma {:induction false} FoldApprovalsLogged(t: Tally, sel: seq<Redemption>, now: int)
    ensures |Fold(t, sel, Approve, map[], now).db.log| - |t.db.log|
         == Fold(t, sel, Approve, map[], now).processed - t.processed
    ensures t.db.log <= Fold(t, sel, Approve, map[], now).db.log
  {
    if sel != [] {
      FoldApprovalsLogged(t, sel[..|sel| - 1], now);
    }
  }

  /** An approval for the only customer of a one-row users table, with no exceptions. */
  lemma OneCustomerStep(t: Tally, r: Redemption, now: int)
    requires |t.db.users| == 1 && t.db.users[0].userID == r.userID
    ensures var t' := Step(t, r, Approve, map[], now);
      if t.db.users[0].pointsBalance >= r.pointsUsed then
        && t'.processed == t.processed + 1 && t'.failed == t.failed
        && t'.db.users == [t.db.users[0].(pointsBalance := t.db.users[0].pointsBalance - r.pointsUsed)]
        && |t'.db.log| == |t.db.log| + 1
        && t'.db.redemptions == SetRedeemStatus(t.db.redemptions, r.redeemID, Completed)
      else t' == t.(failed := t.failed + 1)
  {
    assert FindUser(t.db.users, r.userID) == Some(0);
    assert DebitUser(t.db.users, r.userID, r.pointsUsed)[0] == Debit(t.db.users[0], r.pointsUsed);
  }

  /** The batch in which one customer holding 100 points has three pending requests of 40
      points each: two are approved, the third fails, and 20 points remain. */
  lemma ThreeRequestsOneShort(u: User, now: int)
    requires u.pointsBalance == 100
    ensures var rs := [Redemption(1, u.userID, 7, 40, Pending, 0), Redemption(2, u.userID, 7, 40, Pending, 0),
                       Redemption(3, u.userID, 7, 40, Pending, 0)];
            var r := Fold(Tally(Ledger([u], rs, [], 1), 0, 0), rs, Approve, map[], now);
            && r.processed == 2 && r.failed == 1 && |r.db.log| == 2
            && r.db.users == [u.(pointsBalance := 20)]
            && |r.db.redemptions| == 3 && r.db.redemptions[2].redeemStatus == Pending
  {
    var rs := [Redemption(1, u.userID, 7, 40, Pending, 0), Redemption(2, u.userID, 7, 40, Pending, 0),
               Redemption(3, u.userID, 7, 40, Pending, 0)];
    var t0 := Tally(Ledger([u], rs, [], 1), 0, 0);
    assert rs[..1][..0] == [] && rs[..2][..1] == rs[..1] && rs[..3][..2] == rs[..2] && rs[..3] == rs;
    OneCustomerStep(t0, rs[0], now);
    var t1 := Step(t0, rs[0], Approve, map[], now);
    assert Fold(t0, rs[..1], Approve, map[], now) == t1;
    OneCustomerStep(t1, rs[1], now);
    var t2 := Step(t1, rs[1], Approve, map[], now);
    assert Fold(t0, rs[..2], Approve, map[], now) == t2;
    assert t2.db.redemptions[2] == rs[2];
    OneCustomerStep(t2, rs[2], now);
    assert Fold(t0, rs, Approve, map[], now) == t2.(failed := 1);
  }

  // ------------------------------------------------------------------
  // The loop itself and the summary message
  // ------------------------------------------------------------------

  /** The store facts a batch item leaves alone. */
  twostate predicate KeepsOthers(s: Store)
    reads s
  {
    && s.rewards == old(s.rewards)
    && s.nextUserID == old(s.nextUserID) && s.nextRewardID == old(s.nextRewardID)
    && s.nextRedeemID == old(s.nextRedeemID)
  }

  /** One more iteration of the loop extends the fold by one step. */
  lemma FoldStep(t: Tally, sel: seq<Redemption>, i: nat, action: Action, faults: map<int, nat>, now: int,
                 before: Ledger, after: Ledger, ok: bool, processed: nat, failed: nat)
    requires i < |sel|
    requires Fold(t, sel[..i], action, faults, now) == Tally(before, processed, failed)
    requires StepOne(before, sel[i], action, faults, now) == Outcome(after, ok)
    ensures Fold(t, sel[..i + 1], action, faults, now)
         == if ok then Tally(after, processed + 1, failed) else Tally(after, processed, failed + 1)
  {
    assert sel[..i + 1][..i] == sel[..i];
  }

  /** Queries 2, 3 and 4 of an approval. */
  method WriteApproval(s: Store, r: Redemption, faults: map<int, nat>, now: int) returns (ok: bool)
    requires s.Valid()
    modifies s
    ensures s.Valid() && KeepsOthers(s)
    ensures ApprovalWrites(old(LedgerOf(s)), r, faults, now) == Outcome(LedgerOf(s), ok)
  {
    ghost var db := LedgerOf(s);
    ok := false;
    if !Reaches(faults, r.redeemID, 2) {
      return;
    }
    s.SetRedemptions(SetRedeemStatus(s.redemptions, r.redeemID, Completed));
    if !Reaches(faults, r.redeemID, 3) {
      return;
    }
    s.SetUsers(DebitUser(s.users, r.userID, r.pointsUsed));
    ghost var db2 := LedgerOf(s);
    assert db2 == db.(redemptions := db2.redemptions, users := db2.users);
    if !Reaches(faults, r.redeemID, 4) {
      return;
    }
    var _ := s.LogTransaction(r.userID, 0, r.pointsUsed, now, None);
    assert LedgerOf(s) == db2.(log := db2.log + [TxRow(db.nextTxID, r.userID, 0, r.pointsUsed, now, None)], nextTxID := db.nextTxID + 1);
    ok := true;
  }

  /** The body of the loop for "approve". */
  method ApproveItem(s: Store, r: Redemption, faults: map<int, nat>, now: int) returns (ok: bool)
    requires s.Valid()
    modifies s
    ensures s.Valid() && KeepsOthers(s)
    ensures ApproveOne(old(LedgerOf(s)), r, faults, now) == Outcome(LedgerOf(s), ok)
  {
    ok := false;
    if !Reaches(faults, r.redeemID, 0) {
      return;
    }
    var found := FindUser(s.users, r.userID);
    if found.None? || s.users[found.value].pointsBalance < r.pointsUsed {
      return;
    }
    ok := WriteApproval(s, r, faults, now);
  }

  /** The body of the loop for "deny". */
  method DenyItem(s: Store, r: Redemption, faults: map<int, nat>) returns (ok: bool)
    requires s.Valid()
    modifies s
    ensures s.Valid() && KeepsOthers(s)
    ensures DenyOne(old(LedgerOf(s)), r, faults) == Outcome(LedgerOf(s), ok)
  {
    ok := false;
    if !Reaches(faults, r.redeemID, 0) {
      return;
    }
    s.SetRedemptions(SetRedeemStatus(s.redemptions, r.redeemID, Denied));
    ok := true;
  }

  /** The body of the loop for one item, whatever the action. */
  method ProcessItem(s: Store, r: Redemption, action: Action, faults: map<int, nat>, now: int) returns (ok: bool)
    requires s.Valid()
    modifies s
    ensures s.Valid() && KeepsOthers(s)
    ensures StepOne(old(LedgerOf(s)), r, action, faults, now) == Outcome(LedgerOf(s), ok)
  {
    ok := true;
    if action == Approve {
      ok := ApproveItem(s, r, faults, now);
    } else if action == Deny {
      ok := DenyItem(s, r, faults);
    }
  }

  /** One iteration of the loop: processes `sel[i]` and moves the counters on. */
  method BatchIteration(s: Store, ghost t0: Tally, sel: seq<Redemption>, i: nat, action: Action, faults: map<int, nat>, now: int,
                        processed: nat, failed: nat)
    returns (processed': nat, failed': nat)
    requires i < |sel| && s.Valid()
    requires Fold(t0, sel[..i], action, faults, now) == Tally(LedgerOf(s), processed, failed)
    modifies s
    ensures s.Valid() && KeepsOthers(s)
    ensures Fold(t0, sel[..i + 1], action, faults, now) == Tally(LedgerOf(s), processed', failed')
  {
    ghost var before := LedgerOf(s);
    var ok := ProcessItem(s, sel[i], action, faults, now);
    FoldStep(t0, sel, i, action, faults, now, before, LedgerOf(s), ok, processed, failed);
    if ok {
      processed', failed' := processed + 1, failed;
    } else {
      processed', failed' := processed, failed + 1;
    }
  }

  /** Runs the per-item loop over `sel` on the store and returns the two counters. */
  method RunBatch(s: Store, sel: seq<Redemption>, action: Action, faults: map<int, nat>, now: int)
    returns (processed: nat, failed: nat)
    requires s.Valid()
    modifies s
    ensures s.Valid() && KeepsOthers(s)
    ensures Tally(LedgerOf(s), processed, failed) == Fold(Tally(old(LedgerOf(s)), 0, 0), sel, action, faults, now)
  {
    ghost var t0 := Tally(LedgerOf(s), 0, 0);
    processed, failed := 0, 0;
    var i := 0;
    while i < |sel|
      invariant 0 <= i <= |sel|
      invariant s.Valid() && KeepsOthers(s)
      invariant Fold(t0, sel[..i], action, faults, now) == Tally(LedgerOf(s), processed, failed)
    {
      processed, failed := BatchIteration(s, t0, sel, i, action, faults, now, processed, failed);
      i := i + 1;
    }
    assert sel[..|sel|] == sel;
  }

  function ActionText(action: Action): string
  {
    if action == Approve then "approved" else "denied"
  }

  /** " redemptions successfully", then ", <n> failed" when some item failed. */
  function MessageTail(failed: nat): string
  {
    " redemptions successfully" + (if failed > 0 then ", " + NatToString(failed) + " failed" else "")
  }

  /** The `message` of the summary reply: the past tense of the action, a space, the
      processed count and the tail. */
  function BatchMessage(action: Action, processed: nat, failed: nat): string
  {
    ActionText(action) + " " + (NatToString(processed) + MessageTail(failed))
  }

  predicate EndsWith(s: string, suffix: string)
  {
    |suffix| <= |s| && s[|s| - |suffix|..] == suffix
  }

  /** The message starts with the action word and a space, and parseInt reads the processed
      count right after them. */
  lemma BatchMessageCount(action: Action, processed: nat, failed: nat)
    ensures var m := BatchMessage(action, processed, failed);
      && |ActionText(action)| + 1 <= |m|
      && m[..|ActionText(action)| + 1] == ActionText(action) + " "
      && ParseInt(m[|ActionText(action)| + 1..]) == Some(processed)
  {
    var w := ActionText(action) + " ";
    var rest := NatToString(processed) + MessageTail(failed);
    var m := w + rest;
    assert m[..|w|] == w && m[|w|..] == rest;
    assert MessageTail(failed)[0] == ' ';
    ParseIntOfIntToStringThen(processed, MessageTail(failed));
  }

  /** The message ends in " failed" exactly when some item failed. */
  lemma BatchMessageSuffix(action: Action, processed: nat, failed: nat)
    ensures EndsWith(BatchMessage(action, processed, failed), " failed") <==> failed > 0
  {
    var tail := MessageTail(failed);
    var rest := NatToString(processed) + tail;
    EndsWithRight(ActionText(action) + " ", rest, " failed");
    EndsWithRight(NatToString(processed), tail, " failed");
    if failed == 0 {
      assert tail[|tail| - 7] == 's';
    } else {
      EndsWithConcat(" redemptions successfully, " + NatToString(failed), " failed");
    }
  }

  /** Whether a text ends in a suffix depends only on a part at least as long at its end. */
  lemma EndsWithRight(x: string, y: string, suffix: string)
    requires |suffix| <= |y|
    ensures EndsWith(x + y, suffix) <==> EndsWith(y, suffix)
  {
    assert (x + y)[|x + y| - |suffix|..] == y[|y| - |suffix|..];
  }

  lemma EndsWithConcat(a: string, b: string)
    ensures EndsWith(a + b, b)
  {
    assert (a + b)[|a|..] == b;
  }

  // ------------------------------------------------------------------
  // The handler
  // ------------------------------------------------------------------

  /** Replies of the batch handlers. */
  datatype BatchReply =
    | BadRequest                 // 400 "Invalid request. Action and redemptionIds array are required."
    | NoPendingFound             // 200 "No pending redemptions found with the provided IDs", processedCount 0
    | Summary(message: string, processedCount: nat, failedCount: nat, totalProcessed: nat)   // 200
    | ServerError                // 500

  /** The part of both handlers after the selection query: "No pending redemptions found"
      for an empty selection, else the loop and its summary. */
  method ProcessSelection(s: Store, sel: seq<Redemption>, action: Action, faults: map<int, nat>, now: int)
    returns (reply: BatchReply)
    requires s.Valid()
    modifies s
    ensures s.Valid() && KeepsOthers(s)
    ensures sel == [] ==> reply == NoPendingFound && LedgerOf(s) == old(LedgerOf(s))
    ensures sel != [] ==>
              var t := Fold(Tally(old(LedgerOf(s)), 0, 0), sel, action, faults, now);
              && LedgerOf(s) == t.db
              && reply == Summary(BatchMessage(action, t.processed, t.failed), t.processed, t.failed, t.processed + t.failed)
  {
    if sel == [] {
      return NoPendingFound;
    }
    var processed, failed := RunBatch(s, sel, action, faults, now);
    reply := Summary(BatchMessage(action, processed, failed), processed, failed, processed + failed);
  }

  /** `processPendingRedemptions` (server/admin-controllers/homeProcessControllers.js) and the
      identical `processRedemptions` (server/controllers/staffController.js). `redemptionIds`
      is None when the body field is absent or not an array. An empty array renders as
      `IN ()`, which MySQL rejects, so the reply is the 500 of the outer catch. */
  method ProcessPendingRedemptions(s: Store, action: Option<string>, redemptionIds: Option<seq<int>>,
                                   faults: map<int, nat>, now: int)
    returns (reply: BatchReply)
    requires s.Valid()
    modifies s
    ensures s.Valid()
    ensures FalsyStr(action) || redemptionIds.None? ==> reply == BadRequest && LedgerOf(s) == old(LedgerOf(s))
    ensures !FalsyStr(action) && redemptionIds == Some([]) ==>
              reply == ServerError && LedgerOf(s) == old(LedgerOf(s))
    ensures !FalsyStr(action) && redemptionIds.Some? && redemptionIds.value != [] ==>
              var sel := SelectPending(old(s.redemptions), redemptionIds.value);
              if sel == [] then reply == NoPendingFound && LedgerOf(s) == old(LedgerOf(s))
              else
                var t := Fold(Tally(old(LedgerOf(s)), 0, 0), sel, ActionOf(action.value), faults, now);
                && LedgerOf(s) == t.db
                && reply == Summary(BatchMessage(ActionOf(action.value), t.processed, t.failed),
                                    t.processed, t.failed, t.processed + t.failed)
    ensures KeepsOthers(s)
  {
    if FalsyStr(action) || redemptionIds.None? {
      return BadRequest;
    }
    if redemptionIds.value == [] {
      return ServerError;
    }
    var sel := SelectPending(s.redemptions, redemptionIds.value);
    reply := ProcessSelection(s, sel, ActionOf(action.value), faults, now);
  }

  /** A summary always accounts for every selected row: totalProcessed is the number of
      pending rows among the requested ids. */
  lemma SummaryAccountsForSelection(rs: seq<Redemption>, ids: seq<int>, t0: Ledger, action: Action,
                                    faults: map<int, nat>, now: int)
    ensures var t := Fold(Tally(t0, 0, 0), SelectPending(rs, ids), action, faults, now);
            t.processed + t.failed == |SelectPending(rs, ids)|
  {
    FoldCounts(Tally(t0, 0, 0), SelectPending(rs, ids), action, faults, now);
  }
}
