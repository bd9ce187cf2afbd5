/** When a reversal goes through, and exactly what it does to the lots. */
module ReversalOutcomes {
  import opened Wrappers
  import opened LedgerTables
  import opened LotAllocation
  import opened Reversal
  import opened LedgerMachine

  // ----- reversing an earn

  /** Taking from one lot costs the balance that amount exactly where the lot counts. */
  lemma {:induction false} LowerBalance(lots: seq<CreditLot>, i: nat, amount: int, account: Account, at: int)
    requires i < |lots| && 0 <= amount <= lots[i].remaining
    ensures ActiveBalance(Lower(lots, i, amount), account, at)
         == ActiveBalance(lots, account, at) - if Eligible(lots[i], account, at, {}) then amount else 0
  {
    if i == 0 {
      assert Lower(lots, 0, amount)[1..] == lots[1..];
    } else {
      assert Lower(lots, i, amount)[1..] == Lower(lots[1..], i - 1, amount);
      LowerBalance(lots[1..], i - 1, amount, account, at);
    }
  }

  /** The exact-lot debit of a live lot that is large enough goes through and lowers that lot. */
  lemma ExactDebitHits(db: Db, i: nat, input: DebitInput)
    requires LotsConserved(db) && i < |db.lots| && ValidTarget(input)
    requires input.account == db.lots[i].account && input.amount <= db.lots[i].remaining && db.lots[i].expiresAt > input.now
    ensures AllocateDebitFromExactLot(db, db.lots[i].id, input).Ok?
    ensures AllocateDebitFromExactLot(db, db.lots[i].id, input).value.db.lots == Lower(db.lots, i, input.amount)
  {
    var lot := db.lots[i];
    assert lot in db.lots && ExactLotMatches(lot, lot.id, input);
    hide LotsConserved, Ordered, Plan, Persist, Decrement, ExactLotRows, AllocationRows;
    assert lot in ExactLotRows(db.lots, lot.id, input);
    LotsConservedOrdered(db);
    ExactPlan(db, lot.id, input);
    var item := PlannedAllocation(lot.id, input.amount, 1, ExactLotRows(db.lots, lot.id, input)[0].expiresAt);
    PersistOne(db.lots, item, input.account);
    DecrementHits(db.lots, i, input.amount);
    var k := DecrementEffect(db.lots, lot.id, input.account, input.amount);
    if k != i {
      IdsAreKeys(db.lots, i, k);
    }
  }

  lemma PersistOne(lots: seq<CreditLot>, item: PlannedAllocation, account: Account)
    ensures Persist(lots, [item], account) == Decrement(lots, item.lotId, account, item.amount)
  {
    hide Decrement;
    assert [item][1..] == [];
  }

  /** An EARN credit whose own lot is live and still full. */
  predicate ReversibleEarn(original: Entry, lot: CreditLot, now: int) {
    && original.kind == EARN && original.direction == CREDIT && lot.earnEntryId == original.id
    && lot.expiresAt > now && 0 < lot.original == lot.remaining
  }

  /**
   * An earn can be reversed exactly when it is an EARN credit, the lot is the one it created, and that lot is live and
   * untouched. Then exactly that lot is emptied, and its account's balance now falls by exactly its amount.
   */
  lemma ReverseCreditExactly(db: Db, original: Entry, lot: CreditLot, now: int)
    requires LotsConserved(db) && lot in db.lots
    ensures ReverseCredit(db, original, lot, now).Ok? <==> ReversibleEarn(original, lot, now)
    ensures ReverseCredit(db, original, lot, now).Ok? ==>
      var after := ReverseCredit(db, original, lot, now).value;
      && |after.lots| == |db.lots|
      && (forall i :: 0 <= i < |db.lots| ==>
            after.lots[i] == if db.lots[i] == lot then lot.(remaining := 0) else db.lots[i])
      && (forall account, at :: ActiveBalance(after.lots, account, at)
            == ActiveBalance(db.lots, account, at) - if account == lot.account && at < lot.expiresAt then lot.original else 0)
      && after.entries == db.entries + [Entry(db.nextId, lot.account, ADJUSTMENT, DEBIT, lot.original)]
      && |after.allocations| == |db.allocations| + 1
      && var row := after.allocations[|db.allocations|];
      && after.allocations == db.allocations + [row] && row.adjustmentId.Some? && row.adjustmentId.value > db.nextId
      && row == Allocation(row.id, db.nextId, None, row.adjustmentId, lot.id, lot.original, 1)
  {
    hide LotsConserved, AllocateDebitFromExactLot, ActiveBalance, Lower;
    var i :| 0 <= i < |db.lots| && db.lots[i] == lot;
    NonNegativeLots(db);
    var entry := Entry(db.nextId, lot.account, ADJUSTMENT, DEBIT, lot.original);
    var posted := db.(entries := db.entries + [entry], nextId := db.nextId + 2);
    var input := DebitInput(lot.account, db.nextId, lot.original, now, None, Some(db.nextId + 1), {});
    PostingKeepsLots(db, posted.entries, posted.nextId);
    ExactDebitNeedsTarget(posted, lot.id, input);
    if ReversibleEarn(original, lot, now) {
      ExactDebitHits(posted, i, input);
      ExactDebitEntries(posted, lot.id, input);
      EmptiedLot(db, i);
      forall account, at ensures ActiveBalance(Lower(db.lots, i, lot.original), account, at)
        == ActiveBalance(db.lots, account, at) - if account == lot.account && at < lot.expiresAt then lot.original else 0
      {
        LowerBalance(db.lots, i, lot.original, account, at);
      }
    }
  }

  /** Taking all of one lot changes that row alone. */
  lemma EmptiedLot(db: Db, i: nat)
    requires LotsConserved(db) && i < |db.lots|
    ensures var after := Lower(db.lots, i, db.lots[i].remaining);
      && |after| == |db.lots|
      && (forall k :: 0 <= k < |db.lots| ==>
            after[k] == if db.lots[k] == db.lots[i] then db.lots[i].(remaining := 0) else db.lots[k])
  {
    hide LotsConserved, Ordered;
    LotsConservedOrdered(db);
    forall k | 0 <= k < |db.lots| ensures db.lots[k] == db.lots[i] <==> k == i {
      if k != i {
        IdsAreKeys(db.lots, i, k);
      }
    }
  }

  lemma ExactDebitNeedsTarget(db: Db, lotId: nat, input: DebitInput)
    ensures AllocateDebitFromExactLot(db, lotId, input).Ok? ==> input.amount > 0
  {
  }

  /** The rows of an exact-lot debit: no entry of its own, and one allocation of the whole amount. */
  lemma ExactDebitEntries(db: Db, lotId: nat, input: DebitInput)
    requires LotsConserved(db) && AllocateDebitFromExactLot(db, lotId, input).Ok?
    ensures var after := AllocateDebitFromExactLot(db, lotId, input).value.db;
      && after.entries == db.entries
      && after.allocations == db.allocations
           + [Allocation(db.nextId, input.debitEntryId, input.redemptionId, input.adjustmentId, lotId, input.amount, 1)]
  {
    hide Persist, Plan, ExactLotRows, LotsConserved;
    ExactPlan(db, lotId, input);
  }

  // ----- reversing a redemption

  /** What an allocation took that nothing has put back. */
  function Owing(db: Db, a: Allocation): int { a.amount - Restored(db.restorations, a.id) }

  /** What an entry still owes to one lot, and in all. */
  function OwedTo(db: Db, allocations: seq<Allocation>, entryId: nat, lotId: nat): int {
    if allocations == [] then 0
    else (if allocations[0].debitEntryId == entryId && allocations[0].lotId == lotId then Owing(db, allocations[0]) else 0)
         + OwedTo(db, allocations[1..], entryId, lotId)
  }

  function OwedBy(db: Db, allocations: seq<Allocation>, entryId: nat): int {
    if allocations == [] then 0
    else (if allocations[0].debitEntryId == entryId then Owing(db, allocations[0]) else 0) + OwedBy(db, allocations[1..], entryId)
  }

  ghost predicate LiveLot(lots: seq<CreditLot>, lotId: nat, now: int) {
    exists i :: 0 <= i < |lots| && lots[i].id == lotId && lots[i].expiresAt > now
  }

  /** The allocation's lot is there and live, and no more was restored than was taken. */
  ghost predicate Sane(db: Db, a: Allocation, now: int) { LiveLot(db.lots, a.lotId, now) && Owing(db, a) >= 0 }

  /** Its lot is the account's own, if there is anything to put back. */
  ghost predicate Owned(db: Db, a: Allocation, account: Account) { Owing(db, a) > 0 ==> HasLot(db.lots, a.lotId, account) }

  ghost predicate AllSane(db: Db, allocations: seq<Allocation>, entryId: nat, now: int) {
    forall k :: 0 <= k < |allocations| && allocations[k].debitEntryId == entryId ==> Sane(db, allocations[k], now)
  }

  ghost predicate AllOwned(db: Db, allocations: seq<Allocation>, entryId: nat, account: Account) {
    forall k :: 0 <= k < |allocations| && allocations[k].debitEntryId == entryId ==> Owned(db, allocations[k], account)
  }

  predicate Owes(db: Db, a: Allocation, entryId: nat) { a.debitEntryId == entryId && Owing(db, a) > 0 }

  ghost predicate SomethingOwed(db: Db, allocations: seq<Allocation>, entryId: nat) {
    exists k :: 0 <= k < |allocations| && Owes(db, allocations[k], entryId)
  }

  ghost predicate ItemsOwned(lots: seq<CreditLot>, items: seq<PlannedRestoration>, account: Account) {
    forall j :: 0 <= j < |items| ==> HasLot(lots, items[j].lotId, account)
  }

  lemma FoundIsLive(lots: seq<CreditLot>, lotId: nat, now: int)
    requires Ordered(lots)
    ensures LiveLot(lots, lotId, now) <==> FindLot(lots, lotId).Some? && FindLot(lots, lotId).value.expiresAt > now
  {
    hide FindLot, Ordered;
    if LiveLot(lots, lotId, now) {
      var i :| 0 <= i < |lots| && lots[i].id == lotId && lots[i].expiresAt > now;
      FoundLot(lots, i);
    }
    if FindLot(lots, lotId).Some? {
      var i :| 0 <= i < |lots| && lots[i] == FindLot(lots, lotId).value;
    }
  }

  lemma SaneStep(db: Db, allocations: seq<Allocation>, entryId: nat, now: int)
    requires allocations != []
    ensures AllSane(db, allocations, entryId, now) <==>
      (allocations[0].debitEntryId == entryId ==> Sane(db, allocations[0], now)) && AllSane(db, allocations[1..], entryId, now)
  {
    hide Sane;
    var rest := allocations[1..];
    assert forall k :: 0 <= k < |rest| ==> rest[k] == allocations[k + 1];
    if AllSane(db, rest, entryId, now) && (allocations[0].debitEntryId == entryId ==> Sane(db, allocations[0], now)) {
      forall k | 0 <= k < |allocations| && allocations[k].debitEntryId == entryId ensures Sane(db, allocations[k], now) {
        if k > 0 {
          assert allocations[k] == rest[k - 1];
        }
      }
    }
  }

  lemma AllOwnedStep(db: Db, allocations: seq<Allocation>, entryId: nat, account: Account)
    requires allocations != []
    ensures AllOwned(db, allocations, entryId, account) <==>
      (allocations[0].debitEntryId == entryId ==> Owned(db, allocations[0], account))
      && AllOwned(db, allocations[1..], entryId, account)
  {
    hide Owned;
    var rest := allocations[1..];
    assert forall k :: 0 <= k < |rest| ==> rest[k] == allocations[k + 1];
    if AllOwned(db, rest, entryId, account) && (allocations[0].debitEntryId == entryId ==> Owned(db, allocations[0], account)) {
      forall k | 0 <= k < |allocations| && allocations[k].debitEntryId == entryId ensures Owned(db, allocations[k], account) {
        if k > 0 {
          assert allocations[k] == rest[k - 1];
        }
      }
    }
  }

  lemma OwedStep(db: Db, allocations: seq<Allocation>, entryId: nat)
    requires allocations != []
    ensures SomethingOwed(db, allocations, entryId) <==>
      Owes(db, allocations[0], entryId) || SomethingOwed(db, allocations[1..], entryId)
  {
    hide Owes;
    var rest := allocations[1..];
    if SomethingOwed(db, rest, entryId) {
      var k :| 0 <= k < |rest| && Owes(db, rest[k], entryId);
      assert allocations[k + 1] == rest[k];
    }
    if SomethingOwed(db, allocations, entryId) {
      var k :| 0 <= k < |allocations| && Owes(db, allocations[k], entryId);
      assert k > 0 ==> rest[k - 1] == allocations[k];
    }
  }

  lemma OwnedStep(lots: seq<CreditLot>, item: PlannedRestoration, rest: seq<PlannedRestoration>, account: Account)
    ensures ItemsOwned(lots, [item] + rest, account) <==> HasLot(lots, item.lotId, account) && ItemsOwned(lots, rest, account)
  {
    hide HasLot;
    var items := [item] + rest;
    if ItemsOwned(lots, items, account) {
      assert items[0] == item;
      forall j | 0 <= j < |rest| ensures HasLot(lots, rest[j].lotId, account) {
        assert items[j + 1] == rest[j];
      }
    }
    if HasLot(lots, item.lotId, account) && ItemsOwned(lots, rest, account) {
      forall j | 0 <= j < |items| ensures HasLot(lots, items[j].lotId, account) {
        assert j > 0 ==> items[j] == rest[j - 1];
      }
    }
  }

  /** The items of a plan are exactly what the entry still owes. */
  ghost predicate ItemsMatch(db: Db, items: seq<PlannedRestoration>, allocations: seq<Allocation>, entryId: nat, account: Account) {
    && (items != [] <==> SomethingOwed(db, allocations, entryId))
    && Amounts(items) == OwedBy(db, allocations, entryId)
    && (forall lotId :: GivenBack(items, lotId) == OwedTo(db, allocations, entryId, lotId))
    && (ItemsOwned(db.lots, items, account) <==> AllOwned(db, allocations, entryId, account))
  }

  lemma ItemsMatchStep(db: Db, rest: seq<PlannedRestoration>, allocations: seq<Allocation>, entryId: nat, account: Account, expiresAt: int)
    requires allocations != [] && ItemsMatch(db, rest, allocations[1..], entryId, account)
    requires allocations[0].debitEntryId == entryId ==> Owing(db, allocations[0]) >= 0
    ensures var a := allocations[0];
      var items := if Owes(db, a, entryId)
                   then [PlannedRestoration(a.id, a.lotId, Owing(db, a), expiresAt)] + rest else rest;
      ItemsMatch(db, items, allocations, entryId, account)
  {
    hide SomethingOwed, ItemsOwned, AllOwned, HasLot, Restored;
    var a := allocations[0];
    AllOwnedStep(db, allocations, entryId, account);
    OwedStep(db, allocations, entryId);
    if Owes(db, a, entryId) {
      var item := PlannedRestoration(a.id, a.lotId, Owing(db, a), expiresAt);
      var items := [item] + rest;
      assert items[1..] == rest;
      OwnedStep(db.lots, item, rest, account);
      forall lotId ensures GivenBack(items, lotId) == OwedTo(db, allocations, entryId, lotId) {
        assert GivenBack(rest, lotId) == OwedTo(db, allocations[1..], entryId, lotId);
      }
    } else {
      forall lotId ensures GivenBack(rest, lotId) == OwedTo(db, allocations, entryId, lotId) {
        assert GivenBack(rest, lotId) == OwedTo(db, allocations[1..], entryId, lotId);
      }
    }
  }

  lemma {:induction false} ItemsExactly(db: Db, allocations: seq<Allocation>, entryId: nat, now: int, account: Account)
    requires Ordered(db.lots)
    ensures RestorableItems(db, allocations, entryId, now).Ok? <==> AllSane(db, allocations, entryId, now)
    ensures RestorableItems(db, allocations, entryId, now).Ok? ==>
      ItemsMatch(db, RestorableItems(db, allocations, entryId, now).value, allocations, entryId, account)
  {
    if allocations != [] {
      var a := allocations[0];
      ItemsExactly(db, allocations[1..], entryId, now, account);
      SaneStep(db, allocations, entryId, now);
      FoundIsLive(db.lots, a.lotId, now);
      var tail := RestorableItems(db, allocations[1..], entryId, now);
      if tail.Ok? && (a.debitEntryId == entryId ==> Sane(db, a, now)) {
        var expiresAt := if FindLot(db.lots, a.lotId).Some? then FindLot(db.lots, a.lotId).value.expiresAt else 0;
        ItemsMatchStep(db, tail.value, allocations, entryId, account, expiresAt);
      }
      hide ItemsMatch, AllSane, LiveLot, FindLot, Restored, Ordered;
    } else {
      assert ItemsMatch(db, [], allocations, entryId, account);
    }
  }

  /** A plan can be applied exactly when every lot it names is the account's. */
  lemma {:induction false} ApplyExactly(db: Db, items: seq<PlannedRestoration>, account: Account, entryId: nat)
    ensures ApplyRestorations(db, items, account, entryId).Some? <==> ItemsOwned(db.lots, items, account)
    decreases items
  {
    if ItemsOwned(db.lots, items, account) {
      ApplySucceeds(db, items, account, entryId);
    }
    if ApplyRestorations(db, items, account, entryId).Some? && items != [] {
      var k := IncrementEffect(db.lots, items[0].lotId, account, items[0].amount);
      var next := db.(
        lots := Lower(db.lots, k, -items[0].amount),
        restorations := db.restorations + [Restoration(items[0].allocationId, entryId, items[0].amount)]);
      ApplyExactly(next, items[1..], account, entryId);
      assert HasLot(db.lots, items[0].lotId, account);
      forall j | 0 < j < |items| ensures HasLot(db.lots, items[j].lotId, account) {
        assert items[j] == items[1..][j - 1];
        HasLotAfter(next.lots, db.lots, items[j].lotId, account);
      }
    }
  }

  /** A REDEEM debit with something still owed, whose lots are there, live, the account's own and not over-restored. */
  ghost predicate ReversibleRedemption(db: Db, original: Entry, now: int) {
    && original.kind == REDEEM && original.direction == DEBIT
    && SomethingOwed(db, db.allocations, original.id)
    && AllSane(db, db.allocations, original.id, now)
    && AllOwned(db, db.allocations, original.id, original.account)
  }

  /**
   * A redemption can be reversed exactly when it is reversible; then each lot gets back exactly what the redemption
   * still owed it, and one REVERSAL credit of the total is posted.
   */
  lemma ReverseRedemptionExactly(db: Db, original: Entry, now: int)
    requires Ordered(db.lots)
    ensures ReverseRedemption(db, original, now).Ok? <==> ReversibleRedemption(db, original, now)
    ensures ReverseRedemption(db, original, now).Ok? ==>
      var after := ReverseRedemption(db, original, now).value;
      && SameRows(db.lots, after.lots)
      && (forall i :: 0 <= i < |db.lots| ==>
            after.lots[i].remaining == db.lots[i].remaining + OwedTo(db, db.allocations, original.id, db.lots[i].id))
      && after.entries == db.entries
           + [Entry(db.nextId, original.account, REVERSAL, CREDIT, OwedBy(db, db.allocations, original.id))]
      && after.allocations == db.allocations && after.expiries == db.expiries
  {
    hide RestorableItems, ApplyRestorations, AllSane, AllOwned, SomethingOwed, ItemsOwned, Ordered, OwedTo, OwedBy, SameRows,
         Amounts, GivenBack, Restored;
    ItemsExactly(db, db.allocations, original.id, now, original.account);
    var planned := RestorableItems(db, db.allocations, original.id, now);
    if planned.Ok? {
      var items := planned.value;
      var entry := Entry(db.nextId, original.account, REVERSAL, CREDIT, Amounts(items));
      var posted := db.(entries := db.entries + [entry], nextId := db.nextId + 1);
      ApplyExactly(posted, items, original.account, db.nextId);
      if ApplyRestorations(posted, items, original.account, db.nextId).Some? {
        ApplyEffect(posted, items, original.account, db.nextId);
      }
    }
  }
}
