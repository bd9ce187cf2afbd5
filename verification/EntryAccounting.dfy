/** What each ledger entry stands for: over every run its amount is accounted for by the rows that name it. */
module EntryAccounting {
  import opened Wrappers
  import opened LedgerTables
  import opened LotAllocation
  import opened Reversal
  import opened LedgerOperations
  import opened LedgerMachine
  import CreditExpiry

  // ----- the rows that name an entry

  /** The lots an entry created, at their original amounts. */
  function Created(lots: seq<CreditLot>, id: nat): int {
    if lots == [] then 0 else (if lots[0].earnEntryId == id then lots[0].original else 0) + Created(lots[1..], id)
  }

  function AllocatedBy(allocations: seq<Allocation>, id: nat): int {
    if allocations == [] then 0
    else
      var last := allocations[|allocations| - 1];
      AllocatedBy(allocations[..|allocations| - 1], id) + if last.debitEntryId == id then last.amount else 0
  }

  function RestoredBy(restorations: seq<Restoration>, id: nat): int {
    if restorations == [] then 0
    else
      var last := restorations[|restorations| - 1];
      RestoredBy(restorations[..|restorations| - 1], id) + if last.reversalEntryId == id then last.amount else 0
  }

  function ExpiredBy(expiries: seq<Expiry>, id: nat): int {
    if expiries == [] then 0
    else
      var last := expiries[|expiries| - 1];
      ExpiredBy(expiries[..|expiries| - 1], id) + if last.entryId == id then last.amount else 0
  }

  /** A credit is what it put into new lots and back into old ones; a debit is what it took out and what it let expire. */
  function Explanation(db: Db, id: nat, direction: Direction): int {
    if direction == CREDIT then Created(db.lots, id) + RestoredBy(db.restorations, id)
    else AllocatedBy(db.allocations, id) + ExpiredBy(db.expiries, id)
  }

  /** Rows name entries that have been posted. */
  ghost predicate Linked(db: Db) {
    && (forall i :: 0 <= i < |db.entries| ==> db.entries[i].id < db.nextId)
    && (forall i :: 0 <= i < |db.lots| ==> db.lots[i].earnEntryId < db.nextId)
    && (forall i :: 0 <= i < |db.allocations| ==> db.allocations[i].debitEntryId < db.nextId)
    && (forall i :: 0 <= i < |db.restorations| ==> db.restorations[i].reversalEntryId < db.nextId)
    && (forall i :: 0 <= i < |db.expiries| ==> db.expiries[i].entryId < db.nextId)
  }

  ghost predicate Explained(db: Db) {
    Linked(db) && forall i :: 0 <= i < |db.entries| ==>
      db.entries[i].amount == Explanation(db, db.entries[i].id, db.entries[i].direction)
  }

  // ----- how the sums move

  lemma {:induction false} CreatedSameRows(before: seq<CreditLot>, after: seq<CreditLot>, id: nat)
    requires SameRows(before, after)
    ensures Created(after, id) == Created(before, id)
  {
    if before != [] {
      CreatedSameRows(before[1..], after[1..], id);
    }
  }

  lemma {:induction false} CreatedInsert(lots: seq<CreditLot>, lot: CreditLot, id: nat)
    ensures Created(Insert(lots, lot), id) == Created(lots, id) + if lot.earnEntryId == id then lot.original else 0
  {
    if lots == [] || Before(lot, lots[0]) {
      assert ([lot] + lots)[1..] == lots;
    } else {
      assert ([lots[0]] + Insert(lots[1..], lot))[1..] == Insert(lots[1..], lot);
      CreatedInsert(lots[1..], lot, id);
    }
  }

  lemma {:induction false} CreatedNothing(lots: seq<CreditLot>, id: nat)
    requires forall i :: 0 <= i < |lots| ==> lots[i].earnEntryId != id
    ensures Created(lots, id) == 0
  {
    if lots != [] {
      CreatedNothing(lots[1..], id);
    }
  }

  lemma {:induction false} AllocatedNothing(allocations: seq<Allocation>, id: nat)
    requires forall i :: 0 <= i < |allocations| ==> allocations[i].debitEntryId != id
    ensures AllocatedBy(allocations, id) == 0
  {
    if allocations != [] {
      AllocatedNothing(allocations[..|allocations| - 1], id);
    }
  }

  lemma {:induction false} RestoredNothing(restorations: seq<Restoration>, id: nat)
    requires forall i :: 0 <= i < |restorations| ==> restorations[i].reversalEntryId != id
    ensures RestoredBy(restorations, id) == 0
  {
    if restorations != [] {
      RestoredNothing(restorations[..|restorations| - 1], id);
    }
  }

  lemma {:induction false} ExpiredNothing(expiries: seq<Expiry>, id: nat)
    requires forall i :: 0 <= i < |expiries| ==> expiries[i].entryId != id
    ensures ExpiredBy(expiries, id) == 0
  {
    if expiries != [] {
      ExpiredNothing(expiries[..|expiries| - 1], id);
    }
  }

  /** An entry that has not been posted explains nothing yet. */
  lemma NothingYet(db: Db, id: nat)
    requires Linked(db) && id >= db.nextId
    ensures Explanation(db, id, CREDIT) == 0 && Explanation(db, id, DEBIT) == 0
  {
    CreatedNothing(db.lots, id);
    AllocatedNothing(db.allocations, id);
    RestoredNothing(db.restorations, id);
    ExpiredNothing(db.expiries, id);
  }

  lemma {:induction false} AllocatedAdded(allocations: seq<Allocation>, added: seq<Allocation>, plan: seq<PlannedAllocation>, id: nat, entryId: nat)
    requires |added| == |plan|
    requires forall k :: 0 <= k < |added| ==> added[k].debitEntryId == entryId && added[k].amount == plan[k].amount
    ensures AllocatedBy(allocations + added, id)
         == AllocatedBy(allocations, id) + if id == entryId then PlanTotal(plan) else 0
    decreases added
  {
    if added == [] {
      assert allocations + added == allocations;
    } else {
      var first := allocations + [added[0]];
      assert allocations + added == first + added[1..];
      assert first[..|allocations|] == allocations;
      AllocatedAdded(first, added[1..], plan[1..], id, entryId);
    }
  }

  lemma {:induction false} RestoredAdded(db: Db, items: seq<PlannedRestoration>, account: Account, entryId: nat, id: nat)
    requires ApplyRestorations(db, items, account, entryId).Some?
    ensures var after := ApplyRestorations(db, items, account, entryId).value;
      && RestoredBy(after.restorations, id) == RestoredBy(db.restorations, id) + (if id == entryId then Amounts(items) else 0)
      && |after.restorations| >= |db.restorations|
      && (forall k :: 0 <= k < |db.restorations| ==> after.restorations[k] == db.restorations[k])
      && (forall k :: |db.restorations| <= k < |after.restorations| ==> after.restorations[k].reversalEntryId == entryId)
    decreases items
  {
    if items != [] {
      var r := Restoration(items[0].allocationId, entryId, items[0].amount);
      var next := db.(
        lots := Increment(db.lots, items[0].lotId, account, items[0].amount).value,
        restorations := db.restorations + [r]);
      assert next.restorations[..|db.restorations|] == db.restorations;
      RestoredAdded(next, items[1..], account, entryId, id);
    }
  }

  // ----- one posted entry

  /** A transaction that posts one fresh entry, explains it, and leaves every other entry's explanation alone. */
  lemma PostedExplained(db: Db, after: Db, e: Entry)
    requires Explained(db) && Linked(after)
    requires e.id == db.nextId && after.entries == db.entries + [e]
    requires e.amount == Explanation(after, e.id, e.direction)
    requires forall id, d :: id != e.id ==> Explanation(after, id, d) == Explanation(db, id, d)
    ensures Explained(after)
  {
    hide Explanation;
  }

  lemma CreditExplained(db: Db, e: Entry, lot: CreditLot, nextId: nat)
    requires Explained(db) && e.id == db.nextId < nextId && e.direction == CREDIT
    requires lot.earnEntryId == e.id && lot.original == e.amount
    ensures Explained(db.(entries := db.entries + [e], lots := Insert(db.lots, lot), nextId := nextId))
  {
    var after := db.(entries := db.entries + [e], lots := Insert(db.lots, lot), nextId := nextId);
    forall i | 0 <= i < |after.lots| ensures after.lots[i].earnEntryId < nextId {
      assert after.lots[i] in after.lots;
    }
    NothingYet(db, e.id);
    forall id, d ensures Explanation(after, id, d)
      == Explanation(db, id, d) + if id == e.id && d == CREDIT then e.amount else 0
    {
      CreatedInsert(db.lots, lot, id);
    }
    PostedExplained(db, after, e);
  }

  lemma DebitExplained(db: Db, after: Db, e: Entry, plan: seq<PlannedAllocation>, input: DebitInput, firstId: nat)
    requires Explained(db) && e.id == db.nextId < after.nextId && e.direction == DEBIT
    requires input.debitEntryId == e.id && PlanTotal(plan) == e.amount
    requires SameRows(db.lots, after.lots)
    requires after == db.(
      entries := db.entries + [e], lots := after.lots, allocations := db.allocations + AllocationRows(plan, input, firstId),
      nextId := after.nextId)
    ensures Explained(after)
  {
    NothingYet(db, e.id);
    forall id, d ensures Explanation(after, id, d)
      == Explanation(db, id, d) + if id == e.id && d == DEBIT then e.amount else 0
    {
      CreatedSameRows(db.lots, after.lots, id);
      AllocatedAdded(db.allocations, AllocationRows(plan, input, firstId), plan, id, e.id);
    }
    PostedExplained(db, after, e);
  }

  // ----- each transaction

  lemma PlannedDebitExplained(db: Db, e: Entry, reserved: nat, input: DebitInput)
    requires LotsConserved(db) && Explained(db) && e.id == db.nextId && e.direction == DEBIT && reserved > 0
    requires input.debitEntryId == e.id && input.amount == e.amount
    requires AllocateDebit(db.(entries := db.entries + [e], nextId := db.nextId + reserved), input).Ok?
    ensures Explained(AllocateDebit(db.(entries := db.entries + [e], nextId := db.nextId + reserved), input).value.db)
  {
    var posted := db.(entries := db.entries + [e], nextId := db.nextId + reserved);
    DebitRows(posted, input);
    var out := AllocateDebit(posted, input).value;
    NonNegativeLots(db);
    PersistEffect(db.lots, out.plan, input.account);
    PlanShape(EligibleLots(db.lots, input.account, input.now, input.excluded), input.amount, 1);
    DebitExplained(db, out.db, e, out.plan, input, posted.nextId);
  }

  /** An exact-lot debit changes its lot and adds one allocation row of the whole amount. */
  lemma ExactDebitRows(db: Db, lotId: nat, input: DebitInput)
    requires LotsConserved(db) && AllocateDebitFromExactLot(db, lotId, input).Ok?
    ensures var out := AllocateDebitFromExactLot(db, lotId, input).value;
      && PlanTotal(out.plan) == input.amount && SameRows(db.lots, out.db.lots)
      && out.db == db.(
           lots := out.db.lots, allocations := db.allocations + AllocationRows(out.plan, input, db.nextId),
           nextId := db.nextId + |out.plan|)
  {
    hide LotsConserved, Persist, Plan;
    ExactPlan(db, lotId, input);
    LotsConservedOrdered(db);
    NonNegativeLots(db);
    var plan := Plan([ExactLotRows(db.lots, lotId, input)[0]], input.amount, 1);
    PersistEffect(db.lots, plan, input.account);
    assert plan[1..] == [];
  }

  lemma ReverseCreditExplained(db: Db, original: Entry, lot: CreditLot, now: int)
    requires LotsConserved(db) && Explained(db) && ReverseCredit(db, original, lot, now).Ok?
    ensures Explained(ReverseCredit(db, original, lot, now).value)
  {
    hide LotsConserved, Explained, AllocateDebitFromExactLot, PlanTotal, SameRows;
    var e := Entry(db.nextId, lot.account, ADJUSTMENT, DEBIT, lot.original);
    var posted := db.(entries := db.entries + [e], nextId := db.nextId + 2);
    var input := DebitInput(lot.account, db.nextId, lot.original, now, None, Some(db.nextId + 1), {});
    PostingKeepsLots(db, posted.entries, posted.nextId);
    ExactDebitRows(posted, lot.id, input);
    var out := AllocateDebitFromExactLot(posted, lot.id, input).value;
    DebitExplained(db, out.db, e, out.plan, input, posted.nextId);
  }

  lemma ReverseRedemptionExplained(db: Db, original: Entry, now: int)
    requires LotsConserved(db) && Explained(db) && ReverseRedemption(db, original, now).Ok?
    ensures Explained(ReverseRedemption(db, original, now).value)
  {
    var items := PlanRestorations(db, original.id, now).value;
    var e := Entry(db.nextId, original.account, REVERSAL, CREDIT, Amounts(items));
    var posted := db.(entries := db.entries + [e], nextId := db.nextId + 1);
    var after := ReverseRedemption(db, original, now).value;
    ApplyEffect(posted, items, original.account, e.id);
    NothingYet(db, e.id);
    forall id, d ensures Explanation(after, id, d)
      == Explanation(db, id, d) + if id == e.id && d == CREDIT then e.amount else 0
    {
      CreatedSameRows(db.lots, after.lots, id);
      RestoredAdded(posted, items, original.account, e.id, id);
    }
    RestoredAdded(posted, items, original.account, e.id, e.id);
    PostedExplained(db, after, e);
  }

  lemma ExpiryExplained(db: Db, row: CreditLot)
    requires Ordered(db.lots) && Explained(db) && row in db.lots
    ensures CreditExpiry.ExpireRow(db, row).Some? && Explained(CreditExpiry.ExpireRow(db, row).value)
  {
    var k := CreditExpiry.ExpireRowEffect(db, row);
    var after := CreditExpiry.ExpireRow(db, row).value;
    var e := Entry(db.nextId, row.account, EXPIRY, DEBIT, row.remaining);
    NothingYet(db, e.id);
    assert after.expiries[..|db.expiries|] == db.expiries;
    forall id, d ensures Explanation(after, id, d)
      == Explanation(db, id, d) + if id == e.id && d == DEBIT then e.amount else 0
    {
      CreatedSameRows(db.lots, after.lots, id);
    }
    PostedExplained(db, after, e);
  }

  lemma {:induction false} ExpiriesExplained(db: Db, rows: seq<CreditLot>, now: int)
    requires Explained(db) && CreditExpiry.RowsOf(db.lots, rows, now)
    ensures CreditExpiry.ExpireRows(db, rows).Some? && Explained(CreditExpiry.ExpireRows(db, rows).value)
    decreases rows
  {
    if rows != [] {
      var i := CreditExpiry.ExpireRowEffect(db, rows[0]);
      CreditExpiry.RowsOfStep(db.lots, rows, now, i);
      ExpiryExplained(db, rows[0]);
      ExpiriesExplained(CreditExpiry.ExpireRow(db, rows[0]).value, rows[1..], now);
    }
  }

  lemma SettleExplained(db: Db, input: SettlementInput, expiresAt: int)
    requires LotsConserved(db) && Explained(db) && SettleWithExpiry(db, input, expiresAt).Ok?
    ensures Explained(SettleWithExpiry(db, input, expiresAt).value.db)
  {
    hide Explained, LotsConserved, AllocateDebit, EarnAmount, Insert, ActiveBalance, PlanTotal;
    var e := Entry(db.nextId, input.account, REDEEM, DEBIT, input.redeemed);
    PlannedDebitExplained(db, e, 1,
      DebitInput(input.account, db.nextId, input.redeemed, input.now, Some(input.redemptionId), None, {}));
    var redeemed := Redeem(db, input).value.db;
    var earned := EarnAmount(input.basket - input.redeemed, input.earnRateBps).value;
    if earned > 0 {
      CreditExplained(redeemed, Entry(redeemed.nextId, input.account, EARN, CREDIT, earned),
        CreditLot(redeemed.nextId + 1, input.account, redeemed.nextId, earned, earned, input.occurredAt, expiresAt),
        redeemed.nextId + 2);
    }
  }

  // ----- runs

  lemma CreditAdjustmentExplained(db: Db, account: Account, amount: int, effectiveAt: int, expiresAt: int)
    requires Explained(db) && CreditAdjustment(db, account, amount, effectiveAt, expiresAt).Ok?
    ensures Explained(CreditAdjustment(db, account, amount, effectiveAt, expiresAt).value)
  {
    hide Explained, Insert;
    CreditExplained(db, Entry(db.nextId, account, ADJUSTMENT, CREDIT, amount),
      CreditLot(db.nextId + 2, account, db.nextId, amount, amount, effectiveAt, expiresAt), db.nextId + 3);
  }

  lemma DebitAdjustmentExplained(db: Db, account: Account, amount: int, now: int)
    requires LotsConserved(db) && Explained(db) && DebitAdjustment(db, account, amount, now).Ok?
    ensures Explained(DebitAdjustment(db, account, amount, now).value)
  {
    hide Explained, LotsConserved, AllocateDebit;
    PlannedDebitExplained(db, Entry(db.nextId, account, ADJUSTMENT, DEBIT, amount), 2,
      DebitInput(account, db.nextId, amount, now, None, Some(db.nextId + 1), {}));
  }

  lemma SweepExplained(db: Db, now: int, batchSize: int, locked: set<nat>)
    requires Ordered(db.lots) && Explained(db) && CreditExpiry.Sweep(db, now, batchSize, locked).Ok?
    ensures Explained(CreditExpiry.Sweep(db, now, batchSize, locked).value.db)
  {
    hide Explained, CreditExpiry.ExpireRows, CreditExpiry.DueLots, Ordered;
    CreditExpiry.DueLotsDistinct(db.lots, now, locked, batchSize);
    ExpiriesExplained(db, CreditExpiry.DueLots(db.lots, now, locked, batchSize), now);
  }

  lemma StepKeepsExplained(m: Machine, op: Operation)
    requires Sound(m) && Explained(m.db)
    ensures Explained(Step(m, op).db)
  {
    hide Explained, LotsConserved, AccountConserved, ExpiredOnce, Ordered, CreditAdjustment, DebitAdjustment,
         SettleWithExpiry, CreditExpiry.Sweep, ReverseRedemption, ReverseCredit;
    var db := m.db;
    LotsConservedOrdered(db);
    match op
    case Advance(_) =>
    case Credit(account, amount, effectiveAt, expiresAt) =>
      if CreditAdjustment(db, account, amount, effectiveAt, expiresAt).Ok? {
        CreditAdjustmentExplained(db, account, amount, effectiveAt, expiresAt);
      }
    case Debit(account, amount) =>
      if DebitAdjustment(db, account, amount, m.now).Ok? {
        DebitAdjustmentExplained(db, account, amount, m.now);
      }
    case SettleRedemption(account, redemptionId, basket, redeemed, occurredAt, rate, expiresAt) =>
      var input := SettlementInput(account, redemptionId, basket, redeemed, occurredAt, m.now, rate);
      if SettleWithExpiry(db, input, expiresAt).Ok? {
        SettleExplained(db, input, expiresAt);
      }
    case ExpirySweep(batchSize, locked) =>
      if CreditExpiry.Sweep(db, m.now, batchSize, locked).Ok? {
        SweepExplained(db, m.now, batchSize, locked);
      }
    case ReverseRedeem(original) =>
      if original in db.entries && ReverseRedemption(db, original, m.now).Ok? {
        ReverseRedemptionExplained(db, original, m.now);
      }
    case ReverseEarned(original, lot) =>
      if original in db.entries && lot in db.lots && ReverseCredit(db, original, lot, m.now).Ok? {
        ReverseCreditExplained(db, original, lot, m.now);
      }
  }

  lemma {:induction false} RunKeepsExplained(m: Machine, ops: seq<Operation>)
    requires Sound(m) && Explained(m.db)
    ensures Explained(Run(m, ops).db)
    decreases ops
  {
    hide Explained, Sound, Step;
    if ops != [] {
      StepKeepsSound(m, ops[0]);
      StepKeepsExplained(m, ops[0]);
      RunKeepsExplained(Step(m, ops[0]), ops[1..]);
    }
  }

  /**
   * Double entry. After any run from an empty ledger every credit entry's amount is exactly the original amounts of the
   * lots it created plus what it restored, and every debit entry's exactly its allocations plus its expiries.
   */
  lemma EntriesExplainedOverRuns(start: int, ops: seq<Operation>)
    ensures var db := Run(Machine(EMPTY_DB, start), ops).db;
      forall i :: 0 <= i < |db.entries| ==>
        db.entries[i].amount ==
          if db.entries[i].direction == CREDIT
          then Created(db.lots, db.entries[i].id) + RestoredBy(db.restorations, db.entries[i].id)
          else AllocatedBy(db.allocations, db.entries[i].id) + ExpiredBy(db.expiries, db.entries[i].id)
  {
    var m := Machine(EMPTY_DB, start);
    assert Sound(m) by {
      forall account ensures AccountConserved(m.db, account) { }
    }
    RunKeepsExplained(m, ops);
  }
}
