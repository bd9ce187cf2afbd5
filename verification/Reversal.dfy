/** Putting a debit's allocations back: `planRestorations` and the step that applies the plan. */
module Reversal {
  import opened Wrappers
  import opened LedgerTables
  import opened LotAllocation

  datatype PlannedRestoration = PlannedRestoration(allocationId: nat, lotId: nat, amount: int, expiresAt: int)

  function FindLot(lots: seq<CreditLot>, lotId: nat): (r: Option<CreditLot>)
    ensures r.Some? ==> r.value in lots && r.value.id == lotId
    ensures r.None? ==> forall l :: l in lots ==> l.id != lotId
  {
    if lots == [] then None
    else if lots[0].id == lotId then Some(lots[0])
    else
      assert lots == [lots[0]] + lots[1..];
      FindLot(lots[1..], lotId)
  }

  function Amounts(items: seq<PlannedRestoration>): int {
    if items == [] then 0 else items[0].amount + Amounts(items[1..])
  }

  /** What a restoration plan gives back to one lot, and under one allocation. */
  function GivenBack(items: seq<PlannedRestoration>, lotId: nat): int {
    if items == [] then 0
    else (if items[0].lotId == lotId then items[0].amount else 0) + GivenBack(items[1..], lotId)
  }

  /**
   * The mapped and filtered allocation rows of one debit entry. Rows are appended in allocation
   * order, so table order is `allocationOrder` order. An allocation always has its lot.
   */
  function RestorableItems(db: Db, allocations: seq<Allocation>, debitEntryId: nat, now: int): Result<seq<PlannedRestoration>> {
    if allocations == [] then Ok([])
    else if allocations[0].debitEntryId != debitEntryId then
      RestorableItems(db, allocations[1..], debitEntryId, now)
    else
      var lot := FindLot(db.lots, allocations[0].lotId);
      var amount := allocations[0].amount - Restored(db.restorations, allocations[0].id);
      if lot.None? || lot.value.expiresAt <= now || amount < 0 then Err(ReviewRequired)
      else
        match RestorableItems(db, allocations[1..], debitEntryId, now)
        case Err(e) => Err(e)
        case Ok(rest) =>
          if amount > 0 then
            Ok([PlannedRestoration(allocations[0].id, allocations[0].lotId, amount, lot.value.expiresAt)] + rest)
          else Ok(rest)
  }

  /** `planRestorations`. */
  function PlanRestorations(db: Db, debitEntryId: nat, now: int): Result<seq<PlannedRestoration>> {
    match RestorableItems(db, db.allocations, debitEntryId, now)
    case Err(e) => Err(e)
    case Ok(items) => if items == [] then Err(ReviewRequired) else Ok(items)
  }

  /** The `updateMany` increment of the reversal; `None` is a count of zero. */
  function Increment(lots: seq<CreditLot>, lotId: nat, account: Account, amount: int): Option<seq<CreditLot>> {
    if lots == [] then None
    else if lots[0].id == lotId && lots[0].account == account then
      Some([lots[0].(remaining := lots[0].remaining + amount)] + lots[1..])
    else
      match Increment(lots[1..], lotId, account, amount)
      case None => None
      case Some(rest) => Some([lots[0]] + rest)
  }

  /** Apply a plan: raise each lot and record one restoration row. */
  function ApplyRestorations(db: Db, items: seq<PlannedRestoration>, account: Account, reversalEntryId: nat): Option<Db>
    decreases items
  {
    if items == [] then Some(db)
    else
      match Increment(db.lots, items[0].lotId, account, items[0].amount)
      case None => None
      case Some(lots) =>
        ApplyRestorations(
          db.(lots := lots,
              restorations := db.restorations + [Restoration(items[0].allocationId, reversalEntryId, items[0].amount)]),
          items[1..], account, reversalEntryId)
  }

  /** Reversal of a redemption: one REVERSAL credit for the plan's total, then the plan. */
  function ReverseRedemption(db: Db, original: Entry, now: int): Result<Db> {
    if original.kind != REDEEM || original.direction != DEBIT then Err(ReviewRequired)
    else
      match PlanRestorations(db, original.id, now)
      case Err(e) => Err(e)
      case Ok(items) =>
        var posted := db.(
          entries := db.entries + [Entry(db.nextId, original.account, REVERSAL, CREDIT, Amounts(items))],
          nextId := db.nextId + 1);
        match ApplyRestorations(posted, items, original.account, db.nextId)
        case None => Err(ReviewRequired)
        case Some(after) => Ok(after)
  }

  /** Reversal of an untouched EARN credit: a DEBIT that takes the whole of that credit's own lot. */
  function ReverseCredit(db: Db, original: Entry, lot: CreditLot, now: int): Result<Db> {
    if original.kind != EARN || original.direction != CREDIT || lot.earnEntryId != original.id then Err(ReviewRequired)
    else if lot.expiresAt <= now || lot.remaining != lot.original then Err(ReviewRequired)
    else
      var posted := db.(
        entries := db.entries + [Entry(db.nextId, lot.account, ADJUSTMENT, DEBIT, lot.original)],
        nextId := db.nextId + 2);
      match AllocateDebitFromExactLot(posted, lot.id,
              DebitInput(lot.account, db.nextId, lot.original, now, None, Some(db.nextId + 1), {}))
      case Err(e) => Err(e)
      case Ok(out) => Ok(out.db)
  }

  // ----- the increment

  lemma {:induction false} IncrementEffect(lots: seq<CreditLot>, lotId: nat, account: Account, amount: int) returns (i: nat)
    requires Increment(lots, lotId, account, amount).Some?
    ensures i < |lots| && lots[i].id == lotId && lots[i].account == account
    ensures Increment(lots, lotId, account, amount).value == Lower(lots, i, -amount)
  {
    if lots[0].id == lotId && lots[0].account == account {
      i := 0;
    } else {
      var k := IncrementEffect(lots[1..], lotId, account, amount);
      i := k + 1;
    }
  }

  lemma {:induction false} IncrementHits(lots: seq<CreditLot>, i: nat, amount: int)
    requires i < |lots|
    ensures Increment(lots, lots[i].id, lots[i].account, amount).Some?
  {
    if i > 0 {
      IncrementHits(lots[1..], i - 1, amount);
    }
  }

  /** An applied plan raises each lot by what the plan gives it, and the account by the plan's total. */
  lemma {:induction false} ApplyEffect(db: Db, items: seq<PlannedRestoration>, account: Account, entryId: nat)
    requires Ordered(db.lots)
    requires ApplyRestorations(db, items, account, entryId).Some?
    ensures var after := ApplyRestorations(db, items, account, entryId).value;
      && SameRows(db.lots, after.lots) && Ordered(after.lots)
      && after == db.(lots := after.lots, restorations := after.restorations)
      && (forall i :: 0 <= i < |db.lots| ==>
            after.lots[i].remaining == db.lots[i].remaining + GivenBack(items, db.lots[i].id))
    decreases items
  {
    if items != [] {
      var k := IncrementEffect(db.lots, items[0].lotId, account, items[0].amount);
      var lots := Lower(db.lots, k, -items[0].amount);
      SameRowsKeepsOrder(db.lots, lots);
      var next := db.(
        lots := lots,
        restorations := db.restorations + [Restoration(items[0].allocationId, entryId, items[0].amount)]);
      ApplyEffect(next, items[1..], account, entryId);
      forall i | 0 <= i < |db.lots| && i != k ensures db.lots[i].id != items[0].lotId {
        if i < k { assert db.lots[i].id != db.lots[k].id; } else { assert db.lots[k].id != db.lots[i].id; }
      }
    }
  }

  lemma {:induction false} ApplyHolding(db: Db, items: seq<PlannedRestoration>, account: Account, entryId: nat, a: Account)
    requires ApplyRestorations(db, items, account, entryId).Some?
    ensures Holding(ApplyRestorations(db, items, account, entryId).value.lots, a)
         == Holding(db.lots, a) + if a == account then Amounts(items) else 0
    decreases items
  {
    if items != [] {
      var k := IncrementEffect(db.lots, items[0].lotId, account, items[0].amount);
      LowerHolding(db.lots, k, -items[0].amount, a);
      var next := db.(
        lots := Lower(db.lots, k, -items[0].amount),
        restorations := db.restorations + [Restoration(items[0].allocationId, entryId, items[0].amount)]);
      ApplyHolding(next, items[1..], account, entryId, a);
    }
  }

  // ----- debit then restore

  /** Allocation rows that carry out a plan and have nothing restored yet. */
  ghost predicate FreshRows(db: Db, rows: seq<Allocation>, plan: seq<PlannedAllocation>, debitEntryId: nat) {
    && |rows| == |plan|
    && forall k :: 0 <= k < |rows| ==>
         && rows[k].debitEntryId == debitEntryId && rows[k].lotId == plan[k].lotId
         && rows[k].amount == plan[k].amount > 0
         && Restored(db.restorations, rows[k].id) == 0
  }

  /** The plan for fresh allocation rows is those rows again. */
  lemma {:induction false} ItemsOfFreshRows(
    db: Db, rows: seq<Allocation>, plan: seq<PlannedAllocation>, debitEntryId: nat, now: int)
    requires FreshRows(db, rows, plan, debitEntryId)
    requires forall k :: 0 <= k < |rows| ==>
      FindLot(db.lots, rows[k].lotId).Some? && FindLot(db.lots, rows[k].lotId).value.expiresAt > now
    ensures RestorableItems(db, rows, debitEntryId, now).Ok?
    ensures var items := RestorableItems(db, rows, debitEntryId, now).value;
      && |items| == |rows|
      && (forall k :: 0 <= k < |items| ==>
            items[k].lotId == rows[k].lotId && items[k].allocationId == rows[k].id && items[k].amount == rows[k].amount)
      && (forall lotId :: GivenBack(items, lotId) == PlannedFor(plan, lotId))
  {
    if rows != [] {
      ItemsOfFreshRows(db, rows[1..], plan[1..], debitEntryId, now);
      var items := RestorableItems(db, rows, debitEntryId, now).value;
      assert items[1..] == RestorableItems(db, rows[1..], debitEntryId, now).value;
    }
  }

  /** Rows of other debits do not matter. */
  lemma {:induction false} ItemsSkip(db: Db, others: seq<Allocation>, rows: seq<Allocation>, debitEntryId: nat, now: int)
    requires forall k :: 0 <= k < |others| ==> others[k].debitEntryId != debitEntryId
    ensures RestorableItems(db, others + rows, debitEntryId, now) == RestorableItems(db, rows, debitEntryId, now)
  {
    if others == [] {
      assert others + rows == rows;
    } else {
      assert (others + rows)[1..] == others[1..] + rows;
      ItemsSkip(db, others[1..], rows, debitEntryId, now);
    }
  }

  ghost predicate HasLot(lots: seq<CreditLot>, lotId: nat, account: Account) {
    exists i :: 0 <= i < |lots| && lots[i].id == lotId && lots[i].account == account
  }

  lemma HasLotAfter(before: seq<CreditLot>, after: seq<CreditLot>, lotId: nat, account: Account)
    requires SameRows(before, after) && HasLot(before, lotId, account)
    ensures HasLot(after, lotId, account)
  {
  }

  lemma {:induction false} ApplySucceeds(db: Db, items: seq<PlannedRestoration>, account: Account, entryId: nat)
    requires forall k :: 0 <= k < |items| ==> HasLot(db.lots, items[k].lotId, account)
    ensures ApplyRestorations(db, items, account, entryId).Some?
    decreases items
  {
    if items != [] {
      var k := HasLotIncrement(db.lots, items[0], account);
      var next := db.(
        lots := Lower(db.lots, k, -items[0].amount),
        restorations := db.restorations + [Restoration(items[0].allocationId, entryId, items[0].amount)]);
      forall j | 0 <= j < |items[1..]| ensures HasLot(next.lots, items[1..][j].lotId, account) {
        HasLotAfter(db.lots, next.lots, items[j + 1].lotId, account);
      }
      hide HasLot, Increment;
      ApplySucceeds(next, items[1..], account, entryId);
    }
  }

  lemma HasLotIncrement(lots: seq<CreditLot>, item: PlannedRestoration, account: Account) returns (k: nat)
    requires HasLot(lots, item.lotId, account)
    ensures k < |lots| && Increment(lots, item.lotId, account, item.amount) == Some(Lower(lots, k, -item.amount))
  {
    hide Increment;
    var i :| 0 <= i < |lots| && lots[i].id == item.lotId && lots[i].account == account;
    IncrementHits(lots, i, item.amount);
    k := IncrementEffect(lots, item.lotId, account, item.amount);
  }

  /** What applying a plan records for one allocation. */
  lemma {:induction false} ApplyRestored(db: Db, items: seq<PlannedRestoration>, account: Account, entryId: nat, allocationId: nat)
    requires ApplyRestorations(db, items, account, entryId).Some?
    ensures Restored(ApplyRestorations(db, items, account, entryId).value.restorations, allocationId)
         == Restored(db.restorations, allocationId) + RecordedFor(items, allocationId)
    decreases items
  {
    if items != [] {
      var r := Restoration(items[0].allocationId, entryId, items[0].amount);
      RestoredAppend(db.restorations, r, allocationId);
      var next := db.(
        lots := Increment(db.lots, items[0].lotId, account, items[0].amount).value,
        restorations := db.restorations + [r]);
      ApplyRestored(next, items[1..], account, entryId, allocationId);
    }
  }

  function RecordedFor(items: seq<PlannedRestoration>, allocationId: nat): int {
    if items == [] then 0
    else (if items[0].allocationId == allocationId then items[0].amount else 0) + RecordedFor(items[1..], allocationId)
  }

  lemma {:induction false} RecordedOnce(items: seq<PlannedRestoration>, k: nat)
    requires k < |items|
    requires forall i, j :: 0 <= i < j < |items| ==> items[i].allocationId != items[j].allocationId
    ensures RecordedFor(items, items[k].allocationId) == items[k].amount
  {
    if k == 0 {
      RecordedNever(items[1..], items[0].allocationId);
    } else {
      RecordedOnce(items[1..], k - 1);
    }
  }

  lemma {:induction false} RecordedNever(items: seq<PlannedRestoration>, allocationId: nat)
    requires forall k :: 0 <= k < |items| ==> items[k].allocationId != allocationId
    ensures RecordedFor(items, allocationId) == 0
  {
    if items != [] {
      RecordedNever(items[1..], allocationId);
    }
  }

  /** Fully restored rows leave nothing to plan. */
  lemma {:induction false} NothingLeft(db: Db, rows: seq<Allocation>, debitEntryId: nat, now: int)
    requires forall k :: 0 <= k < |rows| && rows[k].debitEntryId == debitEntryId ==>
      rows[k].amount == Restored(db.restorations, rows[k].id)
    ensures var items := RestorableItems(db, rows, debitEntryId, now);
      items == Ok([]) || items == Err(ReviewRequired)
  {
    if rows != [] {
      NothingLeft(db, rows[1..], debitEntryId, now);
    }
  }

  /** Nothing in the ledger mentions ids that have not been handed out. */
  ghost predicate IdsAreFresh(db: Db) {
    && (forall k :: 0 <= k < |db.allocations| ==>
          db.allocations[k].id < db.nextId && db.allocations[k].debitEntryId < db.nextId)
    && (forall k :: 0 <= k < |db.restorations| ==> db.restorations[k].allocationId < db.nextId)
  }

  lemma {:induction false} NeverRestored(restorations: seq<Restoration>, allocationId: nat)
    requires forall k :: 0 <= k < |restorations| ==> restorations[k].allocationId != allocationId
    ensures Restored(restorations, allocationId) == 0
  {
    if restorations != [] {
      NeverRestored(restorations[..|restorations| - 1], allocationId);
    }
  }

  /** The plan that restores a fresh debit mirrors the debit's own plan. */
  ghost predicate Mirrors(items: seq<PlannedRestoration>, added: seq<Allocation>, plan: seq<PlannedAllocation>) {
    && |items| == |added| == |plan|
    && (forall k :: 0 <= k < |items| ==>
          && items[k].lotId == added[k].lotId == plan[k].lotId && items[k].allocationId == added[k].id
          && items[k].amount == added[k].amount == plan[k].amount)
    && (forall lotId :: GivenBack(items, lotId) == PlannedFor(plan, lotId))
  }

  lemma DebitIsRestorable(db: Db, input: DebitInput)
    requires Ordered(db.lots) && IdsAreFresh(db)
    requires forall i :: 0 <= i < |db.lots| ==> db.lots[i].remaining >= 0
    requires forall k :: 0 <= k < |db.allocations| ==> db.allocations[k].debitEntryId != input.debitEntryId
    requires AllocateDebit(db, input).Ok?
    ensures var out := AllocateDebit(db, input).value;
      && PlanRestorations(out.db, input.debitEntryId, input.now).Ok?
      && var items := PlanRestorations(out.db, input.debitEntryId, input.now).value;
      && Mirrors(items, AllocationRows(out.plan, input, db.nextId), out.plan)
      && Amounts(items) == input.amount
      && forall k :: 0 <= k < |items| ==> HasLot(out.db.lots, items[k].lotId, input.account)
  {
    hide Persist, Plan, EligibleLots, Ordered, RestorableItems, Restored, FindLot, SameRows;
    var rows := EligibleLots(db.lots, input.account, input.now, input.excluded);
    var plan := Plan(rows, input.amount, 1);
    PlanShape(rows, input.amount, 1);
    var debited := AllocateDebit(db, input).value.db;
    var added := AllocationRows(plan, input, db.nextId);
    FreshAfterDebit(db, input, rows, plan);
    ItemsSkip(debited, db.allocations, added, input.debitEntryId, input.now);
    ItemsOfFreshRows(debited, added, plan, input.debitEntryId, input.now);
    var items := PlanRestorations(debited, input.debitEntryId, input.now).value;
    ItemAmounts(items, plan);
    PersistEffect(db.lots, plan, input.account);
    ItemLots(db, debited, items, plan, rows, input);
  }

  /** What a committed debit changes: its lots, its allocation rows and nothing else. */
  lemma DebitRows(db: Db, input: DebitInput)
    requires AllocateDebit(db, input).Ok?
    ensures var out := AllocateDebit(db, input).value;
      && Persist(db.lots, out.plan, input.account) == Some(out.db.lots)
      && out.db == db.(
           lots := out.db.lots, allocations := db.allocations + AllocationRows(out.plan, input, db.nextId),
           nextId := db.nextId + |out.plan|)
  {
  }

  /**
   * Debit then restore is the identity on lots. A debit posted as a fresh entry can be restored
   * at the same instant; doing so returns the lot table to exactly what it was, gives back
   * the debited amount, and a second plan is refused, whenever it is asked for.
   */
  lemma DebitThenRestore(db: Db, input: DebitInput, entryId: nat, later: int)
    requires Ordered(db.lots) && IdsAreFresh(db)
    requires forall i :: 0 <= i < |db.lots| ==> db.lots[i].remaining >= 0
    requires forall k :: 0 <= k < |db.allocations| ==> db.allocations[k].debitEntryId != input.debitEntryId
    requires AllocateDebit(db, input).Ok?
    ensures var debited := AllocateDebit(db, input).value.db;
      && PlanRestorations(debited, input.debitEntryId, input.now).Ok?
      && var items := PlanRestorations(debited, input.debitEntryId, input.now).value;
      && Amounts(items) == input.amount
      && ApplyRestorations(debited, items, input.account, entryId).Some?
      && var restored := ApplyRestorations(debited, items, input.account, entryId).value;
      && restored.lots == db.lots
      && PlanRestorations(restored, input.debitEntryId, later) == Err(ReviewRequired)
  {
    hide AllocateDebit, PlanRestorations, Persist, ApplyRestorations, Mirrors;
    DebitIsRestorable(db, input);
    DebitRows(db, input);
    var out := AllocateDebit(db, input).value;
    var items := PlanRestorations(out.db, input.debitEntryId, input.now).value;
    PersistEffect(db.lots, out.plan, input.account);
    ApplySucceeds(out.db, items, input.account, entryId);
    ApplyEffect(out.db, items, input.account, entryId);
    var restored := ApplyRestorations(out.db, items, input.account, entryId).value;
    ItemsGiveBack(items, AllocationRows(out.plan, input, db.nextId), out.plan);
    assert restored.lots == db.lots;
    SecondPlanRefused(db, out.db, restored, items, out.plan, input, entryId, later);
  }

  lemma ItemsGiveBack(items: seq<PlannedRestoration>, added: seq<Allocation>, plan: seq<PlannedAllocation>)
    requires Mirrors(items, added, plan)
    ensures forall lotId :: GivenBack(items, lotId) == PlannedFor(plan, lotId)
  {
  }

  lemma SecondPlanRefused(
    db: Db, debited: Db, restored: Db, items: seq<PlannedRestoration>, plan: seq<PlannedAllocation>,
    input: DebitInput, entryId: nat, later: int)
    requires IdsAreFresh(db)
    requires forall k :: 0 <= k < |db.allocations| ==> db.allocations[k].debitEntryId != input.debitEntryId
    requires Mirrors(items, AllocationRows(plan, input, db.nextId), plan)
    requires debited.restorations == db.restorations
    requires ApplyRestorations(debited, items, input.account, entryId) == Some(restored)
    requires restored.allocations == db.allocations + AllocationRows(plan, input, db.nextId)
    ensures PlanRestorations(restored, input.debitEntryId, later) == Err(ReviewRequired)
  {
    var added := AllocationRows(plan, input, db.nextId);
    forall k | 0 <= k < |restored.allocations| && restored.allocations[k].debitEntryId == input.debitEntryId
      ensures restored.allocations[k].amount == Restored(restored.restorations, restored.allocations[k].id)
    {
      var j := k - |db.allocations|;
      assert restored.allocations[k] == added[j];
      NeverRestored(debited.restorations, added[j].id);
      ApplyRestored(debited, items, input.account, entryId, added[j].id);
      RecordedOnce(items, j);
    }
    NothingLeft(restored, restored.allocations, input.debitEntryId, later);
  }

  lemma FreshAfterDebit(db: Db, input: DebitInput, rows: seq<CreditLot>, plan: seq<PlannedAllocation>)
    requires IdsAreFresh(db) && Ordered(db.lots)
    requires forall i :: 0 <= i < |db.lots| ==> db.lots[i].remaining >= 0
    requires ValidTarget(input)
    requires rows == EligibleLots(db.lots, input.account, input.now, input.excluded)
    requires plan == Plan(rows, input.amount, 1)
    requires PersistPlan(db, plan, input, TransactionConflict).Ok?
    ensures var debited := PersistPlan(db, plan, input, TransactionConflict).value.db;
      var added := AllocationRows(plan, input, db.nextId);
      && FreshRows(debited, added, plan, input.debitEntryId)
      && forall k :: 0 <= k < |added| ==>
           && FindLot(debited.lots, added[k].lotId).Some?
           && FindLot(debited.lots, added[k].lotId).value.expiresAt > input.now
  {
    hide Persist, Plan, EligibleLots, Ordered, FindLot, Restored;
    var debited := PersistPlan(db, plan, input, TransactionConflict).value.db;
    var added := AllocationRows(plan, input, db.nextId);
    PlanShape(rows, input.amount, 1);
    PersistEffect(db.lots, plan, input.account);
    forall k | 0 <= k < |added|
      ensures Restored(debited.restorations, added[k].id) == 0
      ensures FindLot(debited.lots, added[k].lotId).Some?
      ensures FindLot(debited.lots, added[k].lotId).value.expiresAt > input.now
    {
      NeverRestored(debited.restorations, added[k].id);
      assert rows[k] in rows;
      var i :| 0 <= i < |db.lots| && db.lots[i] == rows[k];
      FoundLot(debited.lots, i);
    }
  }

  lemma FoundLot(lots: seq<CreditLot>, i: nat)
    requires Ordered(lots) && i < |lots|
    ensures FindLot(lots, lots[i].id) == Some(lots[i])
  {
  }

  lemma ItemLots(
    db: Db, debited: Db, items: seq<PlannedRestoration>, plan: seq<PlannedAllocation>, rows: seq<CreditLot>, input: DebitInput)
    requires SameRows(db.lots, debited.lots)
    requires rows == EligibleLots(db.lots, input.account, input.now, input.excluded)
    requires |items| == |plan| <= |rows|
    requires forall k :: 0 <= k < |items| ==> items[k].lotId == plan[k].lotId == rows[k].id
    ensures forall k :: 0 <= k < |items| ==> HasLot(debited.lots, items[k].lotId, input.account)
  {
    forall k | 0 <= k < |items| ensures HasLot(debited.lots, items[k].lotId, input.account) {
      assert rows[k] in db.lots;
      var i :| 0 <= i < |db.lots| && db.lots[i] == rows[k];
      assert debited.lots[i].id == items[k].lotId;
    }
  }

  lemma {:induction false} ItemAmounts(items: seq<PlannedRestoration>, plan: seq<PlannedAllocation>)
    requires |items| == |plan|
    requires forall k :: 0 <= k < |items| ==> items[k].amount == plan[k].amount
    ensures Amounts(items) == PlanTotal(plan)
  {
    if items != [] {
      ItemAmounts(items[1..], plan[1..]);
    }
  }
}
