/**
 * The ledger services in their own form: statements over mutable tables inside a transaction.
 * Each method is proved to compute the function the run theorems are about; a transaction that
 * fails restores the tables it started from.
 */
module LedgerStore {
  import opened Wrappers
  import opened Arithmetic
  import opened LedgerTables
  import LotAllocation
  import Reversal
  import LedgerOperations
  import CreditExpiry
  import Calendar

  type Plan = seq<LotAllocation.PlannedAllocation>

  lemma PlanUnfold(rows: seq<CreditLot>, i: nat, need: int, order: nat)
    requires i < |rows| && need > 0 && forall l :: l in rows ==> l.remaining > 0
    ensures var taken := Min(rows[i].remaining, need);
      && LotAllocation.Plan(rows[i..], need, order)
         == [LotAllocation.PlannedAllocation(rows[i].id, taken, order, rows[i].expiresAt)]
            + LotAllocation.Plan(rows[i + 1..], need - taken, order + 1)
      && (LotAllocation.Total(rows[i..]) < need <==> LotAllocation.Total(rows[i + 1..]) < need - taken)
      && 0 < taken <= need
  {
    assert rows[i..][1..] == rows[i + 1..];
    assert rows[i] in rows;
    forall l | l in rows[i + 1..] ensures l.remaining > 0 {
      assert l in rows;
    }
    LotAllocation.PlanShape(rows[i + 1..], 0, 1);
  }

  /** `planAllocations`. */
  method PlanAllocations(rows: seq<CreditLot>, amount: int) returns (r: Result<Plan>)
    requires amount >= 0 && forall l :: l in rows ==> l.remaining > 0
    ensures r == if LotAllocation.Total(rows) < amount then Err(InsufficientBalance)
                 else Ok(LotAllocation.Plan(rows, amount, 1))
  {
    hide LotAllocation.Plan, LotAllocation.Total;
    var remaining := amount;
    var allocations: Plan := [];
    var i := 0;
    assert rows[0..] == rows;
    while i < |rows| && remaining != 0
      invariant 0 <= i <= |rows| && remaining >= 0
      invariant LotAllocation.Plan(rows, amount, 1) == allocations + LotAllocation.Plan(rows[i..], remaining, |allocations| + 1)
      invariant LotAllocation.Total(rows) < amount <==> LotAllocation.Total(rows[i..]) < remaining
    {
      var lot := rows[i];
      PlanUnfold(rows, i, remaining, |allocations| + 1);
      var taken := if lot.remaining < remaining then lot.remaining else remaining;
      allocations := allocations + [LotAllocation.PlannedAllocation(lot.id, taken, |allocations| + 1, lot.expiresAt)];
      remaining := remaining - taken;
      i := i + 1;
    }
    PlanEnd(rows, i, remaining, |allocations| + 1);
    assert allocations + [] == allocations;
    if remaining > 0 {
      return Err(InsufficientBalance);
    }
    return Ok(allocations);
  }

  lemma PlanEnd(rows: seq<CreditLot>, i: nat, remaining: int, order: nat)
    requires i <= |rows| && remaining >= 0 && (i == |rows| || remaining == 0)
    requires forall l :: l in rows ==> l.remaining > 0
    ensures LotAllocation.Plan(rows[i..], remaining, order) == []
    ensures LotAllocation.Total(rows[i..]) < remaining <==> remaining > 0
  {
    forall l | l in rows[i..] ensures l.remaining > 0 {
      assert l in rows;
    }
    LotAllocation.PlanShape(rows[i..], 0, 1);
  }

  function Prepend<T>(items: seq<T>, r: Result<seq<T>>): Result<seq<T>> {
    match r case Err(e) => Err(e) case Ok(rest) => Ok(items + rest)
  }

  lemma PrependOne<T>(items: seq<T>, item: T, r: Result<seq<T>>)
    ensures Prepend(items + [item], r) == Prepend(items, Prepend([item], r))
  {
    if r.Ok? {
      assert (items + [item]) + r.value == items + ([item] + r.value);
    }
  }

  lemma PrependEnds<T>(items: seq<T>, r: Result<seq<T>>)
    ensures Prepend([], r) == r && Prepend(items, Ok([])) == Ok(items)
  {
    assert items + [] == items;
    if r.Ok? {
      assert [] + r.value == r.value;
    }
  }

  /** `planRestorations`, over the allocation rows of one debit entry. */
  method PlanRestorations(db: Db, debitEntryId: nat, now: int) returns (r: Result<seq<Reversal.PlannedRestoration>>)
    ensures r == Reversal.PlanRestorations(db, debitEntryId, now)
  {
    var items: seq<Reversal.PlannedRestoration> := [];
    var i := 0;
    assert db.allocations[0..] == db.allocations;
    PrependEnds(items, Reversal.RestorableItems(db, db.allocations, debitEntryId, now));
    while i < |db.allocations|
      invariant 0 <= i <= |db.allocations|
      invariant Reversal.RestorableItems(db, db.allocations, debitEntryId, now)
             == Prepend(items, Reversal.RestorableItems(db, db.allocations[i..], debitEntryId, now))
    {
      var a := db.allocations[i];
      assert db.allocations[i..][1..] == db.allocations[i + 1..];
      if a.debitEntryId == debitEntryId {
        var lot := Reversal.FindLot(db.lots, a.lotId);
        if lot.None? || lot.value.expiresAt <= now {
          return Err(ReviewRequired);
        }
        var amount := a.amount - Restored(db.restorations, a.id);
        if amount < 0 {
          return Err(ReviewRequired);
        }
        if amount > 0 {
          PrependOne(items, Reversal.PlannedRestoration(a.id, a.lotId, amount, lot.value.expiresAt),
                     Reversal.RestorableItems(db, db.allocations[i + 1..], debitEntryId, now));
          items := items + [Reversal.PlannedRestoration(a.id, a.lotId, amount, lot.value.expiresAt)];
        }
      }
      i := i + 1;
    }
    PrependEnds(items, Reversal.RestorableItems(db, [], debitEntryId, now));
    if items == [] {
      return Err(ReviewRequired);
    }
    return Ok(items);
  }

  class Store {
    var lots: seq<CreditLot>
    var entries: seq<Entry>
    var allocations: seq<Allocation>
    var restorations: seq<Restoration>
    var expiries: seq<Expiry>
    var nextId: nat

    function Snapshot(): Db
      reads this
    {
      Db(lots, entries, allocations, restorations, expiries, nextId)
    }

    constructor ()
      ensures Snapshot() == EMPTY_DB
    {
      lots, entries, allocations, restorations, expiries, nextId := [], [], [], [], [], 0;
    }

    /** Roll a transaction back. */
    method Rollback(saved: Db)
      modifies this
      ensures Snapshot() == saved
    {
      lots, entries, allocations := saved.lots, saved.entries, saved.allocations;
      restorations, expiries, nextId := saved.restorations, saved.expiries, saved.nextId;
    }

    method CreateEntry(account: Account, kind: EntryType, direction: Direction, amount: int) returns (id: nat)
      modifies this
      ensures id == old(nextId)
      ensures Snapshot() == old(Snapshot()).(
        entries := old(entries) + [Entry(id, account, kind, direction, amount)], nextId := id + 1)
    {
      id := nextId;
      nextId := nextId + 1;
      entries := entries + [Entry(id, account, kind, direction, amount)];
    }

    method CreateLot(account: Account, entryId: nat, amount: int, earnedAt: int, expiresAt: int)
      modifies this
      ensures Snapshot() == old(Snapshot()).(
        lots := Insert(old(lots), CreditLot(old(nextId), account, entryId, amount, amount, earnedAt, expiresAt)),
        nextId := old(nextId) + 1)
    {
      lots := Insert(lots, CreditLot(nextId, account, entryId, amount, amount, earnedAt, expiresAt));
      nextId := nextId + 1;
    }

    /** `persistAllocations`: the rows first, then one guarded decrement per item. */
    method PersistAllocations(plan: Plan, input: LotAllocation.DebitInput, onConflict: Error) returns (r: Result<Plan>)
      modifies this
      ensures match LotAllocation.PersistPlan(old(Snapshot()), plan, input, onConflict)
        case Err(e) => r == Err(e)
        case Ok(out) => r == Ok(plan) && Snapshot() == out.db
    {
      allocations := allocations + LotAllocation.AllocationRows(plan, input, nextId);
      nextId := nextId + |plan|;
      var i := 0;
      while i < |plan|
        invariant 0 <= i <= |plan|
        invariant LotAllocation.Persist(old(lots), plan, input.account)
               == LotAllocation.Persist(lots, plan[i..], input.account)
        invariant Snapshot() == old(Snapshot()).(
          lots := lots, allocations := old(allocations) + LotAllocation.AllocationRows(plan, input, old(nextId)),
          nextId := old(nextId) + |plan|)
      {
        assert plan[i..][1..] == plan[i + 1..];
        var updated := LotAllocation.Decrement(lots, plan[i].lotId, input.account, plan[i].amount);
        if updated.None? {
          return Err(onConflict);
        }
        lots := updated.value;
        i := i + 1;
      }
      return Ok(plan);
    }

    /** `allocateDebit`. */
    method AllocateDebit(input: LotAllocation.DebitInput) returns (r: Result<Plan>)
      modifies this
      ensures match LotAllocation.AllocateDebit(old(Snapshot()), input)
        case Err(e) => r == Err(e)
        case Ok(out) => r == Ok(out.plan) && Snapshot() == out.db
    {
      if !LotAllocation.ValidTarget(input) {
        return Err(ValidationError);
      }
      var rows := LotAllocation.EligibleLots(lots, input.account, input.now, input.excluded);
      var planned := PlanAllocations(rows, input.amount);
      if planned.Err? {
        return planned;
      }
      r := PersistAllocations(planned.value, input, TransactionConflict);
    }

    /** `allocateDebitFromExactLot`. */
    method AllocateDebitFromExactLot(lotId: nat, input: LotAllocation.DebitInput) returns (r: Result<Plan>)
      modifies this
      ensures match LotAllocation.AllocateDebitFromExactLot(old(Snapshot()), lotId, input)
        case Err(e) => r == Err(e)
        case Ok(out) => r == Ok(out.plan) && Snapshot() == out.db
    {
      if !LotAllocation.ValidTarget(input) {
        return Err(ValidationError);
      }
      var rows := LotAllocation.ExactLotRows(lots, lotId, input);
      if rows == [] {
        return Err(ReviewRequired);
      }
      assert rows[0] in rows;
      assert [rows[0]][1..] == [];
      var planned := PlanAllocations([rows[0]], input.amount);
      r := PersistAllocations(planned.value, input, ReviewRequired);
    }

    /** The REDEEM entry of a settlement and its allocations. */
    method Redeem(input: LedgerOperations.SettlementInput) returns (r: Result<Plan>)
      modifies this
      ensures match LedgerOperations.Redeem(old(Snapshot()), input)
        case Err(e) => r == Err(e)
        case Ok(out) => r == Ok(out.plan) && Snapshot() == out.db
    {
      hide LotAllocation.AllocateDebit;
      var entryId := CreateEntry(input.account, REDEEM, DEBIT, input.redeemed);
      r := AllocateDebit(
        LotAllocation.DebitInput(input.account, entryId, input.redeemed, input.now, Some(input.redemptionId), None, {}));
    }

    /** The EARN entry of a settlement and its lot. */
    method PostEarned(account: Account, earned: int, occurredAt: int, expiresAt: int)
      modifies this
      ensures Snapshot() == LedgerOperations.PostEarned(old(Snapshot()), account, earned, occurredAt, expiresAt)
    {
      if earned > 0 {
        var earnId := CreateEntry(account, EARN, CREDIT, earned);
        CreateLot(account, earnId, earned, occurredAt, expiresAt);
      }
    }

    /** `executeRedemptionSettlement` in its transaction. */
    method ExecuteRedemptionSettlement(input: LedgerOperations.SettlementInput)
      returns (r: Result<LedgerOperations.SettlementOutcome>)
      modifies this
      ensures r == LedgerOperations.Settle(old(Snapshot()), input)
      ensures Snapshot() == if r.Ok? then r.value.db else old(Snapshot())
    {
      hide Calendar.AddUtcMonthsClamped, LedgerOperations.Redeem, LedgerOperations.PostEarned,
           LedgerOperations.EarnAmount, ActiveBalance, LotAllocation.PlanTotal;
      var saved := Snapshot();
      if input.basket < 0 || input.redeemed < 0 {
        return Err(SettlementRejected);
      }
      var netPaid := input.basket - input.redeemed;
      if netPaid < 0 {
        return Err(SettlementRejected);
      }
      var planned := Redeem(input);
      if planned.Err? {
        Rollback(saved);
        return Err(planned.error);
      }
      var earned := LedgerOperations.EarnAmount(netPaid, input.earnRateBps);
      if LotAllocation.PlanTotal(planned.value) != input.redeemed || earned.None? {
        Rollback(saved);
        return Err(SettlementRejected);
      }
      PostEarned(input.account, earned.value, input.occurredAt,
                 Calendar.AddUtcMonthsClamped(input.occurredAt, LedgerOperations.EARN_EXPIRY_MONTHS));
      var balance := ActiveBalance(lots, input.account, input.now);
      return Ok(LedgerOperations.SettlementOutcome(Snapshot(), earned.value, netPaid, balance, planned.value));
    }

    /** The transaction of a credit adjustment. */
    method CreateCreditAdjustment(account: Account, amount: int, effectiveAt: int, expiryMonths: int) returns (r: Result<Db>)
      modifies this
      ensures r == LedgerOperations.CreditAdjustment(
        old(Snapshot()), account, amount, effectiveAt, Calendar.AddMonths(effectiveAt, expiryMonths))
      ensures Snapshot() == if r.Ok? then r.value else old(Snapshot())
    {
      hide Calendar.AddMonths;
      if amount <= 0 {
        return Err(ValidationError);
      }
      var entryId := CreateEntry(account, ADJUSTMENT, CREDIT, amount);
      nextId := nextId + 1;
      CreateLot(account, entryId, amount, effectiveAt, Calendar.AddMonths(effectiveAt, expiryMonths));
      return Ok(Snapshot());
    }

    /** The transaction of a debit adjustment. */
    method CreateDebitAdjustment(account: Account, amount: int, now: int) returns (r: Result<Db>)
      modifies this
      ensures r == LedgerOperations.DebitAdjustment(old(Snapshot()), account, amount, now)
      ensures Snapshot() == if r.Ok? then r.value else old(Snapshot())
    {
      hide LotAllocation.AllocateDebit;
      var saved := Snapshot();
      var entryId := CreateEntry(account, ADJUSTMENT, DEBIT, amount);
      var adjustmentId := nextId;
      nextId := nextId + 1;
      var planned := AllocateDebit(LotAllocation.DebitInput(account, entryId, amount, now, None, Some(adjustmentId), {}));
      if planned.Err? {
        Rollback(saved);
        return Err(planned.error);
      }
      return Ok(Snapshot());
    }

    /** One due lot of a sweep. */
    method ExpireLot(lot: CreditLot) returns (hit: bool)
      modifies this
      ensures match CreditExpiry.ExpireRow(old(Snapshot()), lot)
        case None => !hit
        case Some(after) => hit && Snapshot() == after
    {
      var entryId := CreateEntry(lot.account, EXPIRY, DEBIT, lot.remaining);
      expiries := expiries + [Expiry(lot.id, entryId, lot.remaining, lot.expiresAt)];
      var updated := LotAllocation.Decrement(lots, lot.id, lot.account, lot.remaining);
      if updated.None? {
        return false;
      }
      lots := updated.value;
      return true;
    }

    /** One attempt of `expireDueCredit`. */
    method SweepDueLots(now: int, batchSize: int, locked: set<nat>) returns (r: Result<CreditExpiry.SweepOutcome>)
      modifies this
      ensures r == CreditExpiry.Sweep(old(Snapshot()), now, batchSize, locked)
      ensures Snapshot() == if r.Ok? then r.value.db else old(Snapshot())
    {
      hide CreditExpiry.DueLots, CreditExpiry.ExpireRow;
      var saved := Snapshot();
      if batchSize <= 0 {
        return Err(ValidationError);
      }
      var due := CreditExpiry.DueLots(lots, now, locked, batchSize);
      var expiredLots, expiredAmount := 0, 0;
      var i := 0;
      while i < |due|
        invariant 0 <= i <= |due| && expiredLots == i
        invariant expiredAmount + LotAllocation.Total(due[i..]) == LotAllocation.Total(due)
        invariant CreditExpiry.ExpireRows(saved, due) == CreditExpiry.ExpireRows(Snapshot(), due[i..])
      {
        var lot := due[i];
        assert due[i..][1..] == due[i + 1..];
        assert lot in due;
        if lot.remaining > 0 {
          var hit := ExpireLot(lot);
          if !hit {
            Rollback(saved);
            return Err(TransactionConflict);
          }
          expiredLots, expiredAmount := expiredLots + 1, expiredAmount + lot.remaining;
        } else {
          assert false;
        }
        i := i + 1;
      }
      return Ok(CreditExpiry.SweepOutcome(Snapshot(), |due|, expiredLots, expiredAmount));
    }

    /** The reversal of a redemption. */
    method ReverseRedemption(original: Entry, now: int) returns (r: Result<Db>)
      modifies this
      ensures r == Reversal.ReverseRedemption(old(Snapshot()), original, now)
      ensures Snapshot() == if r.Ok? then r.value else old(Snapshot())
    {
      hide Reversal.PlanRestorations;
      var saved := Snapshot();
      if original.kind != REDEEM || original.direction != DEBIT {
        return Err(ReviewRequired);
      }
      var planned := PlanRestorations(Snapshot(), original.id, now);
      if planned.Err? {
        return Err(planned.error);
      }
      var items := planned.value;
      var entryId := CreateEntry(original.account, REVERSAL, CREDIT, Reversal.Amounts(items));
      ghost var posted := Snapshot();
      var i := 0;
      while i < |items|
        invariant 0 <= i <= |items|
        invariant Reversal.ApplyRestorations(posted, items, original.account, entryId)
               == Reversal.ApplyRestorations(Snapshot(), items[i..], original.account, entryId)
      {
        assert items[i..][1..] == items[i + 1..];
        var updated := Reversal.Increment(lots, items[i].lotId, original.account, items[i].amount);
        if updated.None? {
          Rollback(saved);
          return Err(ReviewRequired);
        }
        lots := updated.value;
        restorations := restorations + [Restoration(items[i].allocationId, entryId, items[i].amount)];
        i := i + 1;
      }
      return Ok(Snapshot());
    }

    /** The reversal of an untouched EARN credit. */
    method ReverseEarned(original: Entry, lot: CreditLot, now: int) returns (r: Result<Db>)
      modifies this
      ensures r == Reversal.ReverseCredit(old(Snapshot()), original, lot, now)
      ensures Snapshot() == if r.Ok? then r.value else old(Snapshot())
    {
      hide LotAllocation.AllocateDebitFromExactLot;
      var saved := Snapshot();
      if original.kind != EARN || original.direction != CREDIT || lot.earnEntryId != original.id {
        return Err(ReviewRequired);
      }
      if lot.expiresAt <= now || lot.remaining != lot.original {
        return Err(ReviewRequired);
      }
      var entryId := CreateEntry(lot.account, ADJUSTMENT, DEBIT, lot.original);
      var adjustmentId := nextId;
      nextId := nextId + 1;
      var planned := AllocateDebitFromExactLot(lot.id,
        LotAllocation.DebitInput(lot.account, entryId, lot.original, now, None, Some(adjustmentId), {}));
      if planned.Err? {
        Rollback(saved);
        return Err(planned.error);
      }
      return Ok(Snapshot());
    }
  }
}
