/** The ledger as a machine: every run of its transactions conserves every lot and every account. */
module LedgerMachine {
  import opened Wrappers
  import opened Arithmetic
  import opened LedgerTables
  import opened LotAllocation
  import opened Reversal
  import opened LedgerOperations
  import CreditExpiry

  // ----- what every committed ledger satisfies

  /** original = remaining + allocations not restored + expiries. */
  ghost predicate LotConserved(db: Db, l: CreditLot) {
    && l.id < db.nextId
    && 0 <= l.remaining
    && l.original == l.remaining + Outstanding(db.allocations, db.restorations, l.id) + Expired(db.expiries, l.id)
  }

  ghost predicate AllocationSound(db: Db, a: Allocation) {
    && a.id < db.nextId && a.debitEntryId < db.nextId && a.lotId < db.nextId
    && 0 <= Restored(db.restorations, a.id) <= a.amount && 0 < a.amount
  }

  ghost predicate DistinctAllocations(allocations: seq<Allocation>) {
    forall i, j :: 0 <= i < j < |allocations| ==> allocations[i].id != allocations[j].id
  }

  ghost predicate RowsSound(db: Db) {
    && Ordered(db.lots)
    && DistinctAllocations(db.allocations)
    && (forall k :: 0 <= k < |db.allocations| ==> AllocationSound(db, db.allocations[k]))
    && (forall k :: 0 <= k < |db.restorations| ==> db.restorations[k].allocationId < db.nextId)
    && (forall k :: 0 <= k < |db.expiries| ==> db.expiries[k].lotId < db.nextId && db.expiries[k].amount > 0)
  }

  ghost predicate LotsConserved(db: Db) {
    RowsSound(db) && forall i :: 0 <= i < |db.lots| ==> LotConserved(db, db.lots[i])
  }

  /** What an account holds is its confirmed credits less its confirmed debits. */
  ghost predicate AccountConserved(db: Db, account: Account) {
    Holding(db.lots, account) == Posted(db.entries, account, CREDIT) - Posted(db.entries, account, DEBIT)
  }

  ghost predicate Conserved(db: Db) {
    LotsConserved(db) && forall account :: AccountConserved(db, account)
  }

  /** The lot has at most one EXPIRY, and if it has one it is due for good and empty. */
  ghost predicate LotExpiredOnce(expiries: seq<Expiry>, l: CreditLot, now: int) {
    && ExpiryCount(expiries, l.id) <= 1
    && (ExpiryCount(expiries, l.id) == 1 ==> l.remaining == 0 && l.expiresAt <= now)
  }

  ghost predicate ExpiredOnce(db: Db, now: int) {
    forall i :: 0 <= i < |db.lots| ==> LotExpiredOnce(db.expiries, db.lots[i], now)
  }

  // ----- sums that vanish or stay

  lemma {:induction false} OutstandingNonNegative(db: Db, allocations: seq<Allocation>, lotId: nat)
    requires forall k :: 0 <= k < |allocations| ==> AllocationSound(db, allocations[k])
    ensures Outstanding(allocations, db.restorations, lotId) >= 0
    ensures (forall k :: 0 <= k < |allocations| ==> allocations[k].lotId != lotId) ==>
      Outstanding(allocations, db.restorations, lotId) == 0
  {
    if allocations != [] {
      assert AllocationSound(db, allocations[|allocations| - 1]);
      OutstandingNonNegative(db, allocations[..|allocations| - 1], lotId);
    }
  }

  lemma {:induction false} ExpiredNonNegative(expiries: seq<Expiry>, lotId: nat)
    requires forall k :: 0 <= k < |expiries| ==> expiries[k].amount > 0
    ensures Expired(expiries, lotId) >= 0
    ensures (forall k :: 0 <= k < |expiries| ==> expiries[k].lotId != lotId) ==>
      Expired(expiries, lotId) == 0 && ExpiryCount(expiries, lotId) == 0
  {
    if expiries != [] {
      ExpiredNonNegative(expiries[..|expiries| - 1], lotId);
    }
  }

  /** Nothing a ledger records can make a lot larger than it was. */
  lemma LotWithinOriginal(db: Db, i: nat)
    requires LotsConserved(db) && i < |db.lots|
    ensures 0 <= db.lots[i].remaining <= db.lots[i].original
  {
    assert LotConserved(db, db.lots[i]);
    OutstandingNonNegative(db, db.allocations, db.lots[i].id);
    ExpiredNonNegative(db.expiries, db.lots[i].id);
  }

  lemma {:induction false} OutstandingSameRestored(
    allocations: seq<Allocation>, before: seq<Restoration>, after: seq<Restoration>, lotId: nat)
    requires forall k :: 0 <= k < |allocations| ==>
      Restored(before, allocations[k].id) == Restored(after, allocations[k].id)
    ensures Outstanding(allocations, before, lotId) == Outstanding(allocations, after, lotId)
  {
    if allocations != [] {
      OutstandingSameRestored(allocations[..|allocations| - 1], before, after, lotId);
    }
  }

  /** A restoration row lowers what is outstanding on its own lot, by its amount. */
  lemma {:induction false} OutstandingRestored(
    allocations: seq<Allocation>, restorations: seq<Restoration>, r: Restoration, j: nat, lotId: nat)
    requires DistinctAllocations(allocations)
    requires j < |allocations| && allocations[j].id == r.allocationId
    ensures Outstanding(allocations, restorations + [r], lotId)
         == Outstanding(allocations, restorations, lotId) - if allocations[j].lotId == lotId then r.amount else 0
  {
    var last := |allocations| - 1;
    RestoredAppend(restorations, r, allocations[last].id);
    if j < last {
      assert allocations[j].id != allocations[last].id;
      OutstandingRestored(allocations[..last], restorations, r, j, lotId);
    } else {
      forall k | 0 <= k < last
        ensures Restored(restorations, allocations[k].id) == Restored(restorations + [r], allocations[k].id)
      {
        assert allocations[k].id != allocations[last].id;
        RestoredAppend(restorations, r, allocations[k].id);
      }
      OutstandingSameRestored(allocations[..last], restorations, restorations + [r], lotId);
    }
  }

  /** Fresh allocation rows add what their plan took. */
  lemma {:induction false} OutstandingAdded(
    allocations: seq<Allocation>, added: seq<Allocation>, plan: seq<PlannedAllocation>, restorations: seq<Restoration>, lotId: nat)
    requires |added| == |plan|
    requires forall k :: 0 <= k < |added| ==>
      added[k].lotId == plan[k].lotId && added[k].amount == plan[k].amount && Restored(restorations, added[k].id) == 0
    ensures Outstanding(allocations + added, restorations, lotId)
         == Outstanding(allocations, restorations, lotId) + PlannedFor(plan, lotId)
    decreases added
  {
    if added == [] {
      assert allocations + added == allocations;
    } else {
      assert allocations + added == (allocations + [added[0]]) + added[1..];
      OutstandingAppend(allocations, added[0], restorations, lotId);
      OutstandingAdded(allocations + [added[0]], added[1..], plan[1..], restorations, lotId);
    }
  }

  // ----- each kind of row change keeps the lots conserved

  /** Ids handed out and entries posted do not touch the lots. */
  lemma PostingKeepsLots(db: Db, entries: seq<Entry>, nextId: nat)
    requires LotsConserved(db) && db.nextId <= nextId
    ensures LotsConserved(db.(entries := entries, nextId := nextId))
  {
  }

  lemma NewLotKeepsLots(db: Db, lot: CreditLot, nextId: nat, now: int)
    requires LotsConserved(db) && ExpiredOnce(db, now)
    requires db.nextId <= lot.id < nextId && lot.original == lot.remaining > 0
    ensures LotsConserved(db.(lots := Insert(db.lots, lot), nextId := nextId))
    ensures ExpiredOnce(db.(lots := Insert(db.lots, lot), nextId := nextId), now)
  {
    PostingKeepsLots(db, db.entries, nextId);
    var after := db.(lots := Insert(db.lots, lot), nextId := nextId);
    forall l | l in db.lots ensures l.id != lot.id && LotConserved(after, l) {
      var i :| 0 <= i < |db.lots| && db.lots[i] == l;
      assert LotConserved(db, db.lots[i]);
    }
    InsertKeepsOrder(db.lots, lot);
    forall k | 0 <= k < |db.allocations| ensures db.allocations[k].lotId != lot.id {
      assert AllocationSound(db, db.allocations[k]);
    }
    OutstandingNonNegative(db, db.allocations, lot.id);
    ExpiredNonNegative(db.expiries, lot.id);
    forall k | 0 <= k < |after.allocations| ensures AllocationSound(after, after.allocations[k]) {
      assert AllocationSound(db, db.allocations[k]);
    }
    forall i | 0 <= i < |after.lots|
      ensures LotConserved(after, after.lots[i]) && LotExpiredOnce(after.expiries, after.lots[i], now)
    {
      assert after.lots[i] in after.lots;
      if after.lots[i] in db.lots {
        var j :| 0 <= j < |db.lots| && db.lots[j] == after.lots[i];
      }
    }
  }

  /** A persisted plan keeps every lot conserved, whatever the plan is. */
  lemma PlanKeepsLots(db: Db, plan: seq<PlannedAllocation>, input: DebitInput, onConflict: Error)
    requires LotsConserved(db)
    requires input.debitEntryId < db.nextId
    requires forall k :: 0 <= k < |plan| ==> plan[k].amount > 0 && plan[k].lotId < db.nextId
    requires PersistPlan(db, plan, input, onConflict).Ok?
    ensures LotsConserved(PersistPlan(db, plan, input, onConflict).value.db)
  {
    var after := PersistPlan(db, plan, input, onConflict).value.db;
    var added := AllocationRows(plan, input, db.nextId);
    forall i | 0 <= i < |db.lots| ensures db.lots[i].remaining >= 0 {
      assert LotConserved(db, db.lots[i]);
    }
    PersistEffect(db.lots, plan, input.account);
    forall k | 0 <= k < |added| ensures Restored(db.restorations, added[k].id) == 0 {
      NeverRestored(db.restorations, added[k].id);
    }
    AddedAllocationsSound(db, after, added);
    forall i | 0 <= i < |after.lots| ensures LotConserved(after, after.lots[i]) {
      assert LotConserved(db, db.lots[i]);
      OutstandingAdded(db.allocations, added, plan, db.restorations, db.lots[i].id);
    }
  }

  lemma AddedAllocationsSound(db: Db, after: Db, added: seq<Allocation>)
    requires RowsSound(db)
    requires after.allocations == db.allocations + added && after.restorations == db.restorations
    requires after.nextId == db.nextId + |added|
    requires forall k :: 0 <= k < |added| ==>
      && added[k].id == db.nextId + k && added[k].debitEntryId < db.nextId && added[k].lotId < db.nextId
      && added[k].amount > 0 && Restored(db.restorations, added[k].id) == 0
    ensures DistinctAllocations(after.allocations)
    ensures forall k :: 0 <= k < |after.allocations| ==> AllocationSound(after, after.allocations[k])
  {
  }

  lemma PlanHoldings(db: Db, plan: seq<PlannedAllocation>, input: DebitInput, onConflict: Error, account: Account)
    requires PersistPlan(db, plan, input, onConflict).Ok?
    ensures Holding(PersistPlan(db, plan, input, onConflict).value.db.lots, account)
         == Holding(db.lots, account) - if account == input.account then PlanTotal(plan) else 0
  {
    PersistHolding(db.lots, plan, input.account, account);
  }

  // ----- one expired row

  function ExpireOne(db: Db, row: CreditLot, k: nat): Db
    requires k < |db.lots|
  {
    db.(lots := Lower(db.lots, k, row.remaining),
        entries := db.entries + [Entry(db.nextId, row.account, EXPIRY, DEBIT, row.remaining)],
        expiries := db.expiries + [Expiry(row.id, db.nextId, row.remaining, row.expiresAt)],
        nextId := db.nextId + 1)
  }

  lemma ExpireUnfold(db: Db, row: CreditLot) returns (k: nat)
    requires Ordered(db.lots) && row in db.lots
    ensures k < |db.lots| && db.lots[k] == row
    ensures CreditExpiry.ExpireRow(db, row) == Some(ExpireOne(db, row, k))
  {
    k := CreditExpiry.ExpireRowEffect(db, row);
  }

  /** Allocations stay sound while no row of theirs and no restoration changes. */
  lemma AllocationsKept(db: Db, after: Db)
    requires RowsSound(db)
    requires after.allocations == db.allocations && after.restorations == db.restorations && db.nextId <= after.nextId
    ensures DistinctAllocations(after.allocations)
    ensures forall k :: 0 <= k < |after.allocations| ==> AllocationSound(after, after.allocations[k])
  {
    hide Restored;
    forall k | 0 <= k < |after.allocations| ensures AllocationSound(after, after.allocations[k]) {
      assert AllocationSound(db, db.allocations[k]);
    }
  }

  lemma ExpiryKeepsRows(db: Db, row: CreditLot, k: nat)
    requires RowsSound(db) && k < |db.lots| && db.lots[k] == row && row.remaining > 0 && row.id < db.nextId
    ensures RowsSound(ExpireOne(db, row, k))
  {
    hide AllocationSound, DistinctAllocations;
    var after := ExpireOne(db, row, k);
    AllocationsKept(db, after);
    SameRowsKeepsOrder(db.lots, after.lots);
  }

  /** The expired lot gives up what it had; every other lot is as it was. */
  lemma ExpiryKeepsLot(db: Db, row: CreditLot, k: nat, i: nat, now: int)
    requires Ordered(db.lots) && k < |db.lots| && i < |db.lots| && db.lots[k] == row && CreditExpiry.Due(row, now)
    requires LotConserved(db, db.lots[i]) && LotExpiredOnce(db.expiries, db.lots[i], now)
    ensures var after := ExpireOne(db, row, k);
      LotConserved(after, after.lots[i]) && LotExpiredOnce(after.expiries, after.lots[i], now)
  {
    hide Ordered, Outstanding, Expired, ExpiryCount;
    if i != k {
      IdsAreKeys(db.lots, i, k);
    }
    ExpiredAppend(db.expiries, Expiry(row.id, db.nextId, row.remaining, row.expiresAt), db.lots[i].id);
  }

  lemma ExpiryKeepsAccount(db: Db, row: CreditLot, k: nat, account: Account)
    requires k < |db.lots| && db.lots[k] == row && AccountConserved(db, account)
    ensures AccountConserved(ExpireOne(db, row, k), account)
  {
    hide Holding, Posted;
    LowerHolding(db.lots, k, row.remaining, account);
    var entry := Entry(db.nextId, row.account, EXPIRY, DEBIT, row.remaining);
    PostedAppend(db.entries, entry, account, CREDIT);
    PostedAppend(db.entries, entry, account, DEBIT);
  }

  lemma ExpiryKeeps(db: Db, row: CreditLot, now: int)
    requires Conserved(db) && ExpiredOnce(db, now)
    requires row in db.lots && CreditExpiry.Due(row, now)
    ensures CreditExpiry.ExpireRow(db, row).Some?
    ensures var after := CreditExpiry.ExpireRow(db, row).value;
      Conserved(after) && ExpiredOnce(after, now)
  {
    var k := ExpireUnfold(db, row);
    assert LotConserved(db, db.lots[k]);
    hide Ordered, RowsSound, LotConserved, LotExpiredOnce, AccountConserved, CreditExpiry.ExpireRow;
    ExpiryKeepsRows(db, row, k);
    var after := ExpireOne(db, row, k);
    forall i | 0 <= i < |after.lots|
      ensures LotConserved(after, after.lots[i]) && LotExpiredOnce(after.expiries, after.lots[i], now)
    {
      ExpiryKeepsLot(db, row, k, i, now);
    }
    forall account ensures AccountConserved(after, account) {
      ExpiryKeepsAccount(db, row, k, account);
    }
  }

  lemma {:induction false} ExpiriesKeep(db: Db, rows: seq<CreditLot>, now: int)
    requires Conserved(db) && ExpiredOnce(db, now) && CreditExpiry.RowsOf(db.lots, rows, now)
    ensures CreditExpiry.ExpireRows(db, rows).Some?
    ensures var after := CreditExpiry.ExpireRows(db, rows).value;
      Conserved(after) && ExpiredOnce(after, now)
    decreases rows
  {
    if rows != [] {
      var i := CreditExpiry.ExpireRowEffect(db, rows[0]);
      CreditExpiry.RowsOfStep(db.lots, rows, now, i);
      ExpiryKeeps(db, rows[0], now);
      ExpiriesKeep(CreditExpiry.ExpireRow(db, rows[0]).value, rows[1..], now);
    }
  }

  // ----- restorations

  /** Each item gives back no more than its own allocation still has outstanding. */
  ghost predicate ItemBacked(db: Db, item: PlannedRestoration, j: nat) {
    && j < |db.allocations|
    && db.allocations[j].id == item.allocationId && db.allocations[j].lotId == item.lotId
    && 0 < item.amount <= db.allocations[j].amount - Restored(db.restorations, item.allocationId)
  }

  ghost predicate Backed(db: Db, item: PlannedRestoration, from: nat) {
    exists j :: from <= j && ItemBacked(db, item, j)
  }

  ghost predicate ItemsBacked(db: Db, items: seq<PlannedRestoration>, now: int) {
    && (forall k :: 0 <= k < |items| ==> Backed(db, items[k], 0))
    && (forall i, k :: 0 <= i < k < |items| ==> items[i].allocationId != items[k].allocationId)
    && (forall k :: 0 <= k < |items| ==>
          FindLot(db.lots, items[k].lotId).Some? && FindLot(db.lots, items[k].lotId).value.expiresAt > now)
  }

  lemma {:induction false} PlannedItemsBacked(db: Db, from: nat, debitEntryId: nat, now: int)
    requires RowsSound(db) && from <= |db.allocations|
    requires RestorableItems(db, db.allocations[from..], debitEntryId, now).Ok?
    ensures var items := RestorableItems(db, db.allocations[from..], debitEntryId, now).value;
      && ItemsBacked(db, items, now)
      && (forall k :: 0 <= k < |items| ==> Backed(db, items[k], from))
    decreases |db.allocations| - from
  {
    if from < |db.allocations| {
      var a := db.allocations[from];
      assert db.allocations[from..][1..] == db.allocations[from + 1..];
      PlannedItemsBacked(db, from + 1, debitEntryId, now);
      var items := RestorableItems(db, db.allocations[from..], debitEntryId, now).value;
      var rest := RestorableItems(db, db.allocations[from + 1..], debitEntryId, now).value;
      forall k | 0 <= k < |rest| ensures Backed(db, rest[k], from) && Backed(db, rest[k], 0) && rest[k].allocationId != a.id {
        var j :| from + 1 <= j && ItemBacked(db, rest[k], j);
        assert ItemBacked(db, rest[k], j);
      }
      if items != rest {
        assert ItemBacked(db, items[0], from);
        assert items[1..] == rest;
      }
    }
  }

  function RestoreOne(db: Db, item: PlannedRestoration, k: nat, entryId: nat): Db
    requires k < |db.lots|
  {
    db.(lots := Lower(db.lots, k, -item.amount),
        restorations := db.restorations + [Restoration(item.allocationId, entryId, item.amount)])
  }

  lemma RestoreKeepsAllocation(db: Db, item: PlannedRestoration, j: nat, k: nat, entryId: nat, i: nat)
    requires DistinctAllocations(db.allocations) && ItemBacked(db, item, j) && k < |db.lots| && i < |db.allocations|
    requires AllocationSound(db, db.allocations[i])
    ensures AllocationSound(RestoreOne(db, item, k, entryId), db.allocations[i])
  {
    hide Restored;
    RestoredAppend(db.restorations, Restoration(item.allocationId, entryId, item.amount), db.allocations[i].id);
    assert i != j ==> db.allocations[i].id != db.allocations[j].id;
  }

  /** The restored lot gains what its allocation no longer has outstanding; every other lot is as it was. */
  lemma RestoreKeepsLot(db: Db, item: PlannedRestoration, j: nat, k: nat, entryId: nat, i: nat, now: int)
    requires Ordered(db.lots) && DistinctAllocations(db.allocations) && ItemBacked(db, item, j)
    requires k < |db.lots| && i < |db.lots| && db.lots[k].id == item.lotId && db.lots[k].expiresAt > now
    requires LotConserved(db, db.lots[i]) && LotExpiredOnce(db.expiries, db.lots[i], now)
    ensures var after := RestoreOne(db, item, k, entryId);
      LotConserved(after, after.lots[i]) && LotExpiredOnce(after.expiries, after.lots[i], now)
  {
    hide Ordered, DistinctAllocations, Outstanding, Expired, ExpiryCount, Restored;
    if i != k {
      IdsAreKeys(db.lots, i, k);
    }
    OutstandingRestored(
      db.allocations, db.restorations, Restoration(item.allocationId, entryId, item.amount), j, db.lots[i].id);
  }

  lemma RestoreKeepsRows(db: Db, item: PlannedRestoration, j: nat, k: nat, entryId: nat)
    requires RowsSound(db) && ItemBacked(db, item, j) && k < |db.lots|
    ensures RowsSound(RestoreOne(db, item, k, entryId))
  {
    assert item.allocationId < db.nextId by { assert AllocationSound(db, db.allocations[j]); }
    hide AllocationSound, ItemBacked;
    var after := RestoreOne(db, item, k, entryId);
    SameRowsKeepsOrder(db.lots, after.lots);
    forall i | 0 <= i < |after.allocations| ensures AllocationSound(after, after.allocations[i]) {
      RestoreKeepsAllocation(db, item, j, k, entryId, i);
    }
  }

  lemma RestoreOneKeeps(db: Db, item: PlannedRestoration, j: nat, k: nat, entryId: nat, now: int)
    requires LotsConserved(db) && ExpiredOnce(db, now)
    requires ItemBacked(db, item, j)
    requires k < |db.lots| && db.lots[k].id == item.lotId && db.lots[k].expiresAt > now
    ensures LotsConserved(RestoreOne(db, item, k, entryId))
    ensures ExpiredOnce(RestoreOne(db, item, k, entryId), now)
  {
    assert Ordered(db.lots) && DistinctAllocations(db.allocations);
    hide RowsSound, Ordered, DistinctAllocations, LotConserved, LotExpiredOnce, ItemBacked;
    RestoreKeepsRows(db, item, j, k, entryId);
    var after := RestoreOne(db, item, k, entryId);
    forall i | 0 <= i < |after.lots|
      ensures LotConserved(after, after.lots[i]) && LotExpiredOnce(after.expiries, after.lots[i], now)
    {
      RestoreKeepsLot(db, item, j, k, entryId, i, now);
    }
  }

  lemma ItemsBackedAfter(db: Db, items: seq<PlannedRestoration>, k: nat, entryId: nat, now: int)
    requires Ordered(db.lots) && items != [] && ItemsBacked(db, items, now)
    requires k < |db.lots| && db.lots[k].id == items[0].lotId
    ensures ItemsBacked(RestoreOne(db, items[0], k, entryId), items[1..], now)
  {
    var after := RestoreOne(db, items[0], k, entryId);
    var r := Restoration(items[0].allocationId, entryId, items[0].amount);
    SameRowsKeepsOrder(db.lots, after.lots);
    forall i | 0 <= i < |items[1..]|
      ensures Backed(after, items[1..][i], 0)
      ensures FindLot(after.lots, items[1..][i].lotId).Some?
      ensures FindLot(after.lots, items[1..][i].lotId).value.expiresAt > now
    {
      var item := items[i + 1];
      assert item == items[1..][i];
      assert Backed(db, item, 0);
      var j :| 0 <= j && ItemBacked(db, item, j);
      RestoredAppend(db.restorations, r, item.allocationId);
      assert ItemBacked(after, item, j);
      var found := FindLot(db.lots, item.lotId).value;
      var n :| 0 <= n < |db.lots| && db.lots[n] == found;
      FoundLot(after.lots, n);
    }
  }

  lemma FirstItemBacked(db: Db, items: seq<PlannedRestoration>, now: int) returns (j: nat)
    requires ItemsBacked(db, items, now) && items != []
    ensures ItemBacked(db, items[0], j)
    ensures FindLot(db.lots, items[0].lotId).Some? && FindLot(db.lots, items[0].lotId).value.expiresAt > now
  {
    assert Backed(db, items[0], 0);
    j :| 0 <= j && ItemBacked(db, items[0], j);
  }

  lemma ApplyUnfold(db: Db, items: seq<PlannedRestoration>, account: Account, entryId: nat) returns (k: nat)
    requires items != [] && ApplyRestorations(db, items, account, entryId).Some?
    ensures k < |db.lots| && db.lots[k].id == items[0].lotId
    ensures ApplyRestorations(db, items, account, entryId)
         == ApplyRestorations(RestoreOne(db, items[0], k, entryId), items[1..], account, entryId)
  {
    k := IncrementEffect(db.lots, items[0].lotId, account, items[0].amount);
  }

  /** Applying a plan keeps the lots conserved, item by item. */
  lemma {:induction false} RestorationsKeep(
    db: Db, items: seq<PlannedRestoration>, account: Account, entryId: nat, now: int)
    requires LotsConserved(db) && ExpiredOnce(db, now) && ItemsBacked(db, items, now)
    requires ApplyRestorations(db, items, account, entryId).Some?
    ensures var after := ApplyRestorations(db, items, account, entryId).value;
      LotsConserved(after) && ExpiredOnce(after, now)
    decreases items
  {
    if items != [] {
      hide *;
      LotsConservedOrdered(db);
      var k := ApplyUnfold(db, items, account, entryId);
      FoundLot(db.lots, k);
      var j := FirstItemBacked(db, items, now);
      RestoreOneKeeps(db, items[0], j, k, entryId, now);
      ItemsBackedAfter(db, items, k, entryId, now);
      RestorationsKeep(RestoreOne(db, items[0], k, entryId), items[1..], account, entryId, now);
    }
  }

  // ----- transactions

  /** A debit touches only lots that are still live. */
  lemma {:induction false} WalkSparesDeadLots(lots: seq<CreditLot>, account: Account, now: int, excluded: set<nat>, need: int)
    ensures var after := Walk(lots, account, now, excluded, need);
      && |after| == |lots|
      && forall i :: 0 <= i < |lots| && lots[i].expiresAt <= now ==> after[i] == lots[i]
  {
    if lots != [] {
      var taken := if Eligible(lots[0], account, now, excluded) then Min(lots[0].remaining, need) else 0;
      WalkSparesDeadLots(lots[1..], account, now, excluded, need - taken);
    }
  }

  /** The plan of a debit names live lots of this ledger only. */
  lemma PlanNamesLots(db: Db, rows: seq<CreditLot>, need: int)
    requires LotsConserved(db) && need >= 0
    requires forall l :: l in rows ==> l in db.lots && l.remaining > 0
    ensures var plan := Plan(rows, need, 1);
      forall k :: 0 <= k < |plan| ==> plan[k].amount > 0 && plan[k].lotId < db.nextId
  {
    PlanShape(rows, need, 1);
    var plan := Plan(rows, need, 1);
    forall k | 0 <= k < |plan| ensures plan[k].amount > 0 && plan[k].lotId < db.nextId {
      assert rows[k] in rows;
      var i :| 0 <= i < |db.lots| && db.lots[i] == rows[k];
      assert LotConserved(db, db.lots[i]);
    }
  }

  lemma DebitSparesDeadLots(db: Db, input: DebitInput)
    requires Ordered(db.lots) && input.amount >= 0
    requires AllocateDebit(db, input).Ok?
    ensures var after := AllocateDebit(db, input).value.db;
      && |after.lots| == |db.lots|
      && forall i :: 0 <= i < |db.lots| && db.lots[i].expiresAt <= input.now ==> after.lots[i] == db.lots[i]
  {
    ServiceIsWalk(db.lots, input.account, input.now, input.excluded, input.amount, 1);
    WalkSparesDeadLots(db.lots, input.account, input.now, input.excluded, input.amount);
  }

  /** A change that leaves expired lots and the expiry table alone expires nothing twice. */
  lemma ExpiredOnceKept(db: Db, after: Db, now: int)
    requires ExpiredOnce(db, now) && after.expiries == db.expiries && SameRows(db.lots, after.lots)
    requires forall i :: 0 <= i < |db.lots| && db.lots[i].expiresAt <= now ==> after.lots[i] == db.lots[i]
    ensures ExpiredOnce(after, now)
  {
  }

  lemma NonNegativeLots(db: Db)
    requires LotsConserved(db)
    ensures forall i :: 0 <= i < |db.lots| ==> db.lots[i].remaining >= 0
  {
  }

  lemma DebitKeeps(db: Db, input: DebitInput)
    requires LotsConserved(db) && ExpiredOnce(db, input.now) && input.debitEntryId < db.nextId
    requires AllocateDebit(db, input).Ok?
    ensures var after := AllocateDebit(db, input).value.db;
      && LotsConserved(after) && ExpiredOnce(after, input.now)
      && after.entries == db.entries
      && (forall a :: Holding(after.lots, a) == Holding(db.lots, a) - if a == input.account then input.amount else 0)
  {
    hide LotsConserved, ExpiredOnce, Persist, Plan;
    assert Ordered(db.lots) by { LotsConservedOrdered(db); }
    var rows := EligibleLots(db.lots, input.account, input.now, input.excluded);
    var plan := Plan(rows, input.amount, 1);
    PlanNamesLots(db, rows, input.amount);
    PlanShape(rows, input.amount, 1);
    PlanKeepsLots(db, plan, input, TransactionConflict);
    DebitSparesDeadLots(db, input);
    var after := AllocateDebit(db, input).value.db;
    NonNegativeLots(db);
    PersistEffect(db.lots, plan, input.account);
    ExpiredOnceKept(db, after, input.now);
    forall a ensures Holding(after.lots, a) == Holding(db.lots, a) - if a == input.account then input.amount else 0 {
      PlanHoldings(db, plan, input, TransactionConflict, a);
    }
  }

  lemma LotsConservedOrdered(db: Db)
    requires LotsConserved(db)
    ensures Ordered(db.lots)
  {
  }

  lemma ConservedOrdered(db: Db)
    requires Conserved(db)
    ensures Ordered(db.lots)
  {
  }

  lemma PostedOne(db: Db, after: Db, e: Entry, delta: int)
    requires forall a :: AccountConserved(db, a)
    requires after.entries == db.entries + [e]
    requires delta == if e.direction == CREDIT then e.amount else -e.amount
    requires forall a :: Holding(after.lots, a) == Holding(db.lots, a) + if a == e.account then delta else 0
    ensures forall a :: AccountConserved(after, a)
  {
    forall a ensures AccountConserved(after, a) {
      assert AccountConserved(db, a);
      PostedAppend(db.entries, e, a, CREDIT);
      PostedAppend(db.entries, e, a, DEBIT);
    }
  }

  lemma CreditKeeps(db: Db, account: Account, amount: int, earnedAt: int, expiresAt: int, now: int)
    requires Conserved(db) && ExpiredOnce(db, now)
    requires CreditAdjustment(db, account, amount, earnedAt, expiresAt).Ok?
    ensures var after := CreditAdjustment(db, account, amount, earnedAt, expiresAt).value;
      Conserved(after) && ExpiredOnce(after, now)
  {
    hide LotsConserved, LotExpiredOnce, AccountConserved, Insert, Holding;
    var lot := CreditLot(db.nextId + 2, account, db.nextId, amount, amount, earnedAt, expiresAt);
    NewLotKeepsLots(db, lot, db.nextId + 3, now);
    var entry := Entry(db.nextId, account, ADJUSTMENT, CREDIT, amount);
    var after := CreditAdjustment(db, account, amount, earnedAt, expiresAt).value;
    PostingKeepsLots(after.(entries := db.entries), after.entries, after.nextId);
    forall a ensures Holding(after.lots, a) == Holding(db.lots, a) + if a == account then amount else 0 {
      InsertHolding(db.lots, lot, a);
    }
    PostedOne(db, after, entry, amount);
  }

  lemma DebitAdjustmentKeeps(db: Db, account: Account, amount: int, now: int)
    requires Conserved(db) && ExpiredOnce(db, now)
    requires DebitAdjustment(db, account, amount, now).Ok?
    ensures var after := DebitAdjustment(db, account, amount, now).value;
      Conserved(after) && ExpiredOnce(after, now)
  {
    hide LotsConserved, AccountConserved, AllocateDebit;
    var entry := Entry(db.nextId, account, ADJUSTMENT, DEBIT, amount);
    var posted := db.(entries := db.entries + [entry], nextId := db.nextId + 2);
    PostingKeepsLots(db, posted.entries, posted.nextId);
    DebitKeeps(posted, DebitInput(account, db.nextId, amount, now, None, Some(db.nextId + 1), {}));
    PostedOne(db, DebitAdjustment(db, account, amount, now).value, entry, -amount);
  }

  lemma SettleKeeps(db: Db, input: SettlementInput, expiresAt: int)
    requires Conserved(db) && ExpiredOnce(db, input.now)
    requires SettleWithExpiry(db, input, expiresAt).Ok?
    ensures var after := SettleWithExpiry(db, input, expiresAt).value.db;
      Conserved(after) && ExpiredOnce(after, input.now)
  {
    hide LotsConserved, AccountConserved, AllocateDebit, EarnAmount;
    var entry := Entry(db.nextId, input.account, REDEEM, DEBIT, input.redeemed);
    var posted := db.(entries := db.entries + [entry], nextId := db.nextId + 1);
    PostingKeepsLots(db, posted.entries, posted.nextId);
    DebitKeeps(posted,
      DebitInput(input.account, db.nextId, input.redeemed, input.now, Some(input.redemptionId), None, {}));
    var redeemed := Redeem(db, input).value.db;
    PostedOne(db, redeemed, entry, -input.redeemed);
    var earned := EarnAmount(input.basket - input.redeemed, input.earnRateBps).value;
    if earned > 0 {
      EarnKeeps(redeemed, input.account, earned, input.occurredAt, expiresAt, input.now);
    }
  }

  lemma EarnKeeps(db: Db, account: Account, earned: int, occurredAt: int, expiresAt: int, now: int)
    requires Conserved(db) && ExpiredOnce(db, now) && earned > 0
    ensures var after := PostEarned(db, account, earned, occurredAt, expiresAt);
      Conserved(after) && ExpiredOnce(after, now)
  {
    hide LotsConserved, LotExpiredOnce, AccountConserved, Insert, Holding;
    var lot := CreditLot(db.nextId + 1, account, db.nextId, earned, earned, occurredAt, expiresAt);
    NewLotKeepsLots(db, lot, db.nextId + 2, now);
    var after := PostEarned(db, account, earned, occurredAt, expiresAt);
    PostingKeepsLots(after.(entries := db.entries), after.entries, after.nextId);
    forall a ensures Holding(after.lots, a) == Holding(db.lots, a) + if a == account then earned else 0 {
      InsertHolding(db.lots, lot, a);
    }
    PostedOne(db, after, Entry(db.nextId, account, EARN, CREDIT, earned), earned);
  }

  lemma ReverseRedemptionKeeps(db: Db, original: Entry, now: int)
    requires Conserved(db) && ExpiredOnce(db, now)
    requires ReverseRedemption(db, original, now).Ok?
    ensures var after := ReverseRedemption(db, original, now).value;
      Conserved(after) && ExpiredOnce(after, now)
  {
    var items := PlanRestorations(db, original.id, now).value;
    var entry := Entry(db.nextId, original.account, REVERSAL, CREDIT, Amounts(items));
    var posted := db.(entries := db.entries + [entry], nextId := db.nextId + 1);
    PostingKeepsLots(db, posted.entries, posted.nextId);
    assert db.allocations[0..] == db.allocations;
    PlannedItemsBacked(db, 0, original.id, now);
    ItemsBackedPosted(db, posted, items, now);
    RestorationsKeep(posted, items, original.account, db.nextId, now);
    var after := ReverseRedemption(db, original, now).value;
    ApplyEffect(posted, items, original.account, db.nextId);
    forall a ensures Holding(after.lots, a) == Holding(db.lots, a) + if a == original.account then Amounts(items) else 0 {
      ApplyHolding(posted, items, original.account, db.nextId, a);
    }
    PostedOne(db, after, entry, Amounts(items));
  }

  lemma ItemsBackedPosted(db: Db, posted: Db, items: seq<PlannedRestoration>, now: int)
    requires ItemsBacked(db, items, now)
    requires posted.allocations == db.allocations && posted.restorations == db.restorations && posted.lots == db.lots
    ensures ItemsBacked(posted, items, now)
  {
    forall k | 0 <= k < |items| ensures Backed(posted, items[k], 0) {
      assert Backed(db, items[k], 0);
      var j :| 0 <= j && ItemBacked(db, items[k], j);
      assert ItemBacked(posted, items[k], j);
    }
  }

  /** An exact-lot debit plans that lot alone. */
  lemma ExactPlan(db: Db, lotId: nat, input: DebitInput)
    requires LotsConserved(db) && input.amount > 0
    requires ExactLotRows(db.lots, lotId, input) != []
    ensures var lot := ExactLotRows(db.lots, lotId, input)[0];
      && lot in db.lots && lot.id == lotId && lot.expiresAt > input.now && lot.id < db.nextId
      && Plan([lot], input.amount, 1) == [PlannedAllocation(lotId, input.amount, 1, lot.expiresAt)]
  {
  }

  lemma ExactDebitKeeps(db: Db, lotId: nat, input: DebitInput)
    requires LotsConserved(db) && ExpiredOnce(db, input.now) && input.debitEntryId < db.nextId
    requires AllocateDebitFromExactLot(db, lotId, input).Ok?
    ensures var after := AllocateDebitFromExactLot(db, lotId, input).value.db;
      && LotsConserved(after) && ExpiredOnce(after, input.now)
      && after.entries == db.entries
      && (forall a :: Holding(after.lots, a) == Holding(db.lots, a) - if a == input.account then input.amount else 0)
  {
    hide LotsConserved, ExpiredOnce, Persist, Plan;
    assert Ordered(db.lots) by { LotsConservedOrdered(db); }
    ExactPlan(db, lotId, input);
    var lot := ExactLotRows(db.lots, lotId, input)[0];
    var plan := Plan([lot], input.amount, 1);
    PlanKeepsLots(db, plan, input, ReviewRequired);
    var after := AllocateDebitFromExactLot(db, lotId, input).value.db;
    NonNegativeLots(db);
    PersistEffect(db.lots, plan, input.account);
    assert plan[1..] == [];
    forall k | 0 <= k < |db.lots| && db.lots[k].expiresAt <= input.now ensures after.lots[k] == db.lots[k] {
      var i :| 0 <= i < |db.lots| && db.lots[i] == lot;
      assert db.lots[k].id != db.lots[i].id;
      assert PlannedFor(plan, db.lots[k].id) == 0;
    }
    ExpiredOnceKept(db, after, input.now);
    assert PlanTotal(plan) == input.amount;
    forall a ensures Holding(after.lots, a) == Holding(db.lots, a) - if a == input.account then input.amount else 0 {
      PlanHoldings(db, plan, input, ReviewRequired, a);
    }
  }

  lemma ReverseCreditKeeps(db: Db, original: Entry, lot: CreditLot, now: int)
    requires Conserved(db) && ExpiredOnce(db, now)
    requires ReverseCredit(db, original, lot, now).Ok?
    ensures var after := ReverseCredit(db, original, lot, now).value;
      Conserved(after) && ExpiredOnce(after, now)
  {
    hide LotsConserved, AccountConserved, LotExpiredOnce, AllocateDebitFromExactLot;
    var entry := Entry(db.nextId, lot.account, ADJUSTMENT, DEBIT, lot.original);
    var posted := db.(entries := db.entries + [entry], nextId := db.nextId + 2);
    PostingKeepsLots(db, posted.entries, posted.nextId);
    ExactDebitKeeps(posted, lot.id,
      DebitInput(lot.account, db.nextId, lot.original, now, None, Some(db.nextId + 1), {}));
    PostedOne(db, ReverseCredit(db, original, lot, now).value, entry, -lot.original);
  }

  // ----- runs

  datatype Machine = Machine(db: Db, now: int)

  datatype Operation =
    | Advance(to: int)
    | Credit(account: Account, amount: int, effectiveAt: int, expiresAt: int)
    | Debit(account: Account, amount: int)
    | SettleRedemption(account: Account, redemptionId: nat, basket: int, redeemed: int, occurredAt: int,
                       earnRateBps: int, expiresAt: int)
    | ExpirySweep(batchSize: int, locked: set<nat>)
    | ReverseRedeem(original: Entry)
    | ReverseEarned(original: Entry, lot: CreditLot)

  function OrElse(db: Db, r: Result<Db>): Db { if r.Ok? then r.value else db }

  /** One transaction; a failed one is rolled back. The clock never runs backwards. */
  function Step(m: Machine, op: Operation): Machine {
    match op
    case Advance(to) => m.(now := if m.now <= to then to else m.now)
    case Credit(account, amount, effectiveAt, expiresAt) =>
      m.(db := OrElse(m.db, CreditAdjustment(m.db, account, amount, effectiveAt, expiresAt)))
    case Debit(account, amount) => m.(db := OrElse(m.db, DebitAdjustment(m.db, account, amount, m.now)))
    case SettleRedemption(account, redemptionId, basket, redeemed, occurredAt, rate, expiresAt) =>
      var input := SettlementInput(account, redemptionId, basket, redeemed, occurredAt, m.now, rate);
      (match SettleWithExpiry(m.db, input, expiresAt) case Err(_) => m case Ok(out) => m.(db := out.db))
    case ExpirySweep(batchSize, locked) =>
      (match CreditExpiry.Sweep(m.db, m.now, batchSize, locked) case Err(_) => m case Ok(out) => m.(db := out.db))
    case ReverseRedeem(original) =>
      if original in m.db.entries then m.(db := OrElse(m.db, ReverseRedemption(m.db, original, m.now))) else m
    case ReverseEarned(original, lot) =>
      if original in m.db.entries && lot in m.db.lots
      then m.(db := OrElse(m.db, ReverseCredit(m.db, original, lot, m.now))) else m
  }

  function Run(m: Machine, ops: seq<Operation>): Machine
    decreases ops
  {
    if ops == [] then m else Run(Step(m, ops[0]), ops[1..])
  }

  ghost predicate Sound(m: Machine) {
    Conserved(m.db) && ExpiredOnce(m.db, m.now)
  }

  lemma LaterStillExpiredOnce(db: Db, now: int, later: int)
    requires ExpiredOnce(db, now) && now <= later
    ensures ExpiredOnce(db, later)
  {
  }

  lemma StepKeepsSound(m: Machine, op: Operation)
    requires Sound(m)
    ensures Sound(Step(m, op))
  {
    hide Conserved, LotExpiredOnce, CreditAdjustment, DebitAdjustment, SettleWithExpiry, ReverseRedemption, ReverseCredit;
    match op
    case Advance(to) => LaterStillExpiredOnce(m.db, m.now, Step(m, op).now);
    case Credit(account, amount, effectiveAt, expiresAt) =>
      if CreditAdjustment(m.db, account, amount, effectiveAt, expiresAt).Ok? {
        CreditKeeps(m.db, account, amount, effectiveAt, expiresAt, m.now);
      }
    case Debit(account, amount) =>
      if DebitAdjustment(m.db, account, amount, m.now).Ok? {
        DebitAdjustmentKeeps(m.db, account, amount, m.now);
      }
    case SettleRedemption(account, redemptionId, basket, redeemed, occurredAt, rate, expiresAt) =>
      var input := SettlementInput(account, redemptionId, basket, redeemed, occurredAt, m.now, rate);
      if SettleWithExpiry(m.db, input, expiresAt).Ok? {
        SettleKeeps(m.db, input, expiresAt);
      }
    case ExpirySweep(batchSize, locked) =>
      if batchSize > 0 {
        ConservedOrdered(m.db);
        CreditExpiry.DueLotsDistinct(m.db.lots, m.now, locked, batchSize);
        ExpiriesKeep(m.db, CreditExpiry.DueLots(m.db.lots, m.now, locked, batchSize), m.now);
      }
    case ReverseRedeem(original) =>
      if original in m.db.entries && ReverseRedemption(m.db, original, m.now).Ok? {
        ReverseRedemptionKeeps(m.db, original, m.now);
      }
    case ReverseEarned(original, lot) =>
      if original in m.db.entries && lot in m.db.lots && ReverseCredit(m.db, original, lot, m.now).Ok? {
        ReverseCreditKeeps(m.db, original, lot, m.now);
      }
  }

  lemma {:induction false} RunKeepsSound(m: Machine, ops: seq<Operation>)
    requires Sound(m)
    ensures Sound(Run(m, ops))
    decreases ops
  {
    if ops != [] {
      StepKeepsSound(m, ops[0]);
      RunKeepsSound(Step(m, ops[0]), ops[1..]);
    }
  }

  /**
   * Conservation. After any sequence of adjustments, settlements, sweeps and reversals from an empty
   * ledger: each lot's original amount is what remains plus what debits took and nothing restored plus what expired,
   * and what remains is between zero and the original; no allocation is restored beyond its amount; each account
   * holds its credits less its debits; no lot expires twice.
   */
  lemma ConservationOverRuns(start: int, ops: seq<Operation>)
    ensures var db := Run(Machine(EMPTY_DB, start), ops).db;
      && (forall i :: 0 <= i < |db.lots| ==>
            var l := db.lots[i];
            && l.original == l.remaining + Outstanding(db.allocations, db.restorations, l.id) + Expired(db.expiries, l.id)
            && 0 <= l.remaining <= l.original
            && ExpiryCount(db.expiries, l.id) <= 1)
      && (forall k :: 0 <= k < |db.allocations| ==>
            0 <= Restored(db.restorations, db.allocations[k].id) <= db.allocations[k].amount)
      && (forall account :: Holding(db.lots, account)
            == Posted(db.entries, account, CREDIT) - Posted(db.entries, account, DEBIT))
  {
    var m := Machine(EMPTY_DB, start);
    assert Sound(m) by {
      forall account ensures AccountConserved(m.db, account) { }
    }
    RunKeepsSound(m, ops);
    var db := Run(m, ops).db;
    forall i | 0 <= i < |db.lots|
      ensures LotConserved(db, db.lots[i]) && 0 <= db.lots[i].remaining <= db.lots[i].original
    {
      LotWithinOriginal(db, i);
    }
    forall k | 0 <= k < |db.allocations|
      ensures 0 <= Restored(db.restorations, db.allocations[k].id) <= db.allocations[k].amount
    {
      assert AllocationSound(db, db.allocations[k]);
    }
    forall account
      ensures Holding(db.lots, account) == Posted(db.entries, account, CREDIT) - Posted(db.entries, account, DEBIT)
    {
      assert AccountConserved(db, account);
    }
  }
}
