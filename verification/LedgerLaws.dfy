/** What each ledger transaction leaves in the tables, row by row. */
module LedgerLaws {
  import opened Wrappers
  import opened Arithmetic
  import opened LedgerTables
  import opened LotAllocation
  import opened Reversal
  import opened LedgerOperations
  import opened LedgerMachine
  import opened ReversalOutcomes

  // ----- debits

  /** A walk touches only what the debit may touch, and an earlier row is emptied before a later one is touched. */
  lemma {:induction false} WalkOrder(lots: seq<CreditLot>, account: Account, now: int, excluded: set<nat>, need: int, j: nat)
    requires need >= 0 && j < |lots|
    ensures var after := Walk(lots, account, now, excluded, need);
      && |after| == |lots|
      && (after[j] != lots[j] ==>
            && Eligible(lots[j], account, now, excluded)
            && forall i :: 0 <= i < j && Eligible(lots[i], account, now, excluded) ==> after[i].remaining == 0)
      && (need == 0 ==> after[j] == lots[j])
  {
    WalkRows(lots, account, now, excluded, need);
    if need == 0 {
      WalkNothing(lots, account, now, excluded);
    } else {
      WalkHead(lots, account, now, excluded, need);
      var taken := if Eligible(lots[0], account, now, excluded) then Min(lots[0].remaining, need) else 0;
      if j > 0 {
        WalkOrder(lots[1..], account, now, excluded, need - taken, j - 1);
      }
    }
  }

  /** a comes before b: it expires sooner, or was earned sooner, or has the smaller id, in that order. */
  predicate Sooner(a: CreditLot, b: CreditLot) {
    if a.expiresAt != b.expiresAt then a.expiresAt < b.expiresAt
    else if a.earnedAt != b.earnedAt then a.earnedAt < b.earnedAt
    else a.id < b.id
  }

  /** A lot the debit may take from. */
  predicate Spendable(l: CreditLot, input: DebitInput) {
    l.account == input.account && l.remaining > 0 && l.expiresAt > input.now && l.id !in input.excluded
  }

  lemma LaterIsNotSooner(lots: seq<CreditLot>, i: nat, j: nat)
    requires Ordered(lots) && j <= i < |lots|
    ensures !Sooner(lots[i], lots[j])
  {
    assert j == i || Before(lots[j], lots[i]);
  }

  /**
   * Which lots a debit takes from: only live ones of its account that are not excluded and, among those, never from one
   * while a sooner one still holds anything.
   */
  lemma SoonerLotsFirst(db: Db, input: DebitInput, i: nat, j: nat)
    requires Ordered(db.lots) && AllocateDebit(db, input).Ok? && i < |db.lots| && j < |db.lots|
    ensures var after := AllocateDebit(db, input).value.db.lots;
      && |after| == |db.lots|
      && (after[j] != db.lots[j] ==>
            && Spendable(db.lots[j], input)
            && (Spendable(db.lots[i], input) && Sooner(db.lots[i], db.lots[j]) ==> after[i].remaining == 0))
  {
    DebitSucceedsExactlyWhenCovered(db, input);
    ServiceIsWalk(db.lots, input.account, input.now, input.excluded, input.amount, 1);
    WalkOrder(db.lots, input.account, input.now, input.excluded, input.amount, j);
    if j <= i {
      LaterIsNotSooner(db.lots, i, j);
    }
    hide Ordered, Walk, Persist, Plan, EligibleLots;
  }

  /** What the allocation rows of a debit took from one lot. */
  function TakenFrom(rows: seq<Allocation>, lotId: nat): int {
    if rows == [] then 0 else (if rows[0].lotId == lotId then rows[0].amount else 0) + TakenFrom(rows[1..], lotId)
  }

  lemma {:induction false} TakenAsPlanned(rows: seq<Allocation>, plan: seq<PlannedAllocation>, lotId: nat)
    requires |rows| == |plan|
    requires forall k :: 0 <= k < |rows| ==> rows[k].lotId == plan[k].lotId && rows[k].amount == plan[k].amount
    ensures TakenFrom(rows, lotId) == PlannedFor(plan, lotId)
  {
    if rows != [] {
      TakenAsPlanned(rows[1..], plan[1..], lotId);
    }
  }

  /** One allocation row for each lot taken from, in order, all naming the debit and its one target. */
  ghost predicate DebitRecorded(before: Db, after: Db, added: seq<Allocation>, input: DebitInput) {
    && added != [] && SameRows(before.lots, after.lots)
    && after == before.(lots := after.lots, allocations := before.allocations + added, nextId := after.nextId)
    && (forall k :: 0 <= k < |added| ==>
          && added[k].id == before.nextId + k < after.nextId && added[k].debitEntryId == input.debitEntryId
          && added[k].redemptionId == input.redemptionId && added[k].adjustmentId == input.adjustmentId
          && added[k].order == k + 1 && added[k].amount > 0)
    && (forall i :: 0 <= i < |before.lots| ==>
          before.lots[i].remaining - after.lots[i].remaining == TakenFrom(added, before.lots[i].id))
  }

  lemma DebitIsRecorded(db: Db, input: DebitInput) returns (added: seq<Allocation>)
    requires Ordered(db.lots) && AllocateDebit(db, input).Ok?
    requires forall i :: 0 <= i < |db.lots| ==> db.lots[i].remaining >= 0
    ensures DebitRecorded(db, AllocateDebit(db, input).value.db, added, input)
  {
    hide Plan, Persist, EligibleLots, Ordered, SameRows;
    DebitRows(db, input);
    DebitPlan(db, input);
    var out := AllocateDebit(db, input).value;
    hide AllocateDebit;
    PersistEffect(db.lots, out.plan, input.account);
    added := AllocationRows(out.plan, input, db.nextId);
    forall i | 0 <= i < |db.lots|
      ensures db.lots[i].remaining - out.db.lots[i].remaining == TakenFrom(added, db.lots[i].id)
    {
      TakenAsPlanned(added, out.plan, db.lots[i].id);
    }
  }

  lemma DebitPlan(db: Db, input: DebitInput)
    requires AllocateDebit(db, input).Ok?
    ensures var plan := AllocateDebit(db, input).value.plan;
      plan != [] && forall k :: 0 <= k < |plan| ==> plan[k].order == k + 1 && plan[k].amount > 0
  {
    hide Persist, Plan, EligibleLots;
    var rows := EligibleLots(db.lots, input.account, input.now, input.excluded);
    PlanShape(rows, input.amount, 1);
  }

  /** The exact-lot debit: exactly one target, a positive amount, and that very lot, live, of the account and large enough. */
  lemma ExactDebitExactly(db: Db, lotId: nat, input: DebitInput)
    requires LotsConserved(db)
    ensures var valid := input.amount > 0 && (input.redemptionId.Some? <==> input.adjustmentId.None?);
      var there := exists i :: 0 <= i < |db.lots| && ExactLot(db.lots[i], lotId, input);
      && (AllocateDebitFromExactLot(db, lotId, input).Ok? <==> valid && there)
      && (!valid ==> AllocateDebitFromExactLot(db, lotId, input) == Err(ValidationError))
      && (valid && !there ==> AllocateDebitFromExactLot(db, lotId, input) == Err(ReviewRequired))
    ensures AllocateDebitFromExactLot(db, lotId, input).Ok? ==>
      var after := AllocateDebitFromExactLot(db, lotId, input).value.db.lots;
      && |after| == |db.lots|
      && (forall i :: 0 <= i < |db.lots| ==>
            after[i] == if db.lots[i].id == lotId then Less(db.lots[i], input.amount) else db.lots[i])
  {
    ExactRowsThere(db.lots, lotId, input);
    if i :| 0 <= i < |db.lots| && ExactLot(db.lots[i], lotId, input) {
      if ValidTarget(input) {
        ExactDebitHits(db, i, input);
        LotsConservedOrdered(db);
        forall k | 0 <= k < |db.lots| && k != i ensures db.lots[k].id != lotId {
          IdsAreKeys(db.lots, i, k);
        }
      }
    }
    hide LotsConserved, PersistPlan, ExactLotRows;
  }

  function Less(l: CreditLot, amount: int): CreditLot { l.(remaining := l.remaining - amount) }

  lemma ExactRowsThere(lots: seq<CreditLot>, lotId: nat, input: DebitInput)
    ensures ExactLotRows(lots, lotId, input) != [] <==> exists i :: 0 <= i < |lots| && ExactLot(lots[i], lotId, input)
  {
    var rows := ExactLotRows(lots, lotId, input);
    hide ExactLotRows;
    if rows != [] {
      assert rows[0] in rows;
      var k :| 0 <= k < |lots| && lots[k] == rows[0];
      assert ExactLot(lots[k], lotId, input);
    }
    if i :| 0 <= i < |lots| && ExactLot(lots[i], lotId, input) {
      assert lots[i] in lots && lots[i] in rows;
    }
  }

  predicate ExactLot(l: CreditLot, lotId: nat, input: DebitInput) {
    l.id == lotId && l.account == input.account && l.expiresAt > input.now && l.remaining >= input.amount
  }

  // ----- adjustments

  /** A credit adjustment adds one ADJUSTMENT credit and one full lot that it created, and touches nothing else. */
  lemma CreditAdjustmentRows(db: Db, account: Account, amount: int, effectiveAt: int, expiresAt: int)
    returns (entry: Entry, lot: CreditLot)
    requires amount > 0
    ensures CreditAdjustment(db, account, amount, effectiveAt, expiresAt).Ok?
    ensures var after := CreditAdjustment(db, account, amount, effectiveAt, expiresAt).value;
      && after == db.(lots := after.lots, entries := db.entries + [entry], nextId := after.nextId)
      && multiset(after.lots) == multiset(db.lots) + multiset{lot}
      && entry.account == account && entry.kind == ADJUSTMENT && entry.direction == CREDIT && entry.amount == amount
      && lot.account == account && lot.earnEntryId == entry.id && lot.original == lot.remaining == amount
      && lot.earnedAt == effectiveAt && lot.expiresAt == expiresAt
      && db.nextId <= entry.id < after.nextId && db.nextId <= lot.id < after.nextId
  {
    entry := Entry(db.nextId, account, ADJUSTMENT, CREDIT, amount);
    lot := CreditLot(db.nextId + 2, account, db.nextId, amount, amount, effectiveAt, expiresAt);
  }

  /** A debit adjustment posts one ADJUSTMENT debit and records it against an adjustment of its own. */
  lemma DebitAdjustmentRows(db: Db, account: Account, amount: int, now: int)
    returns (posted: Db, added: seq<Allocation>, input: DebitInput)
    requires Ordered(db.lots) && DebitAdjustment(db, account, amount, now).Ok?
    requires forall i :: 0 <= i < |db.lots| ==> db.lots[i].remaining >= 0
    ensures posted.entries == db.entries + [Entry(input.debitEntryId, account, ADJUSTMENT, DEBIT, amount)]
    ensures posted == db.(entries := posted.entries, nextId := posted.nextId) && db.nextId <= input.debitEntryId < posted.nextId
    ensures input.redemptionId == None && input.adjustmentId.Some? && db.nextId <= input.adjustmentId.value < posted.nextId
    ensures input.adjustmentId.value != input.debitEntryId
    ensures DebitRecorded(posted, DebitAdjustment(db, account, amount, now).value, added, input)
  {
    hide AllocateDebit, Ordered, DebitRecorded;
    posted := db.(
      entries := db.entries + [Entry(db.nextId, account, ADJUSTMENT, DEBIT, amount)], nextId := db.nextId + 2);
    input := DebitInput(account, db.nextId, amount, now, None, Some(db.nextId + 1), {});
    added := DebitIsRecorded(posted, input);
  }

  /** The redeem half of a settlement posts one REDEEM debit and records it against its redemption alone. */
  lemma RedemptionRows(db: Db, input: SettlementInput) returns (posted: Db, added: seq<Allocation>, debit: DebitInput)
    requires Ordered(db.lots) && Redeem(db, input).Ok?
    requires forall i :: 0 <= i < |db.lots| ==> db.lots[i].remaining >= 0
    ensures posted.entries == db.entries + [Entry(debit.debitEntryId, input.account, REDEEM, DEBIT, input.redeemed)]
    ensures posted == db.(entries := posted.entries, nextId := posted.nextId) && db.nextId <= debit.debitEntryId < posted.nextId
    ensures debit.redemptionId == Some(input.redemptionId) && debit.adjustmentId == None
    ensures DebitRecorded(posted, Redeem(db, input).value.db, added, debit)
  {
    hide AllocateDebit, Ordered, DebitRecorded;
    posted := db.(
      entries := db.entries + [Entry(db.nextId, input.account, REDEEM, DEBIT, input.redeemed)], nextId := db.nextId + 1);
    debit := DebitInput(input.account, db.nextId, input.redeemed, input.now, Some(input.redemptionId), None, {});
    added := DebitIsRecorded(posted, debit);
  }
}
