/** Debits as `LotAllocationService` performs them: lock, plan, persist. */
module LotAllocation {
  import opened Wrappers
  import opened Arithmetic
  import opened LedgerTables

  datatype PlannedAllocation = PlannedAllocation(lotId: nat, amount: int, order: nat, expiresAt: int)

  datatype DebitInput = DebitInput(
    account: Account, debitEntryId: nat, amount: int, now: int,
    redemptionId: Option<nat>, adjustmentId: Option<nat>, excluded: set<nat>)

  datatype DebitOutcome = DebitOutcome(db: Db, plan: seq<PlannedAllocation>)

  /** Exactly one of the two targets, and a positive amount. */
  predicate ValidTarget(input: DebitInput) {
    input.amount > 0 && (input.redemptionId.Some? != input.adjustmentId.Some?)
  }

  /** `lockEligibleLots`: the eligible rows, in table order. */
  function EligibleLots(lots: seq<CreditLot>, account: Account, now: int, excluded: set<nat>): (rows: seq<CreditLot>)
    ensures forall l :: l in rows <==>
      l in lots && l.account == account && l.remaining > 0 && l.expiresAt > now && l.id !in excluded
    ensures Total(rows) == Available(lots, account, now, excluded)
  {
    if lots == [] then []
    else
      assert lots == [lots[0]] + lots[1..];
      var rest := EligibleLots(lots[1..], account, now, excluded);
      if Eligible(lots[0], account, now, excluded) then
        assert ([lots[0]] + rest)[1..] == rest;
        [lots[0]] + rest
      else rest
  }

  function Total(rows: seq<CreditLot>): int {
    if rows == [] then 0 else rows[0].remaining + Total(rows[1..])
  }

  /** `planAllocations`, from the row numbered `order` on. */
  function Plan(rows: seq<CreditLot>, need: int, order: nat): seq<PlannedAllocation> {
    if rows == [] || need == 0 then []
    else
      var amount := Min(rows[0].remaining, need);
      [PlannedAllocation(rows[0].id, amount, order, rows[0].expiresAt)] + Plan(rows[1..], need - amount, order + 1)
  }

  function PlanTotal(plan: seq<PlannedAllocation>): int {
    if plan == [] then 0 else plan[0].amount + PlanTotal(plan[1..])
  }

  /** What a plan takes from one lot. */
  function PlannedFor(plan: seq<PlannedAllocation>, lotId: nat): int {
    if plan == [] then 0
    else (if plan[0].lotId == lotId then plan[0].amount else 0) + PlannedFor(plan[1..], lotId)
  }

  /** The guarded `updateMany` decrement; `None` is a count of zero. */
  function Decrement(lots: seq<CreditLot>, lotId: nat, account: Account, amount: int): Option<seq<CreditLot>> {
    if lots == [] then None
    else if lots[0].id == lotId && lots[0].account == account && lots[0].remaining >= amount then
      Some([lots[0].(remaining := lots[0].remaining - amount)] + lots[1..])
    else
      match Decrement(lots[1..], lotId, account, amount)
      case None => None
      case Some(rest) => Some([lots[0]] + rest)
  }

  /** `persistAllocations` on the lot table: every guard must hit its row. */
  function Persist(lots: seq<CreditLot>, plan: seq<PlannedAllocation>, account: Account): Option<seq<CreditLot>>
    decreases plan
  {
    if plan == [] then Some(lots)
    else
      match Decrement(lots, plan[0].lotId, account, plan[0].amount)
      case None => None
      case Some(next) => Persist(next, plan[1..], account)
  }

  /** `persistAllocations` on the allocation table. */
  function AllocationRows(plan: seq<PlannedAllocation>, input: DebitInput, firstId: nat): (rows: seq<Allocation>)
    ensures |rows| == |plan|
    ensures forall k :: 0 <= k < |plan| ==>
      rows[k] == Allocation(firstId + k, input.debitEntryId, input.redemptionId, input.adjustmentId,
                            plan[k].lotId, plan[k].amount, plan[k].order)
  {
    seq(|plan|, k requires 0 <= k < |plan| =>
      Allocation(firstId + k, input.debitEntryId, input.redemptionId, input.adjustmentId,
                 plan[k].lotId, plan[k].amount, plan[k].order))
  }

  function PersistPlan(db: Db, plan: seq<PlannedAllocation>, input: DebitInput, onConflict: Error): Result<DebitOutcome> {
    match Persist(db.lots, plan, input.account)
    case None => Err(onConflict)
    case Some(lots) =>
      Ok(DebitOutcome(
        db.(lots := lots,
            allocations := db.allocations + AllocationRows(plan, input, db.nextId),
            nextId := db.nextId + |plan|),
        plan))
  }

  /** `allocateDebit`. */
  function AllocateDebit(db: Db, input: DebitInput): Result<DebitOutcome> {
    if !ValidTarget(input) then Err(ValidationError)
    else
      var rows := EligibleLots(db.lots, input.account, input.now, input.excluded);
      if Total(rows) < input.amount then Err(InsufficientBalance)
      else PersistPlan(db, Plan(rows, input.amount, 1), input, TransactionConflict)
  }

  predicate ExactLotMatches(l: CreditLot, lotId: nat, input: DebitInput) {
    l.account == input.account && l.id == lotId && l.remaining >= input.amount && l.expiresAt > input.now
  }

  function ExactLotRows(lots: seq<CreditLot>, lotId: nat, input: DebitInput): (rows: seq<CreditLot>)
    ensures forall l :: l in rows <==> l in lots && ExactLotMatches(l, lotId, input)
  {
    if lots == [] then []
    else
      assert lots == [lots[0]] + lots[1..];
      (if ExactLotMatches(lots[0], lotId, input) then [lots[0]] else []) + ExactLotRows(lots[1..], lotId, input)
  }

  /** `allocateDebitFromExactLot`. */
  function AllocateDebitFromExactLot(db: Db, lotId: nat, input: DebitInput): Result<DebitOutcome> {
    if !ValidTarget(input) then Err(ValidationError)
    else
      var rows := ExactLotRows(db.lots, lotId, input);
      if rows == [] then Err(ReviewRequired)
      else PersistPlan(db, Plan([rows[0]], input.amount, 1), input, ReviewRequired)
  }

  // ----- the plan

  lemma TotalTail(rows: seq<CreditLot>)
    requires rows != [] && forall l :: l in rows ==> l.remaining > 0
    ensures rows[0].remaining > 0 && forall l :: l in rows[1..] ==> l.remaining > 0
  {
    assert rows[0] in rows;
    assert forall l :: l in rows[1..] ==> l in rows;
  }

  /** A plan as one item and the plan of the rest. */
  lemma PlanStep(rows: seq<CreditLot>, need: int, order: nat) returns (rest: seq<PlannedAllocation>)
    requires rows != [] && need > 0
    ensures rest == Plan(rows[1..], need - Min(rows[0].remaining, need), order + 1)
    ensures Plan(rows, need, order)
         == [PlannedAllocation(rows[0].id, Min(rows[0].remaining, need), order, rows[0].expiresAt)] + rest
    ensures PlanTotal(Plan(rows, need, order)) == Min(rows[0].remaining, need) + PlanTotal(rest)
  {
    rest := Plan(rows[1..], need - Min(rows[0].remaining, need), order + 1);
    assert Plan(rows, need, order)[1..] == rest;
  }

  /**
   * Earliest expiry first: the plan covers exactly what can be covered, uses a prefix of
   * the rows without skipping any, numbers it from `order`, and empties every lot but the last.
   */
  lemma {:induction false} PlanShape(rows: seq<CreditLot>, need: int, order: nat)
    requires need >= 0
    requires forall l :: l in rows ==> l.remaining > 0
    ensures var plan := Plan(rows, need, order);
      && PlanTotal(plan) == Min(need, Total(rows))
      && |plan| <= |rows|
      && (forall k :: 0 <= k < |plan| ==>
            && plan[k].lotId == rows[k].id && plan[k].expiresAt == rows[k].expiresAt
            && plan[k].order == order + k && 0 < plan[k].amount <= rows[k].remaining)
      && (forall k :: 0 <= k < |plan| - 1 ==> plan[k].amount == rows[k].remaining)
      && (need > 0 && rows != [] ==> plan != [])
    ensures Total(rows) >= 0
  {
    if rows != [] {
      TotalTail(rows);
      var amount := Min(rows[0].remaining, need);
      PlanShape(rows[1..], need - amount, order + 1);
      if need > 0 {
        var rest := PlanStep(rows, need, order);
        hide Plan, PlanTotal;
        var plan := Plan(rows, need, order);
        forall k | 0 < k < |plan| ensures plan[k] == rest[k - 1] && rows[k] == rows[1..][k - 1] {
        }
      }
    }
  }

  // ----- the guarded decrement

  function Lower(lots: seq<CreditLot>, i: nat, amount: int): seq<CreditLot>
    requires i < |lots|
  {
    lots[i := lots[i].(remaining := lots[i].remaining - amount)]
  }

  lemma {:induction false} LowerHolding(lots: seq<CreditLot>, i: nat, amount: int, account: Account)
    requires i < |lots|
    ensures Holding(Lower(lots, i, amount), account)
         == Holding(lots, account) - if account == lots[i].account then amount else 0
  {
    if i == 0 {
      assert Lower(lots, 0, amount)[1..] == lots[1..];
    } else {
      assert Lower(lots, i, amount)[1..] == Lower(lots[1..], i - 1, amount);
      LowerHolding(lots[1..], i - 1, amount, account);
    }
  }

  /** A decrement that hits lowers one row that satisfied its guard. */
  lemma {:induction false} DecrementEffect(lots: seq<CreditLot>, lotId: nat, account: Account, amount: int) returns (i: nat)
    requires Decrement(lots, lotId, account, amount).Some?
    ensures i < |lots| && lots[i].id == lotId && lots[i].account == account && lots[i].remaining >= amount
    ensures Decrement(lots, lotId, account, amount).value == Lower(lots, i, amount)
  {
    if lots[0].id == lotId && lots[0].account == account && lots[0].remaining >= amount {
      i := 0;
    } else {
      var k := DecrementEffect(lots[1..], lotId, account, amount);
      i := k + 1;
    }
  }

  /** The decrement hits exactly when its row is there. */
  lemma {:induction false} DecrementHits(lots: seq<CreditLot>, i: nat, amount: int)
    requires i < |lots| && lots[i].remaining >= amount
    ensures Decrement(lots, lots[i].id, lots[i].account, amount).Some?
  {
    if i > 0 {
      DecrementHits(lots[1..], i - 1, amount);
    }
  }

  /**
   * A persisted plan moves each lot by what the plan took from it, never below zero,
   * and the account by the plan's total.
   */
  lemma {:induction false} PersistEffect(lots: seq<CreditLot>, plan: seq<PlannedAllocation>, account: Account)
    requires Ordered(lots)
    requires forall i :: 0 <= i < |lots| ==> lots[i].remaining >= 0
    requires Persist(lots, plan, account).Some?
    ensures var after := Persist(lots, plan, account).value;
      && SameRows(lots, after) && Ordered(after)
      && (forall i :: 0 <= i < |lots| ==>
            0 <= after[i].remaining == lots[i].remaining - PlannedFor(plan, lots[i].id))
    decreases plan
  {
    if plan != [] {
      var k := DecrementEffect(lots, plan[0].lotId, account, plan[0].amount);
      var next := Lower(lots, k, plan[0].amount);
      SameRowsKeepsOrder(lots, next);
      PersistEffect(next, plan[1..], account);
      forall i | 0 <= i < |lots| && i != k ensures lots[i].id != plan[0].lotId {
        if i < k { assert lots[i].id != lots[k].id; } else { assert lots[k].id != lots[i].id; }
      }
    }
  }

  lemma {:induction false} PersistHolding(
    lots: seq<CreditLot>, plan: seq<PlannedAllocation>, account: Account, a: Account)
    requires Persist(lots, plan, account).Some?
    ensures Holding(Persist(lots, plan, account).value, a)
         == Holding(lots, a) - if a == account then PlanTotal(plan) else 0
    decreases plan
  {
    if plan != [] {
      var k := DecrementEffect(lots, plan[0].lotId, account, plan[0].amount);
      LowerHolding(lots, k, plan[0].amount, a);
      PersistHolding(Lower(lots, k, plan[0].amount), plan[1..], account, a);
    }
  }

  // ----- the walk over the whole table

  /** The debit as one pass over the lot table: the reference the service is compared with. */
  function Walk(lots: seq<CreditLot>, account: Account, now: int, excluded: set<nat>, need: int): seq<CreditLot> {
    if lots == [] then []
    else
      var taken := if Eligible(lots[0], account, now, excluded) then Min(lots[0].remaining, need) else 0;
      [lots[0].(remaining := lots[0].remaining - taken)] + Walk(lots[1..], account, now, excluded, need - taken)
  }

  lemma {:induction false} PersistFrame(head: CreditLot, lots: seq<CreditLot>, plan: seq<PlannedAllocation>, account: Account)
    requires forall k :: 0 <= k < |plan| ==> plan[k].lotId != head.id
    ensures Persist([head] + lots, plan, account)
         == match Persist(lots, plan, account)
            case None => None
            case Some(rest) => Some([head] + rest)
    decreases plan
  {
    if plan != [] {
      var all := [head] + lots;
      assert all[1..] == lots;
      match Decrement(lots, plan[0].lotId, account, plan[0].amount)
      case None =>
      case Some(next) => PersistFrame(head, next, plan[1..], account);
    }
  }

  lemma {:induction false} WalkNothing(lots: seq<CreditLot>, account: Account, now: int, excluded: set<nat>)
    ensures Walk(lots, account, now, excluded, 0) == lots
  {
    if lots != [] {
      WalkNothing(lots[1..], account, now, excluded);
    }
  }

  /** A walk changes nothing but what remains of lots, and takes none below zero. */
  lemma {:induction false} WalkRows(lots: seq<CreditLot>, account: Account, now: int, excluded: set<nat>, need: int)
    requires need >= 0
    ensures SameRows(lots, Walk(lots, account, now, excluded, need))
    ensures var after := Walk(lots, account, now, excluded, need);
      forall i :: 0 <= i < |lots| && lots[i].remaining >= 0 ==> after[i].remaining >= 0
  {
    if lots != [] {
      var taken := if Eligible(lots[0], account, now, excluded) then Min(lots[0].remaining, need) else 0;
      WalkRows(lots[1..], account, now, excluded, need - taken);
    }
  }

  /** The first row of a walk, and the walk over the rest. */
  lemma WalkHead(lots: seq<CreditLot>, account: Account, now: int, excluded: set<nat>, need: int)
    requires lots != []
    ensures var taken := if Eligible(lots[0], account, now, excluded) then Min(lots[0].remaining, need) else 0;
      Walk(lots, account, now, excluded, need)
      == [lots[0].(remaining := lots[0].remaining - taken)] + Walk(lots[1..], account, now, excluded, need - taken)
    ensures !Eligible(lots[0], account, now, excluded) ==>
      EligibleLots(lots, account, now, excluded) == EligibleLots(lots[1..], account, now, excluded)
  {
  }

  /** With no rows or no need left there is nothing to plan and nothing to walk. */
  lemma NothingToTake(lots: seq<CreditLot>, account: Account, now: int, excluded: set<nat>, need: int, order: nat)
    requires lots == [] || need == 0
    ensures Persist(lots, Plan(EligibleLots(lots, account, now, excluded), need, order), account)
         == Some(Walk(lots, account, now, excluded, need))
  {
    if need == 0 {
      WalkNothing(lots, account, now, excluded);
    }
  }

  lemma OrderedTail(lots: seq<CreditLot>)
    requires Ordered(lots) && lots != []
    ensures Ordered(lots[1..])
  {
    hide Before;
  }

  /** Planning over the locked rows and persisting the plan is the one-pass walk; every guard hits its row. */
  lemma {:induction false} ServiceIsWalk(
    lots: seq<CreditLot>, account: Account, now: int, excluded: set<nat>, need: int, order: nat)
    requires Ordered(lots) && need >= 0
    ensures Persist(lots, Plan(EligibleLots(lots, account, now, excluded), need, order), account)
         == Some(Walk(lots, account, now, excluded, need))
  {
    hide Ordered, Plan, Persist, Walk, EligibleLots;
    if lots == [] || need == 0 {
      NothingToTake(lots, account, now, excluded, need, order);
    } else {
      var head, rest := lots[0], lots[1..];
      var taken := if Eligible(head, account, now, excluded) then Min(head.remaining, need) else 0;
      var restOrder := if Eligible(head, account, now, excluded) then order + 1 else order;
      var restPlan := Plan(EligibleLots(rest, account, now, excluded), need - taken, restOrder);
      WalkHead(lots, account, now, excluded, need);
      OrderedTail(lots);
      ServiceIsWalk(rest, account, now, excluded, need - taken, restOrder);
      PlanAvoids(lots, account, now, excluded, need - taken, restOrder);
      if Eligible(head, account, now, excluded) {
        PlanHead(lots, account, now, excluded, need, order);
        PersistHead(lots, account, PlannedAllocation(head.id, taken, order, head.expiresAt), restPlan);
      } else {
        assert lots == [head] + rest;
        PersistFrame(head, rest, restPlan, account);
      }
    }
  }

  lemma PersistHead(lots: seq<CreditLot>, account: Account, item: PlannedAllocation, restPlan: seq<PlannedAllocation>)
    requires lots != [] && lots[0].id == item.lotId && lots[0].account == account && lots[0].remaining >= item.amount
    requires forall k :: 0 <= k < |restPlan| ==> restPlan[k].lotId != lots[0].id
    requires Persist(lots[1..], restPlan, account).Some?
    ensures Persist(lots, [item] + restPlan, account)
         == Some([lots[0].(remaining := lots[0].remaining - item.amount)] + Persist(lots[1..], restPlan, account).value)
  {
    assert ([item] + restPlan)[1..] == restPlan;
    PersistFrame(lots[0].(remaining := lots[0].remaining - item.amount), lots[1..], restPlan, account);
  }

  lemma PlanAvoids(lots: seq<CreditLot>, account: Account, now: int, excluded: set<nat>, need: int, order: nat)
    requires Ordered(lots) && lots != [] && need >= 0
    ensures var plan := Plan(EligibleLots(lots[1..], account, now, excluded), need, order);
      forall k :: 0 <= k < |plan| ==> plan[k].lotId != lots[0].id
  {
    var rows := EligibleLots(lots[1..], account, now, excluded);
    PlanShape(rows, need, order);
    var plan := Plan(rows, need, order);
    forall k | 0 <= k < |plan| ensures plan[k].lotId != lots[0].id {
      assert rows[k] in lots[1..];
    }
  }

  lemma PlanHead(lots: seq<CreditLot>, account: Account, now: int, excluded: set<nat>, need: int, order: nat)
    requires lots != [] && need > 0 && Eligible(lots[0], account, now, excluded)
    ensures var taken := Min(lots[0].remaining, need);
      Plan(EligibleLots(lots, account, now, excluded), need, order)
      == [PlannedAllocation(lots[0].id, taken, order, lots[0].expiresAt)]
         + Plan(EligibleLots(lots[1..], account, now, excluded), need - taken, order + 1)
  {
  }

  // ----- the walk against the aggregate

  lemma {:induction false} AvailableLater(lots: seq<CreditLot>, account: Account, now: int, later: int)
    requires now <= later
    ensures ActiveBalance(lots, account, later) <= ActiveBalance(lots, account, now)
  {
    if lots != [] {
      AvailableLater(lots[1..], account, now, later);
    }
  }

  /** Lots that all outlive `later` are worth the same at both instants. */
  lemma {:induction false} AvailableSame(lots: seq<CreditLot>, account: Account, now: int, later: int)
    requires now <= later
    requires forall i :: 0 <= i < |lots| ==> lots[i].expiresAt > later
    ensures ActiveBalance(lots, account, later) == ActiveBalance(lots, account, now)
  {
    if lots != [] {
      AvailableSame(lots[1..], account, now, later);
    }
  }

  /**
   * What a debit leaves at every later instant: it costs the future only what the lots
   * expiring sooner could not pay.
   */
  lemma {:induction false} WalkBalance(lots: seq<CreditLot>, account: Account, now: int, need: int, later: int)
    requires Ordered(lots) && now <= later
    requires 0 <= need <= ActiveBalance(lots, account, now)
    ensures ActiveBalance(Walk(lots, account, now, {}, need), account, later)
         == Min(ActiveBalance(lots, account, later), ActiveBalance(lots, account, now) - need)
  {
    if lots != [] {
      var head, rest := lots[0], lots[1..];
      var after := Walk(lots, account, now, {}, need);
      if Eligible(head, account, now, {}) {
        var taken := Min(head.remaining, need);
        assert after[1..] == Walk(rest, account, now, {}, need - taken);
        AvailableLater(rest, account, now, later);
        if head.expiresAt > later {
          forall i | 0 <= i < |rest| ensures rest[i].expiresAt > later {
            assert Before(lots[0], lots[i + 1]);
          }
          AvailableSame(rest, account, now, later);
        }
        WalkBalance(rest, account, now, need - taken, later);
      } else {
        assert after[1..] == Walk(rest, account, now, {}, need);
        WalkBalance(rest, account, now, need, later);
      }
    } 
  }

  lemma {:induction false} WalkLeavesOthers(
    lots: seq<CreditLot>, account: Account, now: int, excluded: set<nat>, need: int, other: Account, at: int)
    requires account != other
    ensures ActiveBalance(Walk(lots, account, now, excluded, need), other, at) == ActiveBalance(lots, other, at)
  {
    if lots != [] {
      var taken := if Eligible(lots[0], account, now, excluded) then Min(lots[0].remaining, need) else 0;
      assert Walk(lots, account, now, excluded, need)[1..] == Walk(lots[1..], account, now, excluded, need - taken);
      WalkLeavesOthers(lots[1..], account, now, excluded, need - taken, other, at);
    }
  }

  /**
   * The lot walk agrees with the aggregate. For a valid target, a debit without exclusions
   * succeeds exactly when the active balance at the same instant covers it, lowers that
   * balance by exactly the amount, and leaves every other account alone. It never reports a conflict.
   */
  lemma DebitAgreesWithBalance(db: Db, input: DebitInput)
    requires Ordered(db.lots)
    requires ValidTarget(input) && input.excluded == {}
    ensures var before := ActiveBalance(db.lots, input.account, input.now);
      match AllocateDebit(db, input)
      case Err(e) => e == InsufficientBalance && before < input.amount
      case Ok(out) =>
        && before >= input.amount
        && PlanTotal(out.plan) == input.amount
        && ActiveBalance(out.db.lots, input.account, input.now) == before - input.amount
        && (forall other, at :: other != input.account ==>
              ActiveBalance(out.db.lots, other, at) == ActiveBalance(db.lots, other, at))
  {
    var rows := EligibleLots(db.lots, input.account, input.now, {});
    if Total(rows) >= input.amount {
      ServiceIsWalk(db.lots, input.account, input.now, {}, input.amount, 1);
      PlanShape(rows, input.amount, 1);
      WalkBalance(db.lots, input.account, input.now, input.amount, input.now);
      var after := Walk(db.lots, input.account, input.now, {}, input.amount);
      forall other, at | other != input.account
        ensures ActiveBalance(after, other, at) == ActiveBalance(db.lots, other, at)
      {
        WalkLeavesOthers(db.lots, input.account, input.now, {}, input.amount, other, at);
      }
    }
  }

  /**
   * With exclusions the same holds of the balance outside the excluded lots: a debit needs a positive amount, exactly
   * one of the two targets, and enough to spend; what it lacks decides its error.
   */
  lemma DebitSucceedsExactlyWhenCovered(db: Db, input: DebitInput)
    requires Ordered(db.lots)
    ensures var valid := input.amount > 0 && (input.redemptionId.Some? <==> input.adjustmentId.None?);
      var covered := Available(db.lots, input.account, input.now, input.excluded) >= input.amount;
      && (AllocateDebit(db, input).Ok? <==> valid && covered)
      && (!valid ==> AllocateDebit(db, input) == Err(ValidationError))
      && (valid && !covered ==> AllocateDebit(db, input) == Err(InsufficientBalance))
  {
    if input.amount >= 0 {
      ServiceIsWalk(db.lots, input.account, input.now, input.excluded, input.amount, 1);
    }
  }
}
