/** The ledger transactions: credit and debit adjustments and redemption settlement. */
module LedgerOperations {
  import opened Wrappers
  import opened Arithmetic
  import opened LedgerTables
  import opened LotAllocation
  import Calendar

  // ----- adjustments

  /** The CREDIT branch of `createAdjustment`: entry, adjustment row, lot. */
  function CreditAdjustment(db: Db, account: Account, amount: int, effectiveAt: int, expiresAt: int): Result<Db> {
    if amount <= 0 then Err(ValidationError)
    else
      Ok(db.(
        entries := db.entries + [Entry(db.nextId, account, ADJUSTMENT, CREDIT, amount)],
        lots := Insert(db.lots, CreditLot(db.nextId + 2, account, db.nextId, amount, amount, effectiveAt, expiresAt)),
        nextId := db.nextId + 3))
  }

  /** The DEBIT branch of `createAdjustment`: entry, adjustment row, allocations. */
  function DebitAdjustment(db: Db, account: Account, amount: int, now: int): Result<Db> {
    var posted := db.(
      entries := db.entries + [Entry(db.nextId, account, ADJUSTMENT, DEBIT, amount)],
      nextId := db.nextId + 2);
    match AllocateDebit(posted, DebitInput(account, db.nextId, amount, now, None, Some(db.nextId + 1), {}))
    case Err(e) => Err(e)
    case Ok(out) => Ok(out.db)
  }

  /** A credit adjustment raises its account's balance by the amount, exactly at the instants before its lot expires. */
  lemma CreditAdjustmentRaises(
    db: Db, account: Account, amount: int, effectiveAt: int, expiresAt: int, other: Account, at: int)
    ensures CreditAdjustment(db, account, amount, effectiveAt, expiresAt).Ok? <==> amount > 0
    ensures amount > 0 ==>
      ActiveBalance(CreditAdjustment(db, account, amount, effectiveAt, expiresAt).value.lots, other, at)
      == ActiveBalance(db.lots, other, at) + if other == account && at < expiresAt then amount else 0
  {
    hide Insert, ActiveBalance;
    InsertBalance(db.lots, CreditLot(db.nextId + 2, account, db.nextId, amount, amount, effectiveAt, expiresAt), other, at);
  }

  /** A debit adjustment succeeds iff the balance covers it, and costs later instants only what sooner lots could not pay. */
  lemma DebitAdjustmentLowers(db: Db, account: Account, amount: int, now: int, later: int)
    requires Ordered(db.lots) && now <= later
    ensures DebitAdjustment(db, account, amount, now).Ok? <==> 0 < amount <= ActiveBalance(db.lots, account, now)
    ensures DebitAdjustment(db, account, amount, now).Ok? ==>
      ActiveBalance(DebitAdjustment(db, account, amount, now).value.lots, account, later)
      == Min(ActiveBalance(db.lots, account, later), ActiveBalance(db.lots, account, now) - amount)
  {
    var posted := db.(
      entries := db.entries + [Entry(db.nextId, account, ADJUSTMENT, DEBIT, amount)], nextId := db.nextId + 2);
    var input := DebitInput(account, db.nextId, amount, now, None, Some(db.nextId + 1), {});
    DebitSucceedsExactlyWhenCovered(posted, input);
    if AllocateDebit(posted, input).Ok? {
      ServiceIsWalk(db.lots, account, now, {}, amount, 1);
      WalkBalance(db.lots, account, now, amount, later);
    }
  }

  // ----- redemption settlement

  datatype SettlementInput = SettlementInput(
    account: Account, redemptionId: nat, basket: int, redeemed: int, occurredAt: int, now: int, earnRateBps: int)

  datatype SettlementOutcome = SettlementOutcome(
    db: Db, earned: int, netPaid: int, remainingBalance: int, plan: seq<PlannedAllocation>)

  /** `calculateEarnAmountKobo`: basis points of what was paid, rounded up. */
  function EarnAmount(paid: int, rateBps: int): Option<int> {
    if paid < 0 || rateBps < 0 then None else Some((paid * rateBps + 9_999) / 10_000)
  }

  /** The EARN entry and its lot, when anything was earned. */
  function PostEarned(db: Db, account: Account, earned: int, occurredAt: int, expiresAt: int): Db {
    if earned <= 0 then db
    else
      db.(
        entries := db.entries + [Entry(db.nextId, account, EARN, CREDIT, earned)],
        lots := Insert(db.lots, CreditLot(db.nextId + 1, account, db.nextId, earned, earned, occurredAt, expiresAt)),
        nextId := db.nextId + 2)
  }

  /** The redeem half of a settlement: the REDEEM entry and its allocations. */
  function Redeem(db: Db, input: SettlementInput): Result<DebitOutcome> {
    AllocateDebit(
      db.(entries := db.entries + [Entry(db.nextId, input.account, REDEEM, DEBIT, input.redeemed)],
          nextId := db.nextId + 1),
      DebitInput(input.account, db.nextId, input.redeemed, input.now, Some(input.redemptionId), None, {}))
  }

  /** `executeRedemptionSettlement`, given when the lot it may create expires. */
  function SettleWithExpiry(db: Db, input: SettlementInput, expiresAt: int): Result<SettlementOutcome> {
    var netPaid := input.basket - input.redeemed;
    if input.basket < 0 || input.redeemed < 0 || netPaid < 0 then Err(SettlementRejected)
    else
      match Redeem(db, input)
      case Err(e) => Err(e)
      case Ok(out) =>
        var earned := EarnAmount(netPaid, input.earnRateBps);
        if PlanTotal(out.plan) != input.redeemed || earned.None? then Err(SettlementRejected)
        else
          var after := PostEarned(out.db, input.account, earned.value, input.occurredAt, expiresAt);
          Ok(SettlementOutcome(after, earned.value, netPaid,
                               ActiveBalance(after.lots, input.account, input.now), out.plan))
  }

  const EARN_EXPIRY_MONTHS := 12

  /** `executeRedemptionSettlement`. */
  function Settle(db: Db, input: SettlementInput): Result<SettlementOutcome> {
    SettleWithExpiry(db, input, Calendar.AddUtcMonthsClamped(input.occurredAt, EARN_EXPIRY_MONTHS))
  }

  // ----- the redemption policy

  /** Division of the source language's big integers drops the fraction. */
  function Truncated(a: int, b: nat): int
    requires b > 0
  {
    if a >= 0 then a / b else -((-a) / b)
  }

  /** `maximumAllowedKobo` of `RedemptionPolicyService.evaluate`. */
  function MaximumAllowed(basket: int, activeBalance: int, maxBasketPercent: int): int {
    Min(activeBalance, Truncated(basket * maxBasketPercent, 100))
  }

  // ----- exact rounding

  /** The earned amount is the least integer not below rate * paid / 10000. */
  lemma EarnRoundsUp(paid: int, rateBps: int)
    requires paid >= 0 && rateBps >= 0
    ensures var earned := EarnAmount(paid, rateBps).value;
      (earned - 1) * 10_000 < paid * rateBps <= earned * 10_000
  {
  }

  /** At most 100% earns at most what was paid; more paid earns no less; nothing paid earns nothing. */
  lemma EarnBounds(paid: int, more: int, rateBps: int)
    requires 0 <= paid <= more && 0 <= rateBps
    ensures EarnAmount(paid, rateBps).Some? && EarnAmount(more, rateBps).Some?
    ensures 0 <= EarnAmount(paid, rateBps).value <= EarnAmount(more, rateBps).value
    ensures rateBps <= 10_000 ==> EarnAmount(paid, rateBps).value <= paid
    ensures EarnAmount(paid, rateBps).value == 0 <==> paid == 0 || rateBps == 0
  {
    assert paid * rateBps <= more * rateBps;
    if rateBps <= 10_000 {
      assert paid * rateBps <= paid * 10_000;
    }
    if paid > 0 && rateBps > 0 {
      assert paid * rateBps >= 1;
    }
  }

  /** The percentage cap lies between zero and the basket, on whichever side of zero the basket is. */
  lemma CapWithinBasket(basket: int, percent: int)
    requires 0 <= percent <= 100
    ensures basket >= 0 ==> 0 <= Truncated(basket * percent, 100) <= basket
    ensures basket <= 0 ==> basket <= Truncated(basket * percent, 100) <= 0
  {
    PercentOf(basket, percent);
    var product := basket * percent;
    if basket >= 0 {
      assert 0 <= product <= 100 * basket;
    } else {
      assert 100 * basket <= product <= 0;
    }
  }

  lemma PercentOf(basket: int, percent: int)
    requires 0 <= percent <= 100
    ensures basket >= 0 ==> 0 <= basket * percent <= 100 * basket
    ensures basket <= 0 ==> 100 * basket <= basket * percent <= 0
  {
    if basket >= 0 {
      Monotone(0, percent, basket);
      Monotone(percent, 100, basket);
    } else {
      Monotone(0, percent, -basket);
      Monotone(percent, 100, -basket);
      assert basket * percent == -(percent * -basket);
    }
  }

  /**
   * Policy implies settlement. Any amount the policy allows settles without an error, whatever the
   * occurrence date; what was paid and what was redeemed make up the basket; the
   * credit earned is at most the net paid and at most what the whole basket would have earned;
   * and the reported balance is the old one less the redeemed amount, plus the earned amount when its lot is live.
   */
  lemma PolicyImpliesSettlement(db: Db, input: SettlementInput, maxBasketPercent: int)
    requires Ordered(db.lots)
    requires 0 <= maxBasketPercent <= 100 && 0 <= input.earnRateBps <= 10_000
    requires 0 < input.redeemed
      <= MaximumAllowed(input.basket, ActiveBalance(db.lots, input.account, input.now), maxBasketPercent)
    ensures Settle(db, input).Ok?
    ensures var out := Settle(db, input).value;
      var live := Calendar.AddUtcMonthsClamped(input.occurredAt, EARN_EXPIRY_MONTHS) > input.now;
      && out.netPaid + input.redeemed == input.basket
      && PlanTotal(out.plan) == input.redeemed
      && 0 <= out.earned <= out.netPaid
      && out.earned <= EarnAmount(input.basket, input.earnRateBps).value
      && out.remainingBalance
         == ActiveBalance(db.lots, input.account, input.now) - input.redeemed + (if live then out.earned else 0)
  {
    hide Calendar.AddUtcMonthsClamped, Truncated, EarnAmount, AllocateDebit, Insert, ActiveBalance, PlanTotal, Ordered;
    CapWithinBasket(input.basket, maxBasketPercent);
    var netPaid := input.basket - input.redeemed;
    EarnBounds(netPaid, input.basket, input.earnRateBps);
    var posted := db.(
      entries := db.entries + [Entry(db.nextId, input.account, REDEEM, DEBIT, input.redeemed)],
      nextId := db.nextId + 1);
    var debit := DebitInput(input.account, db.nextId, input.redeemed, input.now, Some(input.redemptionId), None, {});
    DebitAgreesWithBalance(posted, debit);
    var redeemed := Redeem(db, input).value.db;
    var earned := EarnAmount(netPaid, input.earnRateBps).value;
    if earned > 0 {
      InsertBalance(
        redeemed.lots,
        CreditLot(redeemed.nextId + 1, input.account, redeemed.nextId, earned, earned, input.occurredAt,
                  Calendar.AddUtcMonthsClamped(input.occurredAt, EARN_EXPIRY_MONTHS)),
        input.account, input.now);
    }
  }

  /** A settlement goes through exactly when it redeems something the basket and the balance both cover. */
  lemma SettlesExactlyWhenCovered(db: Db, input: SettlementInput)
    requires Ordered(db.lots)
    ensures Settle(db, input).Ok? <==>
      && 0 < input.redeemed <= input.basket && input.redeemed <= ActiveBalance(db.lots, input.account, input.now)
      && 0 <= input.earnRateBps
  {
    hide Calendar.AddUtcMonthsClamped, AllocateDebit, ActiveBalance, Ordered, PostEarned, PlanTotal;
    var posted := db.(
      entries := db.entries + [Entry(db.nextId, input.account, REDEEM, DEBIT, input.redeemed)],
      nextId := db.nextId + 1);
    var debit := DebitInput(input.account, db.nextId, input.redeemed, input.now, Some(input.redemptionId), None, {});
    DebitNeedsTarget(posted, debit);
    if ValidTarget(debit) {
      DebitAgreesWithBalance(posted, debit);
    }
  }

  lemma DebitNeedsTarget(db: Db, input: DebitInput)
    ensures AllocateDebit(db, input).Ok? ==> ValidTarget(input)
  {
  }

  /** Twelve calendar months on: the same date and time of day, or the last day of a shorter month. */
  predicate YearLater(t: int, later: int) {
    && Calendar.MonthIndex(Calendar.Day(later)) == Calendar.MonthIndex(Calendar.Day(t)) + 12
    && Calendar.UtcDate(later) == Min(Calendar.UtcDate(t), Calendar.MonthLength(Calendar.MonthIndex(Calendar.Day(later))))
    && Calendar.TimeInDay(later) == Calendar.TimeInDay(t)
  }

  /** The lot a settlement creates: full, earned when the purchase occurred, and good for a year. */
  ghost predicate EarnedLot(lot: CreditLot, input: SettlementInput, earned: int, entryId: nat) {
    && lot.account == input.account && lot.earnEntryId == entryId
    && lot.original == lot.remaining == earned && lot.earnedAt == input.occurredAt
    && (!Calendar.LegacyYear(Calendar.UtcFullYear(input.occurredAt) + 1) ==> YearLater(input.occurredAt, lot.expiresAt))
  }

  /** The redeem half leaves the same lots with less in them and one REDEEM entry. */
  lemma RedeemRows(db: Db, input: SettlementInput)
    requires Ordered(db.lots) && Redeem(db, input).Ok?
    ensures var out := Redeem(db, input).value;
      && SameRows(db.lots, out.db.lots)
      && ActiveBalance(out.db.lots, input.account, input.now)
         == ActiveBalance(db.lots, input.account, input.now) - input.redeemed
      && out.db.entries == db.entries + [Entry(db.nextId, input.account, REDEEM, DEBIT, input.redeemed)]
      && out.db.nextId > db.nextId
  {
    var debit := DebitInput(input.account, db.nextId, input.redeemed, input.now, Some(input.redemptionId), None, {});
    var posted := db.(
      entries := db.entries + [Entry(db.nextId, input.account, REDEEM, DEBIT, input.redeemed)],
      nextId := db.nextId + 1);
    DebitAgreesWithBalance(posted, debit);
    hide Ordered, Persist, Plan, ActiveBalance, EligibleLots;
    ServiceIsWalk(db.lots, input.account, input.now, {}, input.redeemed, 1);
    WalkRows(db.lots, input.account, input.now, {}, input.redeemed);
  }

  lemma GoodForAYear(t: int)
    requires !Calendar.LegacyYear(Calendar.UtcFullYear(t) + 1)
    ensures YearLater(t, Calendar.AddUtcMonthsClamped(t, 12))
  {
    hide Calendar.MonthIndex, Calendar.MonthLength, Calendar.UtcDate, Calendar.Day, Calendar.TimeInDay,
         Calendar.AddUtcMonthsClamped, Calendar.TargetYear, Calendar.UtcFullYear;
    Calendar.YearAhead(t);
    Calendar.ClampedMeaning(t, 12);
  }

  /**
   * What a settlement leaves behind. It earns the rate on exactly what was paid beyond the redemption, rounded up to a
   * whole kobo. The lots it had hold the redeemed amount less; the ledger has one REDEEM entry more and, when anything was
   * earned, exactly one EARN entry and one lot of that amount.
   */
  lemma SettlementRows(db: Db, input: SettlementInput) returns (kept: seq<CreditLot>, lot: Option<CreditLot>)
    requires Ordered(db.lots) && Settle(db, input).Ok?
    ensures var out := Settle(db, input).value;
      var redeem := Entry(db.nextId, input.account, REDEEM, DEBIT, input.redeemed);
      && out.netPaid == input.basket - input.redeemed
      && (out.earned - 1) * 10_000 < out.netPaid * input.earnRateBps <= out.earned * 10_000
      && SameRows(db.lots, kept)
      && ActiveBalance(kept, input.account, input.now)
         == ActiveBalance(db.lots, input.account, input.now) - input.redeemed
      && (lot.Some? <==> out.earned > 0)
      && (lot.None? ==> out.db.entries == db.entries + [redeem] && out.db.lots == kept)
      && (lot.Some? ==>
            && |out.db.entries| == |db.entries| + 2
            && var earn := out.db.entries[|db.entries| + 1];
            && out.db.entries == db.entries + [redeem, earn] && earn.id > redeem.id
            && earn == Entry(earn.id, input.account, EARN, CREDIT, out.earned)
            && multiset(out.db.lots) == multiset(kept) + multiset{lot.value}
            && EarnedLot(lot.value, input, out.earned, earn.id))
  {
    hide Ordered, Redeem, ActiveBalance, Insert, SameRows, PlanTotal, EarnAmount, YearLater,
         Calendar.AddUtcMonthsClamped, Calendar.LegacyYear, Calendar.UtcFullYear;
    var out := Settle(db, input).value;
    RedeemRows(db, input);
    var redeemed := Redeem(db, input).value.db;
    RatesAreNonNegative(input.basket - input.redeemed, input.earnRateBps);
    EarnRoundsUp(input.basket - input.redeemed, input.earnRateBps);
    kept, lot := redeemed.lots, None;
    if out.earned > 0 {
      if !Calendar.LegacyYear(Calendar.UtcFullYear(input.occurredAt) + 1) {
        GoodForAYear(input.occurredAt);
      }
      lot := Some(CreditLot(redeemed.nextId + 1, input.account, redeemed.nextId, out.earned, out.earned, input.occurredAt,
                            Calendar.AddUtcMonthsClamped(input.occurredAt, 12)));
    }
  }

  lemma RatesAreNonNegative(paid: int, rateBps: int)
    ensures EarnAmount(paid, rateBps).Some? <==> paid >= 0 && rateBps >= 0
  {
  }

  /** Division drops the fraction toward zero, on either side of it. */
  lemma TruncatedTowardZero(a: int, b: nat)
    requires b > 0
    ensures a >= 0 ==> Truncated(a, b) * b <= a < Truncated(a, b) * b + b
    ensures a <= 0 ==> Truncated(a, b) * b - b < a <= Truncated(a, b) * b
  {
    var q := (if a >= 0 then a else -a) / b;
    assert q * b <= (if a >= 0 then a else -a) < q * b + b;
    assert (-q) * b == -(q * b);
  }

  /** The policy's maximum is exactly the largest amount within the balance and the percentage of the basket. */
  lemma AllowedExactly(basket: int, activeBalance: int, percent: int, amount: int)
    requires amount > 0
    ensures amount <= MaximumAllowed(basket, activeBalance, percent) <==>
      amount <= activeBalance && 100 * amount <= basket * percent
  {
    var product := basket * percent;
    assert amount <= Truncated(product, 100) <==> 100 * amount <= product;
  }
}
