/** The rows of the credit ledger, and the sums the services take over them. */
module LedgerTables {
  import opened Wrappers

  datatype Result<+T> = Ok(value: T) | Err(error: Error)

  datatype Error =
    | ValidationError
    | InsufficientBalance
    | TransactionConflict
    | ReviewRequired
    | SettlementRejected

  /** A customer of a tenant; every ledger query filters on both columns. */
  datatype Account = Account(tenantId: nat, customerId: nat)

  /** A credit lot; instants are milliseconds since the epoch and amounts are in kobo. */
  datatype CreditLot = CreditLot(
    id: nat, account: Account, earnEntryId: nat,
    original: int, remaining: int, earnedAt: int, expiresAt: int)

  datatype EntryType = EARN | REDEEM | REVERSAL | ADJUSTMENT | EXPIRY

  datatype Direction = CREDIT | DEBIT

  datatype Entry = Entry(id: nat, account: Account, kind: EntryType, direction: Direction, amount: int)

  datatype Allocation = Allocation(
    id: nat, debitEntryId: nat, redemptionId: Option<nat>, adjustmentId: Option<nat>,
    lotId: nat, amount: int, order: nat)

  datatype Restoration = Restoration(allocationId: nat, reversalEntryId: nat, amount: int)

  datatype Expiry = Expiry(lotId: nat, entryId: nat, amount: int, expiredAt: int)

  /** The whole ledger. `nextId` stands for the generator of fresh row ids. */
  datatype Db = Db(
    lots: seq<CreditLot>, entries: seq<Entry>, allocations: seq<Allocation>,
    restorations: seq<Restoration>, expiries: seq<Expiry>, nextId: nat)

  const EMPTY_DB := Db([], [], [], [], [], 0)

  // ----- the order of the lot table

  /** ORDER BY "expiresAt" ASC, "earnedAt" ASC, "id" ASC. */
  predicate Before(a: CreditLot, b: CreditLot) {
    || a.expiresAt < b.expiresAt
    || (a.expiresAt == b.expiresAt && a.earnedAt < b.earnedAt)
    || (a.expiresAt == b.expiresAt && a.earnedAt == b.earnedAt && a.id < b.id)
  }

  /**
   * The lot table is held in the order every query over it asks for; ids are a key.
   * Since the order is total on distinct ids, a set of rows has exactly one such listing.
   */
  ghost predicate Ordered(lots: seq<CreditLot>) {
    forall i, j :: 0 <= i < j < |lots| ==> Before(lots[i], lots[j]) && lots[i].id != lots[j].id
  }

  lemma IdsAreKeys(lots: seq<CreditLot>, i: nat, k: nat)
    requires Ordered(lots) && i < |lots| && k < |lots| && i != k
    ensures lots[i].id != lots[k].id
  {
    hide Before;
  }

  /** Row insertion. */
  function Insert(lots: seq<CreditLot>, lot: CreditLot): (r: seq<CreditLot>)
    ensures multiset(r) == multiset(lots) + multiset{lot}
    ensures forall l :: l in r <==> l in lots || l == lot
  {
    if lots == [] || Before(lot, lots[0]) then
      [lot] + lots
    else
      assert lots == [lots[0]] + lots[1..];
      [lots[0]] + Insert(lots[1..], lot)
  }

  lemma {:induction false} InsertKeepsOrder(lots: seq<CreditLot>, lot: CreditLot)
    requires Ordered(lots)
    requires forall l :: l in lots ==> l.id != lot.id
    ensures Ordered(Insert(lots, lot))
  {
    if lots != [] && !Before(lot, lots[0]) {
      var rest := Insert(lots[1..], lot);
      InsertKeepsOrder(lots[1..], lot);
      forall j | 0 <= j < |rest|
        ensures Before(lots[0], rest[j]) && lots[0].id != rest[j].id
      {
        assert rest[j] in rest;
        if rest[j] != lot {
          assert rest[j] in lots[1..];
        }
      }
    }
  }

  /** Two versions of the lot table that differ at most in what remains of each lot. */
  ghost predicate SameRows(before: seq<CreditLot>, after: seq<CreditLot>) {
    && |before| == |after|
    && forall i :: 0 <= i < |before| ==> after[i] == before[i].(remaining := after[i].remaining)
  }

  lemma SameRowsKeepsOrder(before: seq<CreditLot>, after: seq<CreditLot>)
    requires SameRows(before, after) && Ordered(before)
    ensures Ordered(after)
  {
  }

  // ----- sums over lots

  /** `activeCreditLotWhere`, with the debit's optional list of excluded lots. */
  predicate Eligible(l: CreditLot, account: Account, now: int, excluded: set<nat>) {
    l.account == account && l.remaining > 0 && l.expiresAt > now && l.id !in excluded
  }

  function Available(lots: seq<CreditLot>, account: Account, now: int, excluded: set<nat>): (sum: nat) {
    if lots == [] then 0
    else (if Eligible(lots[0], account, now, excluded) then lots[0].remaining else 0)
         + Available(lots[1..], account, now, excluded)
  }

  /** The aggregate behind `getActiveBalanceKobo`. */
  function ActiveBalance(lots: seq<CreditLot>, account: Account, now: int): nat {
    Available(lots, account, now, {})
  }

  /** Everything an account still holds, expired or not. */
  function Holding(lots: seq<CreditLot>, account: Account): int {
    if lots == [] then 0
    else (if lots[0].account == account then lots[0].remaining else 0) + Holding(lots[1..], account)
  }

  lemma {:induction false} InsertBalance(lots: seq<CreditLot>, lot: CreditLot, account: Account, at: int)
    ensures ActiveBalance(Insert(lots, lot), account, at)
         == ActiveBalance(lots, account, at) + if Eligible(lot, account, at, {}) then lot.remaining else 0
  {
    if lots == [] || Before(lot, lots[0]) {
      assert ([lot] + lots)[1..] == lots;
    } else {
      var rest := Insert(lots[1..], lot);
      assert ([lots[0]] + rest)[1..] == rest;
      InsertBalance(lots[1..], lot, account, at);
    }
  }

  lemma {:induction false} InsertHolding(lots: seq<CreditLot>, lot: CreditLot, account: Account)
    ensures Holding(Insert(lots, lot), account)
         == Holding(lots, account) + if lot.account == account then lot.remaining else 0
  {
    if lots == [] || Before(lot, lots[0]) {
      assert ([lot] + lots)[1..] == lots;
    } else {
      var rest := Insert(lots[1..], lot);
      assert ([lots[0]] + rest)[1..] == rest;
      InsertHolding(lots[1..], lot, account);
    }
  }

  // ----- sums over the append-only tables

  function Posted(entries: seq<Entry>, account: Account, direction: Direction): int {
    if entries == [] then 0
    else
      var last := entries[|entries| - 1];
      Posted(entries[..|entries| - 1], account, direction)
      + if last.account == account && last.direction == direction then last.amount else 0
  }

  function Restored(restorations: seq<Restoration>, allocationId: nat): int {
    if restorations == [] then 0
    else
      var last := restorations[|restorations| - 1];
      Restored(restorations[..|restorations| - 1], allocationId)
      + if last.allocationId == allocationId then last.amount else 0
  }

  /** What debits took from a lot and no restoration has put back. */
  function Outstanding(allocations: seq<Allocation>, restorations: seq<Restoration>, lotId: nat): int {
    if allocations == [] then 0
    else
      var last := allocations[|allocations| - 1];
      Outstanding(allocations[..|allocations| - 1], restorations, lotId)
      + if last.lotId == lotId then last.amount - Restored(restorations, last.id) else 0
  }

  function Expired(expiries: seq<Expiry>, lotId: nat): int {
    if expiries == [] then 0
    else
      var last := expiries[|expiries| - 1];
      Expired(expiries[..|expiries| - 1], lotId) + if last.lotId == lotId then last.amount else 0
  }

  function ExpiryCount(expiries: seq<Expiry>, lotId: nat): nat {
    if expiries == [] then 0
    else
      var last := expiries[|expiries| - 1];
      ExpiryCount(expiries[..|expiries| - 1], lotId) + if last.lotId == lotId then 1 else 0
  }

  lemma PostedAppend(entries: seq<Entry>, e: Entry, account: Account, direction: Direction)
    ensures Posted(entries + [e], account, direction)
         == Posted(entries, account, direction)
            + if e.account == account && e.direction == direction then e.amount else 0
  {
  }

  lemma RestoredAppend(restorations: seq<Restoration>, r: Restoration, allocationId: nat)
    ensures Restored(restorations + [r], allocationId)
         == Restored(restorations, allocationId) + if r.allocationId == allocationId then r.amount else 0
  {
  }

  lemma ExpiredAppend(expiries: seq<Expiry>, e: Expiry, lotId: nat)
    ensures Expired(expiries + [e], lotId) == Expired(expiries, lotId) + if e.lotId == lotId then e.amount else 0
    ensures ExpiryCount(expiries + [e], lotId) == ExpiryCount(expiries, lotId) + if e.lotId == lotId then 1 else 0
  {
  }

  lemma OutstandingAppend(allocations: seq<Allocation>, a: Allocation, restorations: seq<Restoration>, lotId: nat)
    ensures Outstanding(allocations + [a], restorations, lotId)
         == Outstanding(allocations, restorations, lotId)
            + if a.lotId == lotId then a.amount - Restored(restorations, a.id) else 0
  {
  }
}
