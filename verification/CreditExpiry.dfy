/** The sweep that turns due lots into EXPIRY debits (`CreditExpiryService`). */
module CreditExpiry {
  import opened Wrappers
  import opened Arithmetic
  import opened LedgerTables
  import opened LotAllocation

  datatype SweepOutcome = SweepOutcome(db: Db, examined: nat, expiredLots: nat, expiredAmount: int)

  predicate Due(l: CreditLot, now: int) {
    l.expiresAt <= now && l.remaining > 0
  }

  /** `lockDueLots`: the first `limit` due rows that no other transaction has locked. */
  function DueLots(lots: seq<CreditLot>, now: int, locked: set<nat>, limit: nat): (rows: seq<CreditLot>)
    ensures |rows| <= limit
    ensures forall l :: l in rows ==> l in lots && Due(l, now) && l.id !in locked
  {
    if lots == [] || limit == 0 then []
    else
      assert lots == [lots[0]] + lots[1..];
      if Due(lots[0], now) && lots[0].id !in locked then
        [lots[0]] + DueLots(lots[1..], now, locked, limit - 1)
      else DueLots(lots[1..], now, locked, limit)
  }

  function DueCount(lots: seq<CreditLot>, now: int): nat {
    if lots == [] then 0 else (if Due(lots[0], now) then 1 else 0) + DueCount(lots[1..], now)
  }

  /** One due lot: its DEBIT entry, its expiry row and the guarded decrement. */
  function ExpireRow(db: Db, row: CreditLot): Option<Db> {
    match Decrement(db.lots, row.id, row.account, row.remaining)
    case None => None
    case Some(lots) =>
      Some(db.(lots := lots,
               entries := db.entries + [Entry(db.nextId, row.account, EXPIRY, DEBIT, row.remaining)],
               expiries := db.expiries + [Expiry(row.id, db.nextId, row.remaining, row.expiresAt)],
               nextId := db.nextId + 1))
  }

  function ExpireRows(db: Db, rows: seq<CreditLot>): Option<Db>
    decreases rows
  {
    if rows == [] then Some(db)
    else
      match ExpireRow(db, rows[0])
      case None => None
      case Some(next) => ExpireRows(next, rows[1..])
  }

  /** One attempt of `expireDueCredit`. */
  function Sweep(db: Db, now: int, batchSize: int, locked: set<nat>): Result<SweepOutcome> {
    if batchSize <= 0 then Err(ValidationError)
    else
      var rows := DueLots(db.lots, now, locked, batchSize);
      match ExpireRows(db, rows)
      case None => Err(TransactionConflict)
      case Some(after) => Ok(SweepOutcome(after, |rows|, |rows|, Total(rows)))
  }

  // ----- the rows a sweep locks

  lemma {:induction false} DueLotsDistinct(lots: seq<CreditLot>, now: int, locked: set<nat>, limit: nat)
    requires Ordered(lots)
    ensures Ordered(DueLots(lots, now, locked, limit))
  {
    hide Before, Due;
    if lots != [] && limit != 0 {
      var taken := Due(lots[0], now) && lots[0].id !in locked;
      DueLotsDistinct(lots[1..], now, locked, if taken then limit - 1 else limit);
      if taken {
        var rest := DueLots(lots[1..], now, locked, limit - 1);
        forall j | 0 <= j < |rest| ensures Before(lots[0], rest[j]) && lots[0].id != rest[j].id {
          assert rest[j] in lots[1..];
        }
      }
    }
  }

  function SkippingCount(lots: seq<CreditLot>, now: int, locked: set<nat>): nat {
    if lots == [] then 0
    else (if Due(lots[0], now) && lots[0].id !in locked then 1 else 0) + SkippingCount(lots[1..], now, locked)
  }

  /**
   * A sweep takes the first due rows nobody has locked, as many as its batch holds: none that it leaves behind
   * expires before one that it takes.
   */
  lemma {:induction false} DueLotsFirst(lots: seq<CreditLot>, now: int, locked: set<nat>, limit: nat)
    requires Ordered(lots)
    ensures var rows := DueLots(lots, now, locked, limit);
      && |rows| == Min(limit, SkippingCount(lots, now, locked))
      && (forall l, r :: l in lots && Due(l, now) && l.id !in locked && l !in rows && r in rows ==> Before(r, l))
  {
    if lots != [] && limit != 0 {
      var head, rest := lots[0], lots[1..];
      var taken := Due(head, now) && head.id !in locked;
      OrderedTail(lots);
      DueLotsFirst(rest, now, locked, if taken then limit - 1 else limit);
      assert lots == [head] + rest;
      forall l | l in rest ensures Before(head, l) {
        var j :| 0 <= j < |rest| && rest[j] == l;
        assert lots[j + 1] == l;
      }
      hide Ordered, Before, Due;
    }
  }

  lemma {:induction false} DueLotsCount(lots: seq<CreditLot>, now: int, limit: nat)
    ensures |DueLots(lots, now, {}, limit)| == Min(limit, DueCount(lots, now))
  {
    if lots != [] && limit != 0 {
      DueLotsCount(lots[1..], now, if Due(lots[0], now) then limit - 1 else limit);
    }
  }

  // ----- one row

  lemma {:induction false} LowerActive(lots: seq<CreditLot>, i: nat, amount: int, account: Account, at: int)
    requires i < |lots| && lots[i].expiresAt <= at
    ensures ActiveBalance(Lower(lots, i, amount), account, at) == ActiveBalance(lots, account, at)
  {
    if i == 0 {
      assert Lower(lots, 0, amount)[1..] == lots[1..];
    } else {
      assert Lower(lots, i, amount)[1..] == Lower(lots[1..], i - 1, amount);
      LowerActive(lots[1..], i - 1, amount, account, at);
    }
  }

  lemma {:induction false} LowerDueCount(lots: seq<CreditLot>, i: nat, now: int)
    requires i < |lots| && Due(lots[i], now)
    ensures DueCount(Lower(lots, i, lots[i].remaining), now) == DueCount(lots, now) - 1
  {
    if i == 0 {
      assert Lower(lots, 0, lots[i].remaining)[1..] == lots[1..];
    } else {
      assert Lower(lots, i, lots[i].remaining)[1..] == Lower(lots[1..], i - 1, lots[i].remaining);
      LowerDueCount(lots[1..], i - 1, now);
    }
  }

  /** Expiring a row of the table always hits that row and empties it. */
  lemma ExpireRowEffect(db: Db, row: CreditLot) returns (i: nat)
    requires Ordered(db.lots) && row in db.lots
    ensures i < |db.lots| && db.lots[i] == row
    ensures ExpireRow(db, row).Some? && ExpireRow(db, row).value.lots == Lower(db.lots, i, row.remaining)
    ensures Ordered(ExpireRow(db, row).value.lots)
  {
    i :| 0 <= i < |db.lots| && db.lots[i] == row;
    DecrementHits(db.lots, i, row.remaining);
    var k := DecrementEffect(db.lots, row.id, row.account, row.remaining);
    assert k == i;
    SameRowsKeepsOrder(db.lots, Lower(db.lots, i, row.remaining));
  }

  // ----- a whole sweep

  ghost predicate RowsOf(lots: seq<CreditLot>, rows: seq<CreditLot>, now: int) {
    && Ordered(lots) && Ordered(rows)
    && forall l :: l in rows ==> l in lots && Due(l, now)
  }

  lemma RowsOfStep(lots: seq<CreditLot>, rows: seq<CreditLot>, now: int, i: nat)
    requires RowsOf(lots, rows, now) && rows != [] && i < |lots| && lots[i] == rows[0]
    ensures RowsOf(Lower(lots, i, rows[0].remaining), rows[1..], now)
  {
    var next := Lower(lots, i, rows[0].remaining);
    SameRowsKeepsOrder(lots, next);
    forall l | l in rows[1..] ensures l in next && Due(l, now) {
      var j :| 0 <= j < |rows[1..]| && rows[1..][j] == l;
      assert rows[0].id != rows[j + 1].id && l == rows[j + 1];
      assert l in rows;
      var k :| 0 <= k < |lots| && lots[k] == l;
      assert next[k] == l;
    }
  }

  /** A table row is the first one to be handled, or it stays in the table and is still to be handled or not. */
  lemma HandledRow(lots: seq<CreditLot>, rows: seq<CreditLot>, now: int, i: nat, k: nat)
    requires RowsOf(lots, rows, now) && rows != [] && i < |lots| && lots[i] == rows[0] && k < |lots|
    ensures var next := Lower(lots, i, rows[0].remaining);
      && (k == i ==> next[k] == lots[k].(remaining := 0) && next[k] !in rows[1..])
      && (k != i ==> next[k] == lots[k] && lots[k] != rows[0])
  {
    if k != i {
      IdsAreKeys(lots, i, k);
    } else {
      forall j | 0 <= j < |rows[1..]| ensures rows[1..][j].id != rows[0].id {
        IdsAreKeys(rows, 0, j + 1);
      }
    }
  }

  /**
   * No sweep ever conflicts with itself, and none changes what any account can spend at
   * any instant from `now` on. Exactly the rows it handles are emptied; every other row is as it was.
   */
  lemma {:induction false} ExpireRowsEffect(db: Db, rows: seq<CreditLot>, now: int)
    requires RowsOf(db.lots, rows, now)
    ensures ExpireRows(db, rows).Some?
    ensures var after := ExpireRows(db, rows).value;
      && SameRows(db.lots, after.lots)
      && (forall i :: 0 <= i < |db.lots| ==>
            after.lots[i] == if db.lots[i] in rows then db.lots[i].(remaining := 0) else db.lots[i])
      && DueCount(after.lots, now) == DueCount(db.lots, now) - |rows|
      && (forall account, at :: now <= at ==>
            ActiveBalance(after.lots, account, at) == ActiveBalance(db.lots, account, at))
    decreases rows
  {
    if rows != [] {
      var i := ExpireRowEffect(db, rows[0]);
      var next := ExpireRow(db, rows[0]).value;
      RowsOfStep(db.lots, rows, now, i);
      ExpireRowsEffect(next, rows[1..], now);
      LowerDueCount(db.lots, i, now);
      var after := ExpireRows(db, rows).value;
      forall k | 0 <= k < |db.lots|
        ensures after.lots[k] == if db.lots[k] in rows then db.lots[k].(remaining := 0) else db.lots[k]
      {
        HandledRow(db.lots, rows, now, i, k);
      }
      forall account, at | now <= at
        ensures ActiveBalance(after.lots, account, at) == ActiveBalance(db.lots, account, at)
      {
        LowerActive(db.lots, i, rows[0].remaining, account, at);
      }
    }
  }

  /** The sum of the DEBIT entries of all accounts. */
  function Debited(entries: seq<Entry>): int {
    if entries == [] then 0
    else
      var last := entries[|entries| - 1];
      Debited(entries[..|entries| - 1]) + if last.direction == DEBIT then last.amount else 0
  }

  lemma {:induction false} ExpireRowsDebits(db: Db, rows: seq<CreditLot>)
    requires ExpireRows(db, rows).Some?
    ensures var after := ExpireRows(db, rows).value;
      && Debited(after.entries) == Debited(db.entries) + Total(rows)
      && |after.entries| == |db.entries| + |rows|
      && |after.expiries| == |db.expiries| + |rows|
    decreases rows
  {
    if rows != [] {
      var next := ExpireRow(db, rows[0]).value;
      assert next.entries[..|db.entries|] == db.entries;
      ExpireRowsDebits(next, rows[1..]);
    }
  }

  /**
   * What one committed sweep does: it cannot fail on a positive batch, the report is exactly
   * what the ledger was debited, and no balance from `now` on moves.
   */
  lemma SweepEffect(db: Db, now: int, batchSize: int, locked: set<nat>)
    requires Ordered(db.lots) && batchSize > 0
    ensures Sweep(db, now, batchSize, locked).Ok?
    ensures var out := Sweep(db, now, batchSize, locked).value;
      && SameRows(db.lots, out.db.lots) && Ordered(out.db.lots)
      && out.examined == out.expiredLots == |out.db.expiries| - |db.expiries|
      && out.expiredAmount == Debited(out.db.entries) - Debited(db.entries)
      && DueCount(out.db.lots, now) == DueCount(db.lots, now) - out.expiredLots
      && (locked == {} ==> out.expiredLots == Min(batchSize, DueCount(db.lots, now)))
      && (forall account, at :: now <= at ==>
            ActiveBalance(out.db.lots, account, at) == ActiveBalance(db.lots, account, at))
  {
    var rows := DueLots(db.lots, now, locked, batchSize);
    DueLotsDistinct(db.lots, now, locked, batchSize);
    ExpireRowsEffect(db, rows, now);
    ExpireRowsDebits(db, rows);
    DueLotsCount(db.lots, now, batchSize);
    SameRowsKeepsOrder(db.lots, ExpireRows(db, rows).value.lots);
  }

  /** `sweeps` consecutive sweeps with nothing locked. */
  function Sweeps(db: Db, now: int, batchSize: nat, sweeps: nat): Db
    decreases sweeps
  {
    if sweeps == 0 then db
    else
      match Sweep(db, now, batchSize, {})
      case Err(_) => db
      case Ok(out) => Sweeps(out.db, now, batchSize, sweeps - 1)
  }

  function Undrained(due: nat, batchSize: nat, sweeps: nat): nat {
    if sweeps * batchSize >= due then 0 else due - sweeps * batchSize
  }

  lemma UndrainedStep(due: nat, batchSize: nat, sweeps: nat)
    requires sweeps > 0
    ensures Undrained(due, batchSize, sweeps) == Undrained(due - Min(batchSize, due), batchSize, sweeps - 1)
  {
  }

  lemma NothingDrained(due: nat, batchSize: nat)
    ensures Undrained(due, batchSize, 0) == due
  {
  }

  lemma {:induction false} SweepsLeave(db: Db, now: int, batchSize: nat, sweeps: nat)
    requires Ordered(db.lots) && batchSize > 0
    ensures DueCount(Sweeps(db, now, batchSize, sweeps).lots, now)
         == Undrained(DueCount(db.lots, now), batchSize, sweeps)
    decreases sweeps
  {
    hide Undrained, Sweep, Ordered, DueCount;
    if sweeps == 0 {
      NothingDrained(DueCount(db.lots, now), batchSize);
    } else {
      SweepEffect(db, now, batchSize, {});
      SweepsLeave(Sweep(db, now, batchSize, {}).value.db, now, batchSize, sweeps - 1);
      UndrainedStep(DueCount(db.lots, now), batchSize, sweeps);
    }
  }

  /** D due lots are drained by exactly ceil(D / batch) sweeps: that many leave none, fewer leave some. */
  lemma SweepsDrain(db: Db, now: int, batchSize: nat, sweeps: nat)
    requires Ordered(db.lots) && batchSize > 0
    ensures DueCount(Sweeps(db, now, batchSize, sweeps).lots, now) == 0
       <==> sweeps >= CeilDiv(DueCount(db.lots, now), batchSize)
  {
    SweepsLeave(db, now, batchSize, sweeps);
    CeilingDivision(DueCount(db.lots, now), batchSize, sweeps);
  }

  // ----- what is due, against what can be spent

  lemma {:induction false} NothingDueHolding(lots: seq<CreditLot>, now: int, account: Account)
    requires DueCount(lots, now) == 0
    requires forall i :: 0 <= i < |lots| ==> lots[i].remaining >= 0
    ensures Holding(lots, account) == ActiveBalance(lots, account, now)
    ensures forall l :: l in lots && l.remaining > 0 ==> l.expiresAt > now
  {
    if lots != [] {
      NothingDueHolding(lots[1..], now, account);
      assert lots == [lots[0]] + lots[1..];
    }
  }

  lemma {:induction false} SweepsNonNegative(db: Db, now: int, batchSize: nat, sweeps: nat)
    requires Ordered(db.lots) && batchSize > 0
    requires forall i :: 0 <= i < |db.lots| ==> db.lots[i].remaining >= 0
    ensures var after := Sweeps(db, now, batchSize, sweeps).lots;
      forall i :: 0 <= i < |after| ==> after[i].remaining >= 0
    decreases sweeps
  {
    hide Sweep, Ordered;
    if sweeps > 0 {
      SweepEffect(db, now, batchSize, {});
      SweepNonNegative(db, now, batchSize);
      var next := Sweep(db, now, batchSize, {}).value.db;
      SweepsNonNegative(next, now, batchSize, sweeps - 1);
      assert Sweeps(db, now, batchSize, sweeps) == Sweeps(next, now, batchSize, sweeps - 1);
    }
  }

  lemma SweepNonNegative(db: Db, now: int, batchSize: nat)
    requires Ordered(db.lots) && batchSize > 0
    requires forall i :: 0 <= i < |db.lots| ==> db.lots[i].remaining >= 0
    ensures Sweep(db, now, batchSize, {}).Ok?
    ensures var after := Sweep(db, now, batchSize, {}).value.db.lots;
      forall i :: 0 <= i < |after| ==> after[i].remaining >= 0
  {
    hide Ordered, ExpireRows, DueLots, SameRows;
    DueLotsDistinct(db.lots, now, {}, batchSize);
    ExpireRowsEffect(db, DueLots(db.lots, now, {}, batchSize), now);
    SweepEffect(db, now, batchSize, {});
    SameLength(db, now, batchSize);
  }

  lemma SameLength(db: Db, now: int, batchSize: nat)
    requires Sweep(db, now, batchSize, {}).Ok? && SameRows(db.lots, Sweep(db, now, batchSize, {}).value.db.lots)
    ensures |Sweep(db, now, batchSize, {}).value.db.lots| == |db.lots|
  {
    hide Sweep;
  }

  /** Once the sweeps have drained the table every account holds exactly what it can spend, and nothing past its time. */
  lemma DrainedIsSpendable(db: Db, now: int, batchSize: nat, sweeps: nat, account: Account)
    requires Ordered(db.lots) && batchSize > 0 && sweeps >= CeilDiv(DueCount(db.lots, now), batchSize)
    requires forall i :: 0 <= i < |db.lots| ==> db.lots[i].remaining >= 0
    ensures var after := Sweeps(db, now, batchSize, sweeps).lots;
      && Holding(after, account) == ActiveBalance(after, account, now)
      && (forall l :: l in after && l.remaining > 0 ==> l.expiresAt > now)
  {
    hide Sweeps, Ordered, DueCount, CeilDiv;
    SweepsDrain(db, now, batchSize, sweeps);
    SweepsNonNegative(db, now, batchSize, sweeps);
    NothingDueHolding(Sweeps(db, now, batchSize, sweeps).lots, now, account);
  }

  /** For each row handled, in order: one EXPIRY debit of what was left, and one expiry row that dates it to the lot's own expiry. */
  lemma {:induction false} ExpireRowsRecords(db: Db, rows: seq<CreditLot>)
    requires ExpireRows(db, rows).Some?
    ensures var after := ExpireRows(db, rows).value;
      && after.entries == db.entries
           + seq(|rows|, k requires 0 <= k < |rows| => Entry(db.nextId + k, rows[k].account, EXPIRY, DEBIT, rows[k].remaining))
      && after.expiries == db.expiries
           + seq(|rows|, k requires 0 <= k < |rows| => Expiry(rows[k].id, db.nextId + k, rows[k].remaining, rows[k].expiresAt))
      && after == db.(lots := after.lots, entries := after.entries, expiries := after.expiries, nextId := db.nextId + |rows|)
    decreases rows
  {
    if rows != [] {
      hide Decrement;
      var next := ExpireRow(db, rows[0]).value;
      ExpireRowsRecords(next, rows[1..]);
    }
  }

  // ----- retries

  const CREDIT_EXPIRY_TRANSACTION_RETRY_ATTEMPTS := 5

  /**
   * `expireDueCredit` with its bounded retries. Attempt k runs against the ledger committed
   * when it starts, `ledgers[k]`, and either commits or is aborted by a conflict and rolled back.
   * The report returned is exactly what the one committed attempt debited; when all five
   * attempts conflict nothing was debited at all.
   */
  method ExpireDueCredit(ledgers: seq<Db>, conflicts: seq<bool>, now: int, batchSize: int, locked: set<nat>)
    returns (r: Result<SweepOutcome>, committed: Option<nat>)
    requires |ledgers| == |conflicts| == 5
    requires forall k :: 0 <= k < |ledgers| ==> Ordered(ledgers[k].lots)
    ensures batchSize <= 0 ==> r == Err(ValidationError) && committed.None?
    ensures batchSize > 0 && (forall k :: 0 <= k < |conflicts| ==> conflicts[k]) ==>
      r == Err(TransactionConflict) && committed.None?
    ensures batchSize > 0 && (exists k :: 0 <= k < |conflicts| && !conflicts[k]) ==>
      && committed.Some? && committed.value < |ledgers| && !conflicts[committed.value]
      && (forall k :: 0 <= k < committed.value ==> conflicts[k])
      && r.Ok?
      && var before := ledgers[committed.value];
      && r.value.expiredAmount == Debited(r.value.db.entries) - Debited(before.entries)
      && r.value.expiredLots == |r.value.db.expiries| - |before.expiries|
      && (forall account, at :: now <= at ==>
            ActiveBalance(r.value.db.lots, account, at) == ActiveBalance(before.lots, account, at))
  {
    committed := None;
    if batchSize <= 0 {
      return Err(ValidationError), None;
    }
    var attempt := 1;
    while attempt <= CREDIT_EXPIRY_TRANSACTION_RETRY_ATTEMPTS
      invariant 1 <= attempt <= CREDIT_EXPIRY_TRANSACTION_RETRY_ATTEMPTS + 1
      invariant forall k :: 0 <= k < attempt - 1 ==> conflicts[k]
      invariant committed.None?
    {
      if !conflicts[attempt - 1] {
        SweepEffect(ledgers[attempt - 1], now, batchSize, locked);
        return Sweep(ledgers[attempt - 1], now, batchSize, locked), Some(attempt - 1);
      }
      attempt := attempt + 1;
    }
    r := Err(TransactionConflict);
  }
}
