/**
 * Spending the earliest-expiring lots first is optimal over whole runs: no other choice of
 * lots can serve a sequence of debits this one cannot, and none ever keeps more spendable credit.
 */
module ExpiryOptimality {
  import opened Wrappers
  import opened Arithmetic
  import opened LedgerTables
  import opened LotAllocation
  import CreditExpiry

  datatype Request =
    | Credit(lot: CreditLot)
    | Debit(account: Account, amount: int)
    | Sweep(batchSize: nat, locked: set<nat>)
    | Advance(to: int)

  datatype State = State(lots: seq<CreditLot>, now: int)

  predicate Admissible(s: State, r: Request) {
    match r
    case Credit(lot) => (forall l :: l in s.lots ==> l.id != lot.id) && 0 <= lot.remaining
    case Debit(_, amount) => amount > 0
    case Sweep(batchSize, _) => batchSize > 0
    case Advance(to) => s.now <= to
  }

  function SweepLots(lots: seq<CreditLot>, now: int, batchSize: nat, locked: set<nat>): seq<CreditLot> {
    match CreditExpiry.Sweep(EMPTY_DB.(lots := lots), now, batchSize, locked)
    case Err(_) => lots
    case Ok(out) => out.db.lots
  }

  /** Everything but a debit is the same whoever picks the lots. */
  function Common(s: State, r: Request): State
    requires !r.Debit?
  {
    match r
    case Credit(lot) => s.(lots := Insert(s.lots, lot))
    case Sweep(batchSize, locked) => s.(lots := SweepLots(s.lots, s.now, batchSize, locked))
    case Advance(to) => s.(now := to)
  }

  // ----- the service

  function DebitOf(s: State, account: Account, amount: int): DebitInput {
    DebitInput(account, 0, amount, s.now, Some(0), None, {})
  }

  /** The next state as the service computes it; `None` when a debit is refused. */
  function ServiceStep(s: State, r: Request): Option<State> {
    if r.Debit? then
      match AllocateDebit(EMPTY_DB.(lots := s.lots), DebitOf(s, r.account, r.amount))
      case Err(_) => None
      case Ok(out) => Some(s.(lots := out.db.lots))
    else Some(Common(s, r))
  }

  // ----- any other choice

  /** `picks[i]` is what is taken from lot i: any split of the amount over lots that are active now. */
  predicate LegalPicks(s: State, account: Account, amount: int, picks: seq<int>) {
    && |picks| == |s.lots|
    && (forall i :: 0 <= i < |picks| ==>
          0 <= picks[i] && (picks[i] > 0 ==> Eligible(s.lots[i], account, s.now, {}) && picks[i] <= s.lots[i].remaining))
    && Sum(picks) == amount
  }

  function Sum(picks: seq<int>): int {
    if picks == [] then 0 else picks[0] + Sum(picks[1..])
  }

  function Take(lots: seq<CreditLot>, picks: seq<int>): seq<CreditLot>
    requires |picks| == |lots|
  {
    if lots == [] then []
    else [lots[0].(remaining := lots[0].remaining - picks[0])] + Take(lots[1..], picks[1..])
  }

  /** A run of the alternative: `choices[k]` are the picks of request k, used when it is a debit. */
  ghost predicate AlternativeStep(s: State, r: Request, picks: seq<int>, next: State) {
    Admissible(s, r) &&
    if r.Debit? then LegalPicks(s, r.account, r.amount, picks) && next == s.(lots := Take(s.lots, picks))
    else next == Common(s, r)
  }

  ghost predicate AlternativeRun(start: State, requests: seq<Request>, choices: seq<seq<int>>, states: seq<State>) {
    && |choices| == |requests| && |states| == |requests| + 1
    && states[0] == start
    && forall k :: 0 <= k < |requests| ==> AlternativeStep(states[k], requests[k], choices[k], states[k + 1])
  }

  function ServiceRun(s: State, requests: seq<Request>): Option<State> {
    if requests == [] then Some(s)
    else
      match ServiceRun(s, requests[..|requests| - 1])
      case None => None
      case Some(last) => ServiceStep(last, requests[|requests| - 1])
  }

  // ----- dominance

  ghost predicate WellFormed(s: State) {
    Ordered(s.lots) && forall i :: 0 <= i < |s.lots| ==> 0 <= s.lots[i].remaining
  }

  /** `s` can spend at least what `t` can, at every instant from now on. */
  ghost predicate Dominates(s: State, t: State) {
    && s.now == t.now
    && SameRows(t.lots, s.lots)
    && forall account, at :: s.now <= at ==>
         ActiveBalance(t.lots, account, at) <= ActiveBalance(s.lots, account, at)
  }

  lemma {:induction false} InsertSameRows(before: seq<CreditLot>, after: seq<CreditLot>, lot: CreditLot)
    requires SameRows(before, after)
    ensures SameRows(Insert(before, lot), Insert(after, lot))
  {
    if before != [] && !Before(lot, before[0]) {
      InsertSameRows(before[1..], after[1..], lot);
    }
  }

  lemma {:induction false} TakeEffect(lots: seq<CreditLot>, picks: seq<int>)
    requires |picks| == |lots|
    ensures SameRows(lots, Take(lots, picks))
    ensures forall i :: 0 <= i < |lots| ==> Take(lots, picks)[i].remaining == lots[i].remaining - picks[i]
  {
    if lots != [] {
      TakeEffect(lots[1..], picks[1..]);
    }
  }

  /** Any legal choice lowers the balance now by the amount, and no balance grows. */
  lemma {:induction false} TakeBalance(lots: seq<CreditLot>, picks: seq<int>, account: Account, now: int, other: Account, at: int)
    requires |picks| == |lots| && now <= at
    requires forall i :: 0 <= i < |picks| ==>
      0 <= picks[i] && (picks[i] > 0 ==> Eligible(lots[i], account, now, {}) && picks[i] <= lots[i].remaining)
    ensures ActiveBalance(Take(lots, picks), account, now) == ActiveBalance(lots, account, now) - Sum(picks)
    ensures ActiveBalance(Take(lots, picks), other, at) <= ActiveBalance(lots, other, at)
  {
    if lots != [] {
      assert Take(lots, picks)[1..] == Take(lots[1..], picks[1..]);
      TakeBalance(lots[1..], picks[1..], account, now, other, at);
    }
  }

  lemma SweepLotsEffect(s: State, batchSize: nat, locked: set<nat>)
    requires WellFormed(s) && batchSize > 0
    ensures var after := s.(lots := SweepLots(s.lots, s.now, batchSize, locked));
      && WellFormed(after) && SameRows(s.lots, after.lots)
      && forall account, at :: s.now <= at ==>
           ActiveBalance(after.lots, account, at) == ActiveBalance(s.lots, account, at)
  {
    var db := EMPTY_DB.(lots := s.lots);
    CreditExpiry.SweepEffect(db, s.now, batchSize, locked);
    var rows := CreditExpiry.DueLots(s.lots, s.now, locked, batchSize);
    CreditExpiry.DueLotsDistinct(s.lots, s.now, locked, batchSize);
    SweepNonNegative(db, rows, s.now);
  }

  lemma {:induction false} SweepNonNegative(db: Db, rows: seq<CreditLot>, now: int)
    requires CreditExpiry.RowsOf(db.lots, rows, now)
    requires forall i :: 0 <= i < |db.lots| ==> 0 <= db.lots[i].remaining
    requires CreditExpiry.ExpireRows(db, rows).Some?
    ensures var after := CreditExpiry.ExpireRows(db, rows).value;
      forall i :: 0 <= i < |after.lots| ==> 0 <= after.lots[i].remaining
    decreases rows
  {
    if rows != [] {
      var i := CreditExpiry.ExpireRowEffect(db, rows[0]);
      CreditExpiry.RowsOfStep(db.lots, rows, now, i);
      SweepNonNegative(CreditExpiry.ExpireRow(db, rows[0]).value, rows[1..], now);
    }
  }

  /** One request keeps the service ahead of the alternative. */
  lemma StepKeepsDominance(s: State, t: State, r: Request, picks: seq<int>, next: State)
    requires WellFormed(s) && WellFormed(t) && Dominates(s, t)
    requires AlternativeStep(t, r, picks, next)
    ensures ServiceStep(s, r).Some?
    ensures WellFormed(ServiceStep(s, r).value) && WellFormed(next)
    ensures Dominates(ServiceStep(s, r).value, next)
  {
    match r
    case Credit(lot) =>
      InsertKeepsOrder(t.lots, lot);
      forall l | l in s.lots ensures l.id != lot.id {
        var i :| 0 <= i < |s.lots| && s.lots[i] == l;
        assert t.lots[i] in t.lots;
      }
      InsertKeepsOrder(s.lots, lot);
      InsertSameRows(t.lots, s.lots, lot);
      CreditKeeps(s, lot);
      CreditKeeps(t, lot);
      forall account, at | s.now <= at
        ensures ActiveBalance(next.lots, account, at) <= ActiveBalance(Insert(s.lots, lot), account, at)
      {
        InsertBalance(t.lots, lot, account, at);
        InsertBalance(s.lots, lot, account, at);
      }
    case Debit(account, amount) =>
      DebitKeepsDominance(s, t, account, amount, picks, next);
    case Sweep(batchSize, locked) =>
      SweepLotsEffect(s, batchSize, locked);
      SweepLotsEffect(t, batchSize, locked);
    case Advance(to) =>
  }

  lemma CreditKeeps(s: State, lot: CreditLot)
    requires WellFormed(s) && 0 <= lot.remaining
    ensures forall i :: 0 <= i < |Insert(s.lots, lot)| ==> 0 <= Insert(s.lots, lot)[i].remaining
  {
    var after := Insert(s.lots, lot);
    forall i | 0 <= i < |after| ensures 0 <= after[i].remaining {
      assert after[i] in after;
    }
  }

  lemma DebitKeepsDominance(s: State, t: State, account: Account, amount: int, picks: seq<int>, next: State)
    requires WellFormed(s) && WellFormed(t) && Dominates(s, t) && amount > 0
    requires LegalPicks(t, account, amount, picks) && next == t.(lots := Take(t.lots, picks))
    ensures ServiceStep(s, Debit(account, amount)).Some?
    ensures var after := ServiceStep(s, Debit(account, amount)).value;
      WellFormed(after) && WellFormed(next) && Dominates(after, next)
  {
    hide Ordered, Persist, Plan, EligibleLots, Walk, ActiveBalance, Take, Sum;
    TakeEffect(t.lots, picks);
    SameRowsKeepsOrder(t.lots, next.lots);
    TakeBalance(t.lots, picks, account, t.now, account, t.now);
    var input := DebitOf(s, account, amount);
    var db := EMPTY_DB.(lots := s.lots);
    DebitAgreesWithBalance(db, input);
    ServiceIsWalk(s.lots, account, s.now, {}, amount, 1);
    var after := Walk(s.lots, account, s.now, {}, amount);
    assert ServiceStep(s, Debit(account, amount)) == Some(s.(lots := after));
    WalkRows(s.lots, account, s.now, {}, amount);
    SameRowsKeepsOrder(s.lots, after);
    forall a, at | s.now <= at
      ensures ActiveBalance(next.lots, a, at) <= ActiveBalance(after, a, at)
    {
      TakeBalance(t.lots, picks, account, t.now, a, at);
      if a == account {
        WalkBalance(s.lots, account, s.now, amount, at);
        AvailableLater(next.lots, account, s.now, at);
      } else {
        WalkLeavesOthers(s.lots, account, s.now, {}, amount, a, at);
      }
    }
  }

  /**
   * Optimality. Take any run of credits, debits, sweeps and clock advances in which some choice of
   * lots serves every debit. Then the service serves every debit too and, after each
   * request, can spend at every later instant at least what the other choice can.
   */
  lemma {:induction false} EarliestExpiryIsOptimal(
    start: State, requests: seq<Request>, choices: seq<seq<int>>, states: seq<State>, k: nat)
    requires WellFormed(start)
    requires AlternativeRun(start, requests, choices, states)
    requires k <= |requests|
    ensures ServiceRun(start, requests[..k]).Some?
    ensures var mine := ServiceRun(start, requests[..k]).value;
      && WellFormed(mine) && WellFormed(states[k])
      && Dominates(mine, states[k])
  {
    if k > 0 {
      EarliestExpiryIsOptimal(start, requests, choices, states, k - 1);
      assert requests[..k][..k - 1] == requests[..k - 1];
      assert AlternativeStep(states[k - 1], requests[k - 1], choices[k - 1], states[k]);
      StepKeepsDominance(ServiceRun(start, requests[..k - 1]).value, states[k - 1],
                         requests[k - 1], choices[k - 1], states[k]);
    }
  }
}
