/** Fraud evaluation events: exactly-once counting under redelivery. */
module FraudEvents {
  import opened Wrappers

  datatype ReviewStatus = OPEN | ACKNOWLEDGED | RESOLVED

  datatype Flag = Flag(status: ReviewStatus, occurrenceCount: nat)

  // ----- what an evaluation finds

  datatype Rule =
    | DUPLICATE | HIGH_VALUE_FLAG | HIGH_VALUE_APPROVAL | HIGH_VALUE_REDEMPTION
    | CARD_FREQUENCY | CASHIER_ANOMALY | ROUNDED_VALUES | REVERSALS | REPLACEMENTS | AUTH_FAILURES

  /** The dedupe key `ruleCode:subject`; no rule code contains a colon, so the pair can be read back. */
  datatype Key = Key(rule: Rule, subject: nat)

  /**
   * `evaluateFraudForOutboxEvent` by kind of event. Each rule either stays silent or finds one subject; what the
   * thresholds and counts say is the argument.
   */
  datatype Evaluation =
    | DuplicateReceipt(subject: nat)
    | ReceiptRules(
        flag: Option<nat>, approval: Option<nat>, card: Option<nat>, cashier: Option<nat>, rounded: Option<nat>)
    | RedemptionRule(redemption: Option<nat>)
    | ReplacementRule(customer: Option<nat>)
    | ReversalRule(cashier: Option<nat>)
    | AuthRule(user: Option<nat>)
    | NoRule

  function Found(rule: Rule, subject: Option<nat>): seq<Key> {
    if subject.Some? then [Key(rule, subject.value)] else []
  }

  /** The findings of an evaluation, in the order they are recorded. */
  function Findings(e: Evaluation): seq<Key> {
    match e
    case DuplicateReceipt(subject) => [Key(DUPLICATE, subject)]
    case ReceiptRules(flag, approval, card, cashier, rounded) =>
      Found(HIGH_VALUE_FLAG, flag) + Found(HIGH_VALUE_APPROVAL, approval)
      + (Found(CARD_FREQUENCY, card) + Found(CASHIER_ANOMALY, cashier) + Found(ROUNDED_VALUES, rounded))
    case RedemptionRule(redemption) => Found(HIGH_VALUE_REDEMPTION, redemption)
    case ReplacementRule(customer) => Found(REPLACEMENTS, customer)
    case ReversalRule(cashier) => Found(REVERSALS, cashier)
    case AuthRule(user) => Found(AUTH_FAILURES, user)
    case NoRule => []
  }

  /** Which subject a rule finds in an evaluation: each rule looks at one kind of event. */
  function Subject(e: Evaluation, rule: Rule): Option<nat> {
    match rule
    case DUPLICATE => if e.DuplicateReceipt? then Some(e.subject) else None
    case HIGH_VALUE_FLAG => if e.ReceiptRules? then e.flag else None
    case HIGH_VALUE_APPROVAL => if e.ReceiptRules? then e.approval else None
    case CARD_FREQUENCY => if e.ReceiptRules? then e.card else None
    case CASHIER_ANOMALY => if e.ReceiptRules? then e.cashier else None
    case ROUNDED_VALUES => if e.ReceiptRules? then e.rounded else None
    case HIGH_VALUE_REDEMPTION => if e.RedemptionRule? then e.redemption else None
    case REPLACEMENTS => if e.ReplacementRule? then e.customer else None
    case REVERSALS => if e.ReversalRule? then e.cashier else None
    case AUTH_FAILURES => if e.AuthRule? then e.user else None
  }

  /** An event's findings are exactly the subjects its rules find: none is missed and none invented. */
  lemma FindsExactly(e: Evaluation, key: Key)
    ensures key in Findings(e) <==> Subject(e, key.rule) == Some(key.subject)
  {
    if e.ReceiptRules? {
      var a, b := Found(HIGH_VALUE_FLAG, e.flag), Found(HIGH_VALUE_APPROVAL, e.approval);
      var c, d, r := Found(CARD_FREQUENCY, e.card), Found(CASHIER_ANOMALY, e.cashier), Found(ROUNDED_VALUES, e.rounded);
      assert key in Findings(e) <==> key in a || key in b || key in c || key in d || key in r;
    }
  }

  // ----- events

  /** `produced[e]` is history: the findings written when event e was processed. */
  datatype System = System(flags: map<Key, Flag>, processed: set<nat>, produced: map<nat, seq<Key>>)

  /** An event is delivered and evaluated, or its evaluation fails and rolls back. */
  datatype Step =
    | Deliver(event: nat, evaluation: Evaluation)
    | DeliverFails(event: nat)
    | Review(key: Key, status: ReviewStatus)

  /** The upsert of one finding. */
  function Upsert(flags: map<Key, Flag>, key: Key): map<Key, Flag> {
    if key in flags then flags[key := flags[key].(occurrenceCount := flags[key].occurrenceCount + 1)]
    else flags[key := Flag(OPEN, 1)]
  }

  /** `recordFraudFindings`: one upsert per finding, in order. */
  method RecordFindings(flags: map<Key, Flag>, findings: seq<Key>) returns (after: map<Key, Flag>)
    ensures after == Recorded(flags, findings)
  {
    after := flags;
    var i := 0;
    while i < |findings|
      invariant 0 <= i <= |findings|
      invariant after == Recorded(flags, findings[..i])
    {
      assert findings[..i + 1][..i] == findings[..i];
      after := Upsert(after, findings[i]);
      i := i + 1;
    }
    assert findings[..i] == findings;
  }

  function Recorded(flags: map<Key, Flag>, findings: seq<Key>): map<Key, Flag> {
    if findings == [] then flags
    else Upsert(Recorded(flags, findings[..|findings| - 1]), findings[|findings| - 1])
  }

  /** `processFraudEvaluationEvent`: under the event's row lock, a processed event is left alone. */
  function Apply(s: System, step: Step): System {
    match step
    case Deliver(event, evaluation) =>
      if event in s.processed then s
      else
        var findings := Findings(evaluation);
        System(Recorded(s.flags, findings), s.processed + {event}, s.produced[event := findings])
    case DeliverFails(_) => s
    case Review(key, status) => if key in s.flags then s.(flags := s.flags[key := s.flags[key].(status := status)]) else s
  }

  function Run(s: System, steps: seq<Step>): System
    decreases steps
  {
    if steps == [] then s else Run(Apply(s, steps[0]), steps[1..])
  }

  const EMPTY := System(map[], {}, map[])

  // ----- counting

  function Multiplicity(findings: seq<Key>, key: Key): nat {
    if findings == [] then 0
    else Multiplicity(findings[..|findings| - 1], key) + if findings[|findings| - 1] == key then 1 else 0
  }

  function Count(flags: map<Key, Flag>, key: Key): nat { if key in flags then flags[key].occurrenceCount else 0 }

  /** The events that yielded a key, and how often they yielded it in all. */
  function Producers(events: set<nat>, produced: map<nat, seq<Key>>, key: Key): set<nat> {
    set e | e in events && e in produced && Multiplicity(produced[e], key) > 0
  }

  ghost function TotalYield(events: set<nat>, produced: map<nat, seq<Key>>, key: Key): nat {
    if events == {} then 0
    else
      var e :| e in events;
      (if e in produced then Multiplicity(produced[e], key) else 0) + TotalYield(events - {e}, produced, key)
  }

  lemma {:induction false} TotalYieldSplit(events: set<nat>, produced: map<nat, seq<Key>>, key: Key, x: nat)
    requires x in events
    ensures TotalYield(events, produced, key)
         == (if x in produced then Multiplicity(produced[x], key) else 0) + TotalYield(events - {x}, produced, key)
    decreases |events|
  {
    var e :| e in events && TotalYield(events, produced, key)
      == (if e in produced then Multiplicity(produced[e], key) else 0) + TotalYield(events - {e}, produced, key);
    if e != x {
      TotalYieldSplit(events - {e}, produced, key, x);
      assert events - {e} - {x} == events - {x} - {e};
      TotalYieldSplit(events - {x}, produced, key, e);
    }
  }

  lemma {:induction false} TotalYieldFrame(events: set<nat>, before: map<nat, seq<Key>>, after: map<nat, seq<Key>>, key: Key)
    requires forall e :: e in events ==> e in before && e in after && before[e] == after[e]
    ensures TotalYield(events, before, key) == TotalYield(events, after, key)
    decreases |events|
  {
    if events != {} {
      var e :| e in events;
      TotalYieldSplit(events, before, key, e);
      TotalYieldSplit(events, after, key, e);
      TotalYieldFrame(events - {e}, before, after, key);
    }
  }

  lemma {:induction false} RecordedCount(flags: map<Key, Flag>, findings: seq<Key>, key: Key)
    ensures Count(Recorded(flags, findings), key) == Count(flags, key) + Multiplicity(findings, key)
    ensures key in flags ==> key in Recorded(flags, findings) && Recorded(flags, findings)[key].status == flags[key].status
  {
    if findings != [] {
      RecordedCount(flags, findings[..|findings| - 1], key);
    }
  }

  ghost predicate Inv(s: System) {
    && s.processed == s.produced.Keys
    && (forall e, key :: e in s.produced ==> Multiplicity(s.produced[e], key) <= 1)
    && forall key :: Count(s.flags, key) == TotalYield(s.processed, s.produced, key)
  }

  lemma {:induction false} MultiplicityConcat(a: seq<Key>, b: seq<Key>, key: Key)
    ensures Multiplicity(a + b, key) == Multiplicity(a, key) + Multiplicity(b, key)
  {
    if b == [] {
      assert a + b == a;
    } else {
      assert (a + b)[..|a + b| - 1] == a + b[..|b| - 1];
      MultiplicityConcat(a, b[..|b| - 1], key);
    }
  }

  lemma FoundOnce(rule: Rule, subject: Option<nat>, key: Key)
    ensures Multiplicity(Found(rule, subject), key) <= if key.rule == rule then 1 else 0
  {
  }

  /** No evaluation finds a key twice: it applies each rule at most once, and the rule is part of the key. */
  lemma FindingsDoNotRepeat(e: Evaluation, key: Key)
    ensures Multiplicity(Findings(e), key) <= 1
  {
    match e
    case DuplicateReceipt(subject) => FoundOnce(DUPLICATE, Some(subject), key);
    case ReceiptRules(flag, approval, card, cashier, rounded) =>
      hide Multiplicity, Found;
      var a, b := Found(HIGH_VALUE_FLAG, flag), Found(HIGH_VALUE_APPROVAL, approval);
      var c, d, r := Found(CARD_FREQUENCY, card), Found(CASHIER_ANOMALY, cashier), Found(ROUNDED_VALUES, rounded);
      MultiplicityConcat(a + b, c + d + r, key);
      MultiplicityConcat(a, b, key);
      MultiplicityConcat(c + d, r, key);
      MultiplicityConcat(c, d, key);
      FoundOnce(HIGH_VALUE_FLAG, flag, key);
      FoundOnce(HIGH_VALUE_APPROVAL, approval, key);
      FoundOnce(CARD_FREQUENCY, card, key);
      FoundOnce(CASHIER_ANOMALY, cashier, key);
      FoundOnce(ROUNDED_VALUES, rounded, key);
    case RedemptionRule(redemption) => FoundOnce(HIGH_VALUE_REDEMPTION, redemption, key);
    case ReplacementRule(customer) => FoundOnce(REPLACEMENTS, customer, key);
    case ReversalRule(cashier) => FoundOnce(REVERSALS, cashier, key);
    case AuthRule(user) => FoundOnce(AUTH_FAILURES, user, key);
    case NoRule =>
  }

  lemma StepKeepsInv(s: System, step: Step)
    requires Inv(s)
    ensures Inv(Apply(s, step))
  {
    hide Findings, Multiplicity, TotalYield, Recorded;
    if step.Deliver? && step.event !in s.processed {
      var t := Apply(s, step);
      forall e, key | e in t.produced ensures Multiplicity(t.produced[e], key) <= 1 {
        FindingsDoNotRepeat(step.evaluation, key);
      }
      forall key ensures Count(t.flags, key) == TotalYield(t.processed, t.produced, key) {
        RecordedCount(s.flags, Findings(step.evaluation), key);
        TotalYieldSplit(t.processed, t.produced, key, step.event);
        assert t.processed - {step.event} == s.processed;
        TotalYieldFrame(s.processed, s.produced, t.produced, key);
      }
    }
  }

  lemma {:induction false} RunKeepsInv(s: System, steps: seq<Step>)
    requires Inv(s)
    ensures Inv(Run(s, steps))
    decreases steps
  {
    if steps != [] {
      StepKeepsInv(s, steps[0]);
      RunKeepsInv(Apply(s, steps[0]), steps[1..]);
    }
  }

  // ----- the theorems

  lemma ProducersSplit(events: set<nat>, produced: map<nat, seq<Key>>, key: Key, x: nat)
    requires x in events && x in produced
    ensures |Producers(events, produced, key)|
         == |Producers(events - {x}, produced, key)| + if Multiplicity(produced[x], key) > 0 then 1 else 0
  {
    hide Multiplicity;
    var rest := Producers(events - {x}, produced, key);
    if Multiplicity(produced[x], key) > 0 {
      assert Producers(events, produced, key) == rest + {x};
    } else {
      assert Producers(events, produced, key) == rest;
    }
  }

  /** When no event yields a key twice, total yield counts the events. */
  lemma {:induction false} YieldCountsProducers(events: set<nat>, produced: map<nat, seq<Key>>, key: Key)
    requires events <= produced.Keys
    requires forall e :: e in events ==> Multiplicity(produced[e], key) <= 1
    ensures |Producers(events, produced, key)| == TotalYield(events, produced, key)
    decreases |events|
  {
    hide Multiplicity, Producers;
    if events == {} {
      NoProducers(produced, key);
    } else {
      var x :| x in events;
      ProducersSplit(events, produced, key, x);
      TotalYieldSplit(events, produced, key, x);
      YieldCountsProducers(events - {x}, produced, key);
    }
  }

  lemma NoProducers(produced: map<nat, seq<Key>>, key: Key)
    ensures |Producers({}, produced, key)| == 0
  {
  }

  /**
   * Exactly once. However often events are delivered, redelivered, fail or are reviewed in between, a flag's occurrence
   * count is the number of distinct processed events that produced its key.
   */
  lemma CountsDistinctEvents(steps: seq<Step>, key: Key)
    ensures var s := Run(EMPTY, steps);
      Count(s.flags, key) == |Producers(s.processed, s.produced, key)|
  {
    hide Run;
    assert Inv(EMPTY);
    RunKeepsInv(EMPTY, steps);
    var s := Run(EMPTY, steps);
    YieldCountsProducers(s.processed, s.produced, key);
  }

  /** A run with every delivery of one event, failed or not, taken out. */
  function Without(steps: seq<Step>, event: nat): seq<Step> {
    if steps == [] then []
    else if (steps[0].Deliver? || steps[0].DeliverFails?) && steps[0].event == event then Without(steps[1..], event)
    else [steps[0]] + Without(steps[1..], event)
  }

  /** Once an event is processed, no number of further deliveries of it, anywhere in a run, makes any difference. */
  lemma {:induction false} RedeliveryIsIdle(s: System, steps: seq<Step>, event: nat)
    requires event in s.processed
    ensures Run(s, steps) == Run(s, Without(steps, event))
    decreases steps
  {
    if steps != [] {
      RedeliveryIsIdle(Apply(s, steps[0]), steps[1..], event);
      var rest := Without(steps[1..], event);
      assert ([steps[0]] + rest)[1..] == rest;
    }
  }

  /** Over a run without reviews of a flag its review status stays what it was, however often it is detected. */
  lemma {:induction false} DetectionKeepsReview(s: System, steps: seq<Step>, key: Key)
    requires key in s.flags
    requires forall i :: 0 <= i < |steps| ==> !(steps[i].Review? && steps[i].key == key)
    ensures var t := Run(s, steps);
      key in t.flags && t.flags[key].status == s.flags[key].status
    decreases steps
  {
    if steps != [] {
      if steps[0].Deliver? {
        RecordedCount(s.flags, Findings(steps[0].evaluation), key);
      }
      hide Recorded, Findings;
      DetectionKeepsReview(Apply(s, steps[0]), steps[1..], key);
    }
  }

  /** A flag that nobody has reviewed is open. */
  lemma {:induction false} UnreviewedIsOpen(s: System, steps: seq<Step>, key: Key)
    requires key in s.flags ==> s.flags[key].status == OPEN
    requires forall i :: 0 <= i < |steps| ==> !(steps[i].Review? && steps[i].key == key)
    ensures key in Run(s, steps).flags ==> Run(s, steps).flags[key].status == OPEN
    decreases steps
  {
    if steps != [] {
      if steps[0].Deliver? {
        RecordedStaysOpen(s.flags, Findings(steps[0].evaluation), key);
      }
      hide Recorded, Findings;
      UnreviewedIsOpen(Apply(s, steps[0]), steps[1..], key);
    }
  }

  lemma {:induction false} RecordedStaysOpen(flags: map<Key, Flag>, findings: seq<Key>, key: Key)
    requires key in flags ==> flags[key].status == OPEN
    ensures key in Recorded(flags, findings) ==> Recorded(flags, findings)[key].status == OPEN
  {
    if findings != [] {
      RecordedStaysOpen(flags, findings[..|findings| - 1], key);
    }
  }

  /** A review sets the status of its own flag and leaves counts, other flags and processed events alone. */
  lemma ReviewExactly(s: System, key: Key, status: ReviewStatus)
    ensures var t := Apply(s, Review(key, status));
      && t.processed == s.processed && t.produced == s.produced && t.flags.Keys == s.flags.Keys
      && (forall k :: k in s.flags ==> t.flags[k] == if k == key then Flag(status, s.flags[k].occurrenceCount) else s.flags[k])
  {
  }
}
