/** What one undisturbed job, and one recovery cycle, do to an event and its message: all cases, in full. */
module JobOutcomes {
  import opened Wrappers
  import opened SmsOutbox
  import opened OutboxProgress

  // ----- one submission

  /** A failure closes the message: the provider ruled a retry out, the budget of five is spent, or nobody knows what happened. */
  predicate GivesUp(c: Config, m: Message, result: SendResult) {
    result == FailedTerminal || m.attempts + 1 == 5 || (c.reserves && result == Threw)
  }

  /** The message after its submission was answered. */
  function Answered(c: Config, m: Message, now: int, result: SendResult): Message {
    var tried := m.(attempts := m.attempts + 1, lastAttemptAt := Some(now));
    match result
    case Sent => tried.(status := SENT, category := NoCategory)
    case Delivered => tried.(status := DELIVERED, category := NoCategory, delivered := true)
    case Suppressed => tried.(status := SUPPRESSED, category := NoCategory)
    case _ =>
      var failed := tried.(status := FAILED, failed := true);
      if GivesUp(c, m, result) then failed.(deadLettered := true, category := DeadLetter)
      else failed.(category := RetryableFailure)
  }

  /** The event after it: left PUBLISHED for the recovery cycle to complete, failed for a retry, or dead-lettered. */
  function EventAfter(c: Config, e: Event, m: Message, result: SendResult): Event {
    match result
    case Sent => e
    case Delivered => e
    case Suppressed => e
    case _ => e.(status := EFAILED, deadLettered := GivesUp(c, m, result))
  }

  function FateOf(c: Config, result: SendResult): Fate {
    match result
    case Threw => if c.reserves then Unknown else Failure
    case FailedRetryable => Failure
    case FailedTerminal => Failure
    case _ => Accepted
  }

  /** A submission on its way. */
  function OnItsWay(c: Config, s: System, h: nat, m: Message): System {
    s.(handlers := map[h := Sending(m, s.clock, |s.sends|)], message := Some(Reserved(c, m, s.clock)),
       holder := if c.reserves then Some(h) else None, sends := s.sends + [Pending])
  }

  lemma GetsOnItsWay(c: Config, s: System, h: nat, m: Message)
    requires s.handlers == map[h := ToClaim(m, s.clock)] && s.message == Some(m) && s.holder == None && Submittable(m)
    ensures Apply(c, Apply(c, s, Claim(h)), Send(h)) == OnItsWay(c, s, h, m)
  {
    hide Apply;
    ClaimEffect(c, s, h, m, s.clock);
    var s1 := ClaimStep(c, s, h, m, s.clock);
    assert s1.handlers == map[h := ToSend(m, s.clock)];
    SmsOutbox.SendEffect(c, s1, h, m, s.clock);
    assert Put(s1, h, Sending(m, s.clock, |s.sends|)).handlers == OnItsWay(c, s, h, m).handlers;
  }

  /** The end of a job from its submission on: answer, record, and the last writes. */
  lemma AnswerAndClose(c: Config, s: System, h: nat, m: Message, result: SendResult)
    requires s.holder == None && Submittable(m) && !s.event.deadLettered
    ensures var t := Apply(c, Apply(c, OnItsWay(c, s, h, m), Return(h, result)), Record(h));
      Run(c, t, Closing(h)) == s.(
        handlers := map[], message := Some(Answered(c, m, s.clock, result)), event := EventAfter(c, s.event, m, result),
        sends := s.sends + [FateOf(c, result)])
  {
    hide Run, Apply;
    var way := OnItsWay(c, s, h, m);
    var r := ToRetry(m, s.clock, |s.sends|);
    ReturnEffect(c, way, h, m, s.clock, |s.sends|, result);
    if result == Threw && c.reserves {
      var unknown := way.(handlers := map[h := ToMarkUnknown(Some(r.send))]);
      assert Put(way, h, ToMarkUnknown(Some(r.send))).handlers == unknown.handlers;
      NothingToRecord(c, unknown, h);
      UnknownCloses(c, unknown, h);
      FateIsSet(s.sends, Unknown);
    } else {
      var answered := way.(handlers := map[h := ToRecord(m, s.clock, r.send, result)]);
      assert Put(way, h, ToRecord(m, s.clock, r.send, result)).handlers == answered.handlers;
      RecordEffect(c, answered, h, r, result);
      RecordAndClose(c, s, answered, h, m, result);
    }
  }

  lemma FateIsSet(sends: seq<Fate>, f: Fate)
    ensures SetFate(sends + [Pending], |sends|, f) == sends + [f]
  {
  }

  lemma RecordAndClose(c: Config, s: System, answered: System, h: nat, m: Message, result: SendResult)
    requires s.holder == None && Submittable(m) && !s.event.deadLettered && (result == Threw ==> !c.reserves)
    requires answered == OnItsWay(c, s, h, m).(handlers := map[h := ToRecord(m, s.clock, |s.sends|, result)])
    ensures Run(c, RecordStep(answered, h, ToRetry(m, s.clock, |s.sends|), result), Closing(h)) == s.(
        handlers := map[], message := Some(Answered(c, m, s.clock, result)), event := EventAfter(c, s.event, m, result),
        sends := s.sends + [FateOf(c, result)])
  {
    hide Run, Apply, RecordStep, Answered, Reserved;
    var t := RecordStep(answered, h, ToRetry(m, s.clock, |s.sends|), result);
    if result.Sent? || result.Delivered? || result.Suppressed? {
      AcceptedRecord(c, s, answered, h, m, result);
      NothingToClose(c, t, h);
    } else {
      var w := FailedRecord(c, s, answered, h, m, result);
      KnownCloses(c, t, h);
    }
  }

  lemma AcceptedRecord(c: Config, s: System, answered: System, h: nat, m: Message, result: SendResult)
    requires s.holder == None && Submittable(m) && (result.Sent? || result.Delivered? || result.Suppressed?)
    requires answered == OnItsWay(c, s, h, m).(handlers := map[h := ToRecord(m, s.clock, |s.sends|, result)])
    ensures RecordStep(answered, h, ToRetry(m, s.clock, |s.sends|), result)
         == s.(handlers := map[], message := Some(Answered(c, m, s.clock, result)), sends := s.sends + [Accepted])
  {
    FateIsSet(s.sends, Accepted);
    assert answered.handlers - {h} == map[];
  }

  lemma FailedRecord(c: Config, s: System, answered: System, h: nat, m: Message, result: SendResult) returns (x: Handler)
    requires s.holder == None && Submittable(m) && (result == Threw ==> !c.reserves)
    requires result.FailedRetryable? || result.FailedTerminal? || result.Threw?
    requires answered == OnItsWay(c, s, h, m).(handlers := map[h := ToRecord(m, s.clock, |s.sends|, result)])
    ensures RecordStep(answered, h, ToRetry(m, s.clock, |s.sends|), result)
         == s.(handlers := map[h := x], message := Some(Answered(c, m, s.clock, result)), sends := s.sends + [Failure])
    ensures x.ToWriteEvent? && x.write == if GivesUp(c, m, result) then MarkDeadLettered else MarkRetry
  {
    FateIsSet(s.sends, Failure);
    var r := ToRetry(m, s.clock, |s.sends|);
    var t := RecordFailure(answered, h, r, result.FailedTerminal?, !result.Threw?);
    assert RecordStep(answered, h, r, result) == t;
    hide RecordStep, SetFate;
    x := t.handlers[h];
    assert t.handlers == map[h := x];
  }

  // ----- a whole job

  /** The message a job works on: the event's, or a new one. */
  function Subject(s: System): Message { if s.message.Some? then s.message.value else NEW_MESSAGE }

  /** What a job makes of its event and message, and whether it submits. */
  function Outcome(c: Config, s: System, ok: bool, result: SendResult): System {
    var m := Subject(s);
    var published := s.event.(status := PUBLISHED);
    if s.message.None? && !ok then s.(event := s.event.(status := EFAILED, deadLettered := true))
    else if Finished(m) then s.(event := s.event.(status := COMPLETED, processed := true))
    else if !ok then
      s.(event := s.event.(status := EFAILED, deadLettered := true),
         message := Some(m.(status := FAILED, failed := true, deadLettered := true, category := InvalidPayload,
                            attempts := m.attempts + 1, lastAttemptAt := Some(s.clock))))
    else
      s.(event := EventAfter(c, published, m, result), message := Some(Answered(c, m, s.clock, result)),
         sends := s.sends + [FateOf(c, result)])
  }

  /**
   * One undisturbed job, in full. On an open event between jobs: a payload that cannot be read dead-letters event and
   * message; a finished message completes its event; otherwise the message is submitted once, and the answer decides.
   */
  lemma JobOutcome(c: Config, s: System, h: nat, ok: bool, result: SendResult)
    requires Quiet(s) && Open(s)
    ensures Job(c, s, h, ok, result) == Outcome(c, s, ok, result)
  {
    hide Run, Apply, Job, Answered, EventAfter, Quiet;
    JobParts(c, s, h, ok, result);
    var m := Subject(s);
    var begun := Begun(s, h, ok);
    if s.message.None? && !ok {
      OnlyEventLeft(c, begun, h, ok, result, MarkDeadLettered);
    } else if Finished(m) {
      FinishedOutcome(c, begun, h, ok, result, m);
    } else if !ok {
      InvalidOutcome(c, begun, h, result, m);
    } else {
      SubmitOutcome(c, begun, h, result, m);
    }
  }

  /** A job that has read its message, or found that it cannot have one. */
  function Begun(s: System, h: nat, ok: bool): System {
    if s.message.None? && !ok then
      s.(event := s.event.(status := PUBLISHED), handlers := map[h := ToWriteEvent(MarkDeadLettered, None)])
    else
      s.(event := s.event.(status := PUBLISHED), message := Some(Subject(s)), handlers := map[h := Resolved(Subject(s))])
  }

  lemma JobParts(c: Config, s: System, h: nat, ok: bool, result: SendResult)
    requires Quiet(s) && Open(s)
    ensures Job(c, s, h, ok, result) == Run(c, Run(c, Begun(s, h, ok), Submitting(h, ok, result)), Closing(h))
    ensures Begun(s, h, ok).holder == None && s.handlers == map[]
    ensures s.message.Some? && !Finished(s.message.value) ==> Submittable(s.message.value)
  {
    hide Run, Apply, Opening, Submitting, Closing;
    var steps1, steps2, steps3 := Opening(h, ok), Submitting(h, ok, result), Closing(h);
    RunConcat(c, s, steps1 + steps2, steps3);
    RunConcat(c, s, steps1, steps2);
    OpeningEffect(c, s, h, ok);
    assert Run(c, s, steps1) == Begun(s, h, ok);
  }

  lemma OnlyEventLeft(c: Config, s: System, h: nat, ok: bool, result: SendResult, w: EventWrite)
    requires s.handlers == map[h := ToWriteEvent(w, None)]
    ensures Run(c, Run(c, s, Submitting(h, ok, result)), Closing(h))
         == s.(handlers := map[], event := WriteEventRow(s.event, w))
  {
    hide Run, Apply;
    RunSix(c, s, Decide(h, ok), MarkInvalid(h), Claim(h), Send(h), Return(h, result), Record(h));
    NothingToDecide(c, s, h, ok);
    OnlyTheEventIsLeft(c, s, h, result);
    KnownCloses(c, s, h);
  }

  lemma FinishedOutcome(c: Config, s: System, h: nat, ok: bool, result: SendResult, m: Message)
    requires s.handlers == map[h := Resolved(m)] && Finished(m)
    ensures Run(c, Run(c, s, Submitting(h, ok, result)), Closing(h))
         == s.(handlers := map[], event := s.event.(status := COMPLETED, processed := true))
  {
    hide Run, Apply;
    RunSix(c, s, Decide(h, ok), MarkInvalid(h), Claim(h), Send(h), Return(h, result), Record(h));
    DecideFinished(c, s, h, ok, m);
    var decided := s.(handlers := map[h := ToWriteEvent(MarkCompleted, None)]);
    OnlyTheEventIsLeft(c, decided, h, result);
    KnownCloses(c, decided, h);
  }

  lemma InvalidOutcome(c: Config, s: System, h: nat, result: SendResult, m: Message)
    requires s.handlers == map[h := Resolved(m)] && s.message == Some(m) && Submittable(m)
    ensures Run(c, Run(c, s, Submitting(h, false, result)), Closing(h))
         == s.(handlers := map[], event := s.event.(status := EFAILED, deadLettered := true),
               message := Some(m.(status := FAILED, failed := true, deadLettered := true, category := InvalidPayload,
                                  attempts := m.attempts + 1, lastAttemptAt := Some(s.clock))))
  {
    hide Run, Apply;
    RunSix(c, s, Decide(h, false), MarkInvalid(h), Claim(h), Send(h), Return(h, result), Record(h));
    InvalidEffect(c, s, h, m);
    var invalid := Apply(c, Apply(c, s, Decide(h, false)), MarkInvalid(h));
    OnlyTheEventIsLeft(c, invalid, h, result);
    KnownCloses(c, invalid, h);
  }

  lemma SubmitOutcome(c: Config, s: System, h: nat, result: SendResult, m: Message)
    requires s.handlers == map[h := Resolved(m)] && s.message == Some(m) && Submittable(m) && s.holder == None
    requires !s.event.deadLettered
    ensures Run(c, Run(c, s, Submitting(h, true, result)), Closing(h)) == s.(
      handlers := map[], message := Some(Answered(c, m, s.clock, result)), event := EventAfter(c, s.event, m, result),
      sends := s.sends + [FateOf(c, result)])
  {
    hide Run, Apply, Answered, EventAfter, FateOf;
    RunSix(c, s, Decide(h, true), MarkInvalid(h), Claim(h), Send(h), Return(h, result), Record(h));
    ValidEffect(c, s, h, m);
    var claiming := s.(handlers := map[h := ToClaim(m, s.clock)]);
    GetsOnItsWay(c, claiming, h, m);
    AnswerAndClose(c, claiming, h, m, result);
  }

  // ----- the recovery cycle

  /** Between jobs the recovery cycle, in time, claims exactly the events that are not settled: none is lost, none disturbed. */
  lemma ClaimsExactlyUnsettled(c: Config, s: System)
    requires Quiet(s)
    ensures Claimed(s, true, true) <==> !Settled(s)
    ensures var t := Apply(c, s, ClaimForPublish(true, true));
      && (!Settled(s) ==> t == s.(event := s.event.(status := EQUEUED)))
      && (Settled(s) ==> t == s)
  {
    hide HandlerStep;
  }

  /** Before its time an event is left alone: a retry that is not due, a publication that is not stale. */
  lemma NotBeforeItsTime(c: Config, s: System, due: bool, stale: bool)
    requires Quiet(s)
    ensures !stale && (s.event.status == EQUEUED || s.event.status == PUBLISHED) ==> !Claimed(s, due, stale)
    ensures !due && (s.event.status == PENDING || s.event.status == EFAILED) ==> !Claimed(s, due, stale)
    ensures !Claimed(s, due, stale) ==> Apply(c, s, ClaimForPublish(due, stale)) == s
  {
    hide HandlerStep;
  }

  /** A claimed event is published, or put back to be claimed again; either way it is still to be settled. */
  lemma PublishOutcome(c: Config, s: System)
    requires Quiet(s) && !Settled(s) && s.event.status == EQUEUED
    ensures Apply(c, s, PublishDone) == s.(event := s.event.(status := PUBLISHED))
    ensures Apply(c, s, PublishFailed) == s.(event := s.event.(status := EFAILED))
  {
    hide HandlerStep;
  }
}
