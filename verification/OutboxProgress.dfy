/** Progress of an SMS event when its jobs run one at a time and none dies. */
module OutboxProgress {
  import opened Wrappers
  import opened SmsOutbox

  // ----- one whole job

  /** All the calls of one job, in program order; a call that is not the handler's next one does nothing. */
  function Opening(h: nat, ok: bool): seq<Step> { [Start(h), WritePublished(h), Resolve(h, ok)] }

  function Submitting(h: nat, ok: bool, result: SendResult): seq<Step> {
    [Decide(h, ok), MarkInvalid(h), Claim(h), Send(h), Return(h, result), Record(h)]
  }

  function Closing(h: nat): seq<Step> { [MarkUnknown(h), WriteEvent(h)] }

  function Job(c: Config, s: System, h: nat, ok: bool, result: SendResult): System {
    Run(c, s, Opening(h, ok) + Submitting(h, ok, result) + Closing(h))
  }

  // ----- between jobs

  predicate Settled(s: System) {
    s.event.deadLettered || (s.message.Some? && Finished(s.message.value))
  }

  function Attempts(s: System): nat { if s.message.Some? then s.message.value.attempts else 0 }

  /** What holds between jobs: no handler, no open reservation, and event and message in step. */
  predicate Quiet(s: System) {
    && s.handlers == map[] && s.holder == None && !s.orphaned
    && (s.message.Some? ==>
          && s.message.value.category != InProgress
          && (Finished(s.message.value) ==> !s.message.value.deadLettered)
          && (!Settled(s) ==> !s.message.value.deadLettered && s.message.value.attempts < OUTBOX_RETRY_ATTEMPTS))
    && (s.event.processed ==> s.message.Some? && Finished(s.message.value))
    && (s.event.status == COMPLETED ==> s.event.processed)
    && (s.message.Some? && Finished(s.message.value) && !s.event.processed && !s.event.deadLettered ==>
          s.event.status == PUBLISHED)
  }

  predicate Open(s: System) { !s.event.deadLettered && !s.event.processed }

  // ----- the phases of a job

  /** A closed event turns its job away. */
  lemma JobOnClosed(c: Config, s: System, h: nat, ok: bool, result: SendResult)
    requires s.handlers == map[] && !Open(s)
    ensures Job(c, s, h, ok, result) == s
  {
    Ignored(c, s, h, Opening(h, ok) + Submitting(h, ok, result) + Closing(h));
  }

  lemma {:induction false} Ignored(c: Config, s: System, h: nat, steps: seq<Step>)
    requires s.handlers == map[] && !Open(s)
    requires forall i :: 0 <= i < |steps| ==>
      steps[i] in {Start(h), WritePublished(h), MarkInvalid(h), Claim(h), Send(h), Record(h), MarkUnknown(h), WriteEvent(h)}
      || steps[i].Resolve? || steps[i].Decide? || steps[i].Return?
    ensures Run(c, s, steps) == s
    decreases steps
  {
    if steps != [] {
      assert Apply(c, s, steps[0]) == s;
      Ignored(c, s, h, steps[1..]);
    }
  }

  lemma OpeningEffect(c: Config, s: System, h: nat, ok: bool)
    requires Quiet(s) && Open(s)
    ensures var t := Run(c, s, Opening(h, ok));
      && t == s.(event := t.event, message := t.message, handlers := t.handlers)
      && t.event == s.event.(status := PUBLISHED)
      && if s.message.None? && !ok then
           t.message == None && t.handlers == map[h := ToWriteEvent(MarkDeadLettered, None)]
         else
           var m := if s.message.Some? then s.message.value else NEW_MESSAGE;
           t.message == Some(m) && t.handlers == map[h := Resolved(m)]
  {
    hide Run;
    RunThree(c, s, Start(h), WritePublished(h), Resolve(h, ok));
    var s1 := Apply(c, s, Start(h));
    assert s1.handlers == map[h := Loaded(s.message)];
    var s2 := Apply(c, s1, WritePublished(h));
    assert s2.handlers == map[h := Published(s.message)];
    var s3 := Apply(c, s2, Resolve(h, ok));
  }

  /** How the middle of a job ends, from the row it read. */
  predicate Submitted(c: Config, s: System, t: System, h: nat, m: Message) {
    && t.event == s.event && t.clock == s.clock && !t.orphaned
    && (t.holder == None || t.holder == Some(h))
    && t.message.Some?
    && ( || (Finished(t.message.value) && !t.message.value.deadLettered && t.message.value.category == NoCategory
             && t.holder == None && t.handlers == map[])
         || (t.message.value.status == FAILED && !t.message.value.deadLettered && t.message.value.category == RetryableFailure
             && t.message.value.attempts == m.attempts + 1 < OUTBOX_RETRY_ATTEMPTS && t.holder == None
             && h in t.handlers && t.handlers == map[h := t.handlers[h]]
             && t.handlers[h].ToWriteEvent? && t.handlers[h].write == MarkRetry)
         || (t.message.value.status == FAILED && t.message.value.category != InProgress && t.holder == None
             && h in t.handlers && t.handlers == map[h := t.handlers[h]]
             && t.handlers[h].ToWriteEvent? && t.handlers[h].write == MarkDeadLettered)
         || (h in t.handlers && t.handlers == map[h := t.handlers[h]]
             && t.handlers[h].ToMarkUnknown? && t.message.value.status != SENT
             && !Finished(t.message.value)))
  }

  /** A handler about to write its event has no other call to make. */
  lemma OnlyTheEventIsLeft(c: Config, s: System, h: nat, result: SendResult)
    requires h in s.handlers && s.handlers[h].ToWriteEvent?
    ensures Apply(c, s, MarkInvalid(h)) == s && Apply(c, s, Claim(h)) == s && Apply(c, s, Send(h)) == s
    ensures Apply(c, s, Return(h, result)) == s && Apply(c, s, Record(h)) == s && Apply(c, s, MarkUnknown(h)) == s
  {
  }

  lemma InvalidEffect(c: Config, s: System, h: nat, m: Message)
    requires s.handlers == map[h := Resolved(m)] && s.message == Some(m)
    requires m.category != InProgress && !Finished(m) && !m.deadLettered && m.attempts < OUTBOX_RETRY_ATTEMPTS
    ensures Apply(c, Apply(c, s, Decide(h, false)), MarkInvalid(h))
         == s.(handlers := map[h := ToWriteEvent(MarkDeadLettered, None)],
               message := Some(FailedRow(m, s.clock, true, InvalidPayload)))
  {
  }

  lemma ValidEffect(c: Config, s: System, h: nat, m: Message)
    requires s.handlers == map[h := Resolved(m)]
    requires m.category != InProgress && !Finished(m) && !m.deadLettered && m.attempts < OUTBOX_RETRY_ATTEMPTS
    ensures Apply(c, Apply(c, s, Decide(h, true)), MarkInvalid(h)) == s.(handlers := map[h := ToClaim(m, s.clock)])
  {
  }

  lemma SubmittingEffect(c: Config, s: System, h: nat, ok: bool, result: SendResult, m: Message)
    requires s.handlers == map[h := Resolved(m)] && s.message == Some(m) && s.holder == None && !s.orphaned
    requires m.category != InProgress && !Finished(m) && !m.deadLettered && m.attempts < OUTBOX_RETRY_ATTEMPTS
    ensures Submitted(c, s, Run(c, s, Submitting(h, ok, result)), h, m)
  {
    hide Run, Apply;
    RunSix(c, s, Decide(h, ok), MarkInvalid(h), Claim(h), Send(h), Return(h, result), Record(h));
    var s2 := Apply(c, Apply(c, s, Decide(h, ok)), MarkInvalid(h));
    if !ok {
      InvalidEffect(c, s, h, m);
      OnlyTheEventIsLeft(c, s2, h, result);
    } else {
      ValidEffect(c, s, h, m);
      ClaimAndSend(c, s2, h, m, s.clock);
      AnswerEffect(c, Apply(c, Apply(c, s2, Claim(h)), Send(h)), h, ToRetry(m, s.clock, |s.sends|), result);
    }
  }

  lemma ClaimAndSend(c: Config, s: System, h: nat, m: Message, at: int)
    requires s.handlers == map[h := ToClaim(m, at)] && s.message == Some(m) && s.holder == None && !m.deadLettered
    ensures var t := Apply(c, Apply(c, s, Claim(h)), Send(h));
      && t.handlers == map[h := Sending(m, at, |s.sends|)]
      && t.holder == (if c.reserves then Some(h) else None)
      && t.message.Some? && t.message.value == m.(category := t.message.value.category, lastAttemptAt := t.message.value.lastAttemptAt)
      && t.event == s.event && t.clock == s.clock && t.orphaned == s.orphaned
  {
    var s1 := Apply(c, s, Claim(h));
    assert s1.handlers == map[h := ToSend(m, at)];
  }

  lemma AnswerEffect(c: Config, s: System, h: nat, r: ToRetry, result: SendResult)
    requires s.handlers == map[h := Sending(r.row, r.at, r.send)] && s.message.Some?
    requires s.holder == (if c.reserves then Some(h) else None) && !s.orphaned
    requires r.row.attempts == s.message.value.attempts < OUTBOX_RETRY_ATTEMPTS
    requires !s.message.value.deadLettered && !Finished(s.message.value)
    ensures var t := Apply(c, Apply(c, s, Return(h, result)), Record(h));
      Submitted(c, s, t, h, r.row)
  {
    var unknown := s.(handlers := map[h := ToMarkUnknown(Some(r.send))]);
    if result == Threw && c.reserves {
      NothingToRecord(c, unknown, h);
    }
    hide Apply;
    ReturnEffect(c, s, h, r.row, r.at, r.send, result);
    if result == Threw && c.reserves {
      assert Put(s, h, ToMarkUnknown(Some(r.send))).handlers == unknown.handlers;
    } else {
      var s1 := s.(handlers := map[h := ToRecord(r.row, r.at, r.send, result)]);
      assert Put(s, h, ToRecord(r.row, r.at, r.send, result)).handlers == s1.handlers;
      RecordEffect(c, s1, h, r, result);
      RecordedIsSubmitted(c, s, s1, h, r, result);
    }
  }

  lemma NothingToRecord(c: Config, s: System, h: nat)
    requires h in s.handlers && s.handlers[h].ToMarkUnknown?
    ensures Apply(c, s, Record(h)) == s
  {
  }

  lemma RecordedIsSubmitted(c: Config, s: System, s1: System, h: nat, r: ToRetry, result: SendResult)
    requires s1 == s.(handlers := map[h := ToRecord(r.row, r.at, r.send, result)]) && s.message.Some?
    requires s.holder == (if c.reserves then Some(h) else None) && !s.orphaned
    requires r.row.attempts == s.message.value.attempts < OUTBOX_RETRY_ATTEMPTS
    ensures Submitted(c, s, RecordStep(s1, h, r, result), h, r.row)
  {
    var t := RecordStep(s1, h, r, result);
    if result == Threw || result == FailedRetryable || result == FailedTerminal {
      assert t.handlers == map[h := t.handlers[h]];
    } else {
      assert t.handlers == map[];
    }
  }

  /** What the last two calls of a job leave, from where its middle ended. */
  lemma ClosingEffect(c: Config, s: System, t: System, h: nat, m: Message)
    requires Submitted(c, s, t, h, m) && s.event.status == PUBLISHED && Open(s) && !Finished(m)
    ensures var u := Run(c, t, Closing(h));
      && Quiet(u)
      && (Settled(u) || Attempts(u) == m.attempts + 1)
  {
    if h in t.handlers && t.handlers[h].ToMarkUnknown? {
      UnknownCloses(c, t, h);
    } else if h in t.handlers {
      KnownCloses(c, t, h);
    } else {
      NothingToClose(c, t, h);
    }
    hide Run, Apply;
  }

  lemma UnknownCloses(c: Config, t: System, h: nat)
    requires h in t.handlers && t.handlers == map[h := t.handlers[h]] && t.handlers[h].ToMarkUnknown? && t.message.Some?
    ensures var u := Run(c, t, Closing(h));
      && u.handlers == map[] && u.event == WriteEventRow(t.event, MarkDeadLettered)
      && u.holder == (if t.holder == Some(h) then None else t.holder)
      && u.message == Some(FailedRow(t.message.value, t.clock, true, DeadLetter))
      && u.sends == (if t.handlers[h].own.Some? then SetFate(t.sends, t.handlers[h].own.value, Unknown) else t.sends)
      && u == t.(handlers := u.handlers, event := u.event, holder := u.holder, message := u.message, sends := u.sends)
  {
    hide Run, Apply;
    RunTwo(c, t, MarkUnknown(h), WriteEvent(h));
    MarkUnknownEffect(c, t, h, t.handlers[h].own);
    var t1 := MarkUnknownStep(t, h, t.handlers[h].own);
    assert t1.handlers == map[h := ToWriteEvent(MarkDeadLettered, None)];
    WriteEventEffect(c, t1, h, MarkDeadLettered, None);
    assert Drop(t1, h).handlers == map[];
  }

  lemma KnownCloses(c: Config, t: System, h: nat)
    requires h in t.handlers && t.handlers == map[h := t.handlers[h]] && t.handlers[h].ToWriteEvent?
    ensures Run(c, t, Closing(h)) == t.(handlers := map[], event := WriteEventRow(t.event, t.handlers[h].write))
  {
    OnlyTheEventIsLeft(c, t, h, Sent);
    hide Run, Apply;
    RunTwo(c, t, MarkUnknown(h), WriteEvent(h));
    WriteEventEffect(c, t, h, t.handlers[h].write, t.handlers[h].inTry);
    assert Drop(t, h).handlers == map[];
  }

  lemma NothingToClose(c: Config, t: System, h: nat)
    requires h !in t.handlers
    ensures Run(c, t, Closing(h)) == t
  {
    hide Run, HandlerStep;
    RunTwo(c, t, MarkUnknown(h), WriteEvent(h));
  }

  /**
   * One whole job on an open event either settles it (dead-lettered, or the message sent, delivered or
   * suppressed) or uses up exactly one attempt.
   */
  lemma JobProgress(c: Config, s: System, h: nat, ok: bool, result: SendResult)
    requires Quiet(s)
    ensures var t := Job(c, s, h, ok, result);
      && Quiet(t)
      && (Settled(t) || (!Settled(s) && Attempts(t) == Attempts(s) + 1))
      && (Settled(s) ==> Settled(t))
      && (s.message.Some? && Finished(s.message.value) ==> t.sends == s.sends && t.message == s.message)
  {
    if !Open(s) {
      JobOnClosed(c, s, h, ok, result);
      if s.event.processed { assert Settled(s); }
    } else {
      OpenJobProgress(c, s, h, ok, result);
    }
  }

  lemma OpenJobProgress(c: Config, s: System, h: nat, ok: bool, result: SendResult)
    requires Quiet(s) && Open(s)
    ensures var t := Job(c, s, h, ok, result);
      && Quiet(t)
      && (Settled(t) || (!Settled(s) && Attempts(t) == Attempts(s) + 1))
      && (Settled(s) ==> Settled(t))
      && (s.message.Some? && Finished(s.message.value) ==> t.sends == s.sends && t.message == s.message)
  {
    var steps1, steps2, steps3 := Opening(h, ok), Submitting(h, ok, result), Closing(h);
    RunConcat(c, s, steps1 + steps2, steps3);
    RunConcat(c, s, steps1, steps2);
    OpeningEffect(c, s, h, ok);
    var begun := Run(c, s, steps1);
    if s.message.None? && !ok {
      EarlyDeadLetter(c, begun, h, ok, result);
    } else {
      var m := if s.message.Some? then s.message.value else NEW_MESSAGE;
      if Finished(m) {
        FinishedJob(c, begun, h, ok, result, m);
      } else {
        SubmittingEffect(c, begun, h, ok, result, m);
        ClosingEffect(c, begun, Run(c, begun, steps2), h, m);
      }
    }
  }

  lemma DecideFinished(c: Config, s: System, h: nat, ok: bool, m: Message)
    requires s.handlers == map[h := Resolved(m)] && Finished(m)
    ensures Apply(c, s, Decide(h, ok)) == s.(handlers := map[h := ToWriteEvent(MarkCompleted, None)])
  {
  }

  lemma NothingToDecide(c: Config, s: System, h: nat, ok: bool)
    requires h in s.handlers && s.handlers[h].ToWriteEvent?
    ensures Apply(c, s, Decide(h, ok)) == s
  {
  }

  /** A job that cannot build its message dead-letters the event. */
  lemma EarlyDeadLetter(c: Config, s: System, h: nat, ok: bool, result: SendResult)
    requires s.handlers == map[h := ToWriteEvent(MarkDeadLettered, None)] && s.holder == None && !s.orphaned
    requires s.message == None && !s.event.processed
    ensures var t := Run(c, Run(c, s, Submitting(h, ok, result)), Closing(h));
      Quiet(t) && t.event.deadLettered
  {
    hide Run, Apply;
    NothingToDecide(c, s, h, ok);
    RunSix(c, s, Decide(h, ok), MarkInvalid(h), Claim(h), Send(h), Return(h, result), Record(h));
    OnlyTheEventIsLeft(c, s, h, result);
    KnownCloses(c, s, h);
  }

  /** A job that finds its message finished completes the event and sends nothing. */
  lemma FinishedJob(c: Config, s: System, h: nat, ok: bool, result: SendResult, m: Message)
    requires s.handlers == map[h := Resolved(m)] && s.message == Some(m) && s.holder == None && !s.orphaned
    requires Finished(m) && !m.deadLettered && m.category != InProgress
    ensures var t := Run(c, Run(c, s, Submitting(h, ok, result)), Closing(h));
      Quiet(t) && t.message == s.message && t.sends == s.sends && t.event.processed
  {
    hide Run, Apply;
    RunSix(c, s, Decide(h, ok), MarkInvalid(h), Claim(h), Send(h), Return(h, result), Record(h));
    DecideFinished(c, s, h, ok, m);
    var s1 := Apply(c, s, Decide(h, ok));
    OnlyTheEventIsLeft(c, s1, h, result);
    KnownCloses(c, s1, h);
  }

  // ----- runs of jobs

  /** What happens between jobs: recovery, publishing, the clock and reports of delivery. */
  predicate Between(step: Step) {
    || step.CompleteProcessed? || step.CompleteSent? || step.ClaimForPublish? || step.PublishDone? || step.PublishFailed?
    || step.Tick? || step == DeliveryReport(true)
  }

  datatype Block = RunJob(h: nat, ok: bool, result: SendResult) | Other(step: Step)

  function Blocks(c: Config, s: System, blocks: seq<Block>): System
    decreases blocks
  {
    if blocks == [] then s
    else
      Blocks(c,
        match blocks[0]
        case RunJob(h, ok, result) => Job(c, s, h, ok, result)
        case Other(step) => Apply(c, s, step),
        blocks[1..])
  }

  function Jobs(blocks: seq<Block>): nat {
    if blocks == [] then 0 else (if blocks[0].RunJob? then 1 else 0) + Jobs(blocks[1..])
  }

  predicate Benign(blocks: seq<Block>) {
    forall i :: 0 <= i < |blocks| && blocks[i].Other? ==> Between(blocks[i].step)
  }

  lemma BetweenKeeps(c: Config, s: System, step: Step)
    requires Quiet(s) && Between(step)
    ensures var t := Apply(c, s, step);
      && Quiet(t) && Attempts(t) == Attempts(s) && t.sends == s.sends
      && (Settled(s) ==> Settled(t))
      && (s.message.Some? && Finished(s.message.value) ==> t.message.Some? && Finished(t.message.value))
  {
  }

  /** After k jobs the event is settled or has spent k attempts. */
  lemma {:induction false} ProgressPerJob(c: Config, s: System, blocks: seq<Block>)
    requires Quiet(s) && Benign(blocks)
    ensures var t := Blocks(c, s, blocks);
      && Quiet(t)
      && (Settled(t) || Attempts(t) >= Attempts(s) + Jobs(blocks))
      && (Settled(s) ==> Settled(t))
    decreases blocks
  {
    hide Quiet, Settled, Job, Apply;
    if blocks != [] {
      match blocks[0]
      case RunJob(h, ok, result) =>
        JobProgress(c, s, h, ok, result);
        ProgressPerJob(c, Job(c, s, h, ok, result), blocks[1..]);
      case Other(step) =>
        BetweenKeeps(c, s, step);
        ProgressPerJob(c, Apply(c, s, step), blocks[1..]);
    }
  }

  /**
   * Progress. However its five jobs answer and whatever recovery does in between, five jobs leave an SMS event
   * dead-lettered or its message sent, delivered or suppressed.
   */
  lemma SettledWithinFiveJobs(c: Config, start: System, blocks: seq<Block>)
    requires Initial(start) && Benign(blocks) && Jobs(blocks) >= OUTBOX_RETRY_ATTEMPTS
    ensures Settled(Blocks(c, start, blocks))
  {
    ProgressPerJob(c, start, blocks);
  }

  /** Once the message is finished no job sends again. */
  lemma {:induction false} FinishedNeverSends(c: Config, s: System, blocks: seq<Block>)
    requires Quiet(s) && Benign(blocks) && s.message.Some? && Finished(s.message.value)
    ensures Blocks(c, s, blocks).sends == s.sends
    decreases blocks
  {
    hide Quiet, Job, Apply;
    if blocks != [] {
      match blocks[0]
      case RunJob(h, ok, result) =>
        JobProgress(c, s, h, ok, result);
        FinishedNeverSends(c, Job(c, s, h, ok, result), blocks[1..]);
      case Other(step) =>
        BetweenKeeps(c, s, step);
        FinishedNeverSends(c, Apply(c, s, step), blocks[1..]);
    }
  }

  /** The next recovery cycle completes the event of a finished message, without a send. */
  lemma RecoveryCompletes(c: Config, s: System)
    requires Quiet(s) && s.message.Some? && Finished(s.message.value) && !s.event.deadLettered
    ensures var t := Apply(c, Apply(c, s, CompleteProcessed), CompleteSent);
      t.event.processed && t.event.status == COMPLETED && t.sends == s.sends && t.message == s.message
  {
  }

  lemma ClosedStep(c: Config, s: System, step: Step)
    requires !Open(s) && s.handlers == map[]
    ensures var t := Apply(c, s, step);
      && !Open(t) && t.handlers == map[] && |t.sends| == |s.sends|
      && (t.event.status == EQUEUED ==> s.event.status == EQUEUED)
  {
  }

  /**
   * A processed or dead-lettered event with no job in progress is closed for good: over any steps at all, jobs
   * delivered again included, no handler starts, nothing is sent and no recovery cycle claims the event.
   */
  lemma {:induction false} ClosedIsNeverClaimed(c: Config, s: System, steps: seq<Step>)
    requires !Open(s) && s.handlers == map[]
    ensures var t := Run(c, s, steps);
      && !Open(t) && t.handlers == map[] && |t.sends| == |s.sends|
      && (t.event.status == EQUEUED ==> s.event.status == EQUEUED)
    decreases steps
  {
    hide Apply;
    if steps != [] {
      ClosedStep(c, s, steps[0]);
      ClosedIsNeverClaimed(c, Apply(c, s, steps[0]), steps[1..]);
    }
  }

  lemma HandlerKeepsProcessed(c: Config, s: System, step: Step, h: nat, x: Handler)
    ensures var t := HandlerStep(c, s, step, h, x);
      && (s.event.processed ==> t.event.processed)
      && (t.event.status == EQUEUED ==> s.event.status == EQUEUED)
  {
  }

  lemma ProcessedStep(c: Config, s: System, step: Step)
    requires s.event.processed
    ensures var t := Apply(c, s, step);
      t.event.processed && (t.event.status == EQUEUED ==> s.event.status == EQUEUED)
  {
    hide HandlerStep;
    match step
    case Start(_) =>
    case DeliveryReport(_) =>
    case CompleteProcessed =>
    case CompleteSent =>
    case ClaimForPublish(_, _) =>
    case PublishDone =>
    case PublishFailed =>
    case Tick(_) =>
    case _ =>
      if step.h in s.handlers {
        HandlerKeepsProcessed(c, s, step, step.h, s.handlers[step.h]);
      }
  }

  /** A processed event stays processed and is never claimed again, even with jobs still in progress. */
  lemma {:induction false} ProcessedIsForGood(c: Config, s: System, steps: seq<Step>)
    requires s.event.processed
    ensures var t := Run(c, s, steps);
      t.event.processed && (t.event.status == EQUEUED ==> s.event.status == EQUEUED)
    decreases steps
  {
    hide Apply;
    if steps != [] {
      ProcessedStep(c, s, steps[0]);
      ProcessedIsForGood(c, Apply(c, s, steps[0]), steps[1..]);
    }
  }
}
