/** What the reservation window is for: jobs that come upon a submission in progress. */
module Reservations {
  import opened Wrappers
  import opened SmsOutbox

  /** A row that says a submission is in progress. */
  predicate UnderWay(m: Message) { !Finished(m) && m.category == InProgress }

  /** The submission was begun less than a window ago. */
  predicate Fresh(c: Config, m: Message, now: int) {
    m.lastAttemptAt.Some? && now - m.lastAttemptAt.value < c.window
  }

  predicate DeadLettered(s: System) { s.message.Some? && s.message.value.deadLettered }

  // ----- one job

  /** A job that reads a fresh reservation ends there: event, message, reservation and sends are as they were. */
  lemma FreshIsLeftAlone(c: Config, s: System, h: nat, m: Message, ok: bool)
    requires c.reserves && h in s.handlers && s.handlers[h] == Resolved(m) && UnderWay(m) && Fresh(c, m, s.clock)
    ensures Apply(c, s, Decide(h, ok)) == s.(handlers := s.handlers - {h})
  {
  }

  lemma StaleGoesUnknown(c: Config, s: System, h: nat, m: Message, ok: bool)
    requires c.reserves && h in s.handlers && s.handlers[h] == Resolved(m) && UnderWay(m) && !Fresh(c, m, s.clock)
    ensures Apply(c, s, Decide(h, ok)) == s.(handlers := s.handlers[h := ToMarkUnknown(None)])
  {
  }

  /** A job that reads a stale reservation closes message and event, and sends nothing. */
  lemma StaleIsClosed(c: Config, s: System, h: nat, m: Message, ok: bool)
    requires c.reserves && h in s.handlers && s.handlers[h] == Resolved(m) && UnderWay(m) && !Fresh(c, m, s.clock)
    requires s.message.Some?
    ensures var t := Run(c, s, [Decide(h, ok), MarkUnknown(h), WriteEvent(h)]);
      && h !in t.handlers && t.sends == s.sends
      && t.message.Some? && t.message.value.status == FAILED && t.message.value.deadLettered
      && t.event.status == EFAILED && t.event.deadLettered
  {
    hide Run, Apply;
    RunThree(c, s, Decide(h, ok), MarkUnknown(h), WriteEvent(h));
    StaleGoesUnknown(c, s, h, m, ok);
    var s1 := s.(handlers := s.handlers[h := ToMarkUnknown(None)]);
    MarkUnknownEffect(c, s1, h, None);
    WriteEventEffect(c, MarkUnknownStep(s1, h, None), h, MarkDeadLettered, None);
  }

  /** A job that reads a message which is closed or has used up its five attempts closes the event, and leaves the message alone. */
  lemma ExhaustedClosesEvent(c: Config, s: System, h: nat, m: Message, ok: bool)
    requires h in s.handlers && s.handlers[h] == Resolved(m) && !Finished(m) && !(c.reserves && m.category == InProgress)
    requires m.deadLettered || m.attempts >= 5
    ensures var t := Run(c, s, [Decide(h, ok), WriteEvent(h)]);
      t == s.(handlers := s.handlers - {h}, event := s.event.(status := EFAILED, deadLettered := true))
  {
    hide Run, Apply;
    RunTwo(c, s, Decide(h, ok), WriteEvent(h));
    ExhaustedDecides(c, s, h, m, ok);
    var s1 := Put(s, h, ToWriteEvent(MarkDeadLettered, None));
    WriteEventEffect(c, s1, h, MarkDeadLettered, None);
    assert s1.handlers - {h} == s.handlers - {h};
  }

  lemma ExhaustedDecides(c: Config, s: System, h: nat, m: Message, ok: bool)
    requires h in s.handlers && s.handlers[h] == Resolved(m) && !Finished(m) && !(c.reserves && m.category == InProgress)
    requires m.deadLettered || m.attempts >= 5
    ensures Apply(c, s, Decide(h, ok)) == Put(s, h, ToWriteEvent(MarkDeadLettered, None))
  {
  }

  /** A job that found no message when it began reads the one there is by now, or creates it. */
  lemma ResolveReads(c: Config, s: System, h: nat)
    requires h in s.handlers && s.handlers[h] == Published(None)
    ensures var t := Apply(c, s, Resolve(h, true));
      && t.message == Some(if s.message.Some? then s.message.value else NEW_MESSAGE)
      && t == s.(message := t.message, handlers := s.handlers[h := Resolved(t.message.value)])
  {
  }

  /**
   * When the write that should record an answer, or the event write after a recorded failure, does not go through,
   * nobody can say what became of the submission: message and event are dead-lettered, and nothing is sent again.
   */
  lemma LostWriteCloses(c: Config, s: System, h: nat, lost: Step)
    requires c.reserves && h in s.handlers && s.message.Some?
    requires (lost == RecordFails(h) && s.handlers[h].ToRecord?)
             || (lost == WriteEventFails(h) && s.handlers[h].ToWriteEvent? && s.handlers[h].inTry.Some?)
    ensures var t := Run(c, s, [lost, MarkUnknown(h), WriteEvent(h)]);
      && h !in t.handlers && |t.sends| == |s.sends| && t.event.deadLettered
      && t.message.Some? && t.message.value.status == FAILED && t.message.value.deadLettered
      && (lost.RecordFails? ==> t.sends == SetFate(s.sends, s.handlers[h].send, Unknown))
      && (lost.WriteEventFails? ==> t.sends == s.sends)
  {
    hide Run, Apply;
    RunThree(c, s, lost, MarkUnknown(h), WriteEvent(h));
    var own := if lost.RecordFails? then Some(s.handlers[h].send) else None;
    LostWrite(c, s, h, lost);
    var s1 := s.(handlers := s.handlers[h := ToMarkUnknown(own)]);
    MarkUnknownEffect(c, s1, h, own);
    WriteEventEffect(c, MarkUnknownStep(s1, h, own), h, MarkDeadLettered, None);
  }

  lemma LostWrite(c: Config, s: System, h: nat, lost: Step)
    requires c.reserves && h in s.handlers
    requires (lost == RecordFails(h) && s.handlers[h].ToRecord?)
             || (lost == WriteEventFails(h) && s.handlers[h].ToWriteEvent? && s.handlers[h].inTry.Some?)
    ensures Apply(c, s, lost)
         == s.(handlers := s.handlers[h := ToMarkUnknown(if lost.RecordFails? then Some(s.handlers[h].send) else None)])
  {
  }

  /** All the calls of a job up to its decision, and the two it makes when it gives the submission up. */
  function Visit(h: nat): seq<Step> {
    [Start(h), WritePublished(h), Resolve(h, true), Decide(h, true), MarkUnknown(h), WriteEvent(h)]
  }

  lemma LeftTheJob(c: Config, s: System, h: nat)
    requires h !in s.handlers
    ensures Apply(c, s, MarkUnknown(h)) == s && Apply(c, s, WriteEvent(h)) == s
  {
    hide HandlerStep;
  }

  /**
   * A second job of an event whose message is being submitted: it dead-letters the message exactly when the
   * reservation is no longer fresh; otherwise it leaves message, reservation and sends alone.
   */
  lemma SecondJob(c: Config, s: System, h: nat, m: Message)
    requires c.reserves && h !in s.handlers && !s.event.deadLettered && !s.event.processed
    requires s.message == Some(m) && UnderWay(m) && !m.deadLettered
    ensures var t := Run(c, s, Visit(h));
      && h !in t.handlers && t.sends == s.sends
      && (DeadLettered(t) <==> !Fresh(c, m, s.clock))
      && (Fresh(c, m, s.clock) ==> t.message == s.message && t.holder == s.holder && !t.event.deadLettered)
      && (!Fresh(c, m, s.clock) ==> t.event.deadLettered)
  {
    hide Run, Apply;
    RunSix(c, s, Start(h), WritePublished(h), Resolve(h, true), Decide(h, true), MarkUnknown(h), WriteEvent(h));
    ReachesResolved(c, s, h, m);
    var s3 := Put(s, h, Resolved(m)).(event := s.event.(status := PUBLISHED));
    if Fresh(c, m, s.clock) {
      FreshIsLeftAlone(c, s3, h, m, true);
      LeftTheJob(c, s3.(handlers := s3.handlers - {h}), h);
    } else {
      RunThree(c, s3, Decide(h, true), MarkUnknown(h), WriteEvent(h));
      StaleIsClosed(c, s3, h, m, true);
    }
  }

  // ----- runs

  /** The row was read in time, its payload can be sent, and the database takes every write to the event. */
  predicate Orderly(c: Config, s: System, step: Step) {
    && !step.WriteEventFails?
    && (step.Decide? && step.h in s.handlers && s.handlers[step.h].Resolved? ==>
          && step.payloadOk
          && (UnderWay(s.handlers[step.h].row) ==> Fresh(c, s.handlers[step.h].row, s.clock)))
  }

  predicate OrderlyRun(c: Config, s: System, steps: seq<Step>)
    decreases steps
  {
    steps != [] ==> Orderly(c, s, steps[0]) && OrderlyRun(c, Apply(c, s, steps[0]), steps[1..])
  }

  /** Nobody but the holder of the reservation is about to close the message. */
  predicate Calm(x: Handler) { !x.ToMarkInvalid? && (x.ToMarkUnknown? ==> x.own.Some?) && (x.ToRecord? ==> x.result != Threw) }

  ghost predicate Peaceful(s: System) { forall h :: h in s.handlers ==> Calm(s.handlers[h]) }

  /** A handler step moves or ends its own handler; every other handler is where it was. */
  lemma OnlyOwnHandlerMoves(c: Config, s: System, step: Step, h: nat, x: Handler, k: nat)
    requires k != h && k in HandlerStep(c, s, step, h, x).handlers
    ensures k in s.handlers && HandlerStep(c, s, step, h, x).handlers[k] == s.handlers[k]
  {
    hide SetFate, FailedRow, AcceptedRow, WriteEventRow, Finished, Unchanged;
  }

  lemma HandlerStaysCalm(c: Config, s: System, step: Step, h: nat, x: Handler)
    requires c.reserves && h in s.handlers && s.handlers[h] == x && Calm(x)
    requires step.Decide? || step.WriteEventFails? ==> step.h == h && Orderly(c, s, step)
    ensures var t := HandlerStep(c, s, step, h, x); h in t.handlers ==> Calm(t.handlers[h])
  {
    hide SetFate, FailedRow, AcceptedRow, WriteEventRow, Unchanged;
  }

  lemma StepStaysPeaceful(c: Config, s: System, step: Step)
    requires c.reserves && Peaceful(s) && Orderly(c, s, step)
    ensures Peaceful(Apply(c, s, step))
  {
    hide HandlerStep, Calm, Orderly;
    match step
    case Start(h) => StartsCalm(s.message);
    case DeliveryReport(_) =>
    case CompleteProcessed =>
    case CompleteSent =>
    case ClaimForPublish(_, _) =>
    case PublishDone =>
    case PublishFailed =>
    case Tick(_) =>
    case _ =>
      if step.h in s.handlers {
        HandlerStaysCalm(c, s, step, step.h, s.handlers[step.h]);
        var t := Apply(c, s, step);
        forall k | k in t.handlers && k != step.h ensures k in s.handlers && t.handlers[k] == s.handlers[k] {
          OnlyOwnHandlerMoves(c, s, step, step.h, s.handlers[step.h], k);
        }
      }
  }

  lemma StartsCalm(m: Option<Message>)
    ensures Calm(Loaded(m))
  {
  }

  lemma {:induction false} RunStaysPeaceful(c: Config, s: System, steps: seq<Step>)
    requires c.reserves && Peaceful(s) && OrderlyRun(c, s, steps)
    ensures Peaceful(Run(c, s, steps))
    decreases steps
  {
    hide Apply, Peaceful, Orderly;
    if steps != [] {
      StepStaysPeaceful(c, s, steps[0]);
      RunStaysPeaceful(c, Apply(c, s, steps[0]), steps[1..]);
    }
  }

  /** Among calm handlers only the record of an answer and the holder's own report of an unknown one close a message. */
  lemma WhoCloses(c: Config, s: System, step: Step, h: nat, x: Handler)
    requires c.reserves && Calm(x)
    ensures var t := HandlerStep(c, s, step, h, x);
      DeadLettered(t) && !DeadLettered(s) ==> (step.Record? && x.ToRecord?) || (step.MarkUnknown? && x.ToMarkUnknown? && x.own.Some?)
  {
    hide Release, SetFate, WriteEventRow;
  }

  lemma StepCloses(c: Config, s: System, step: Step)
    requires c.reserves && Inv(s) && Peaceful(s)
    ensures DeadLettered(Apply(c, s, step)) && !DeadLettered(s) ==>
      (step.Record? || step.MarkUnknown?) && s.holder == Some(step.h)
  {
    hide HandlerStep;
    match step
    case Start(_) =>
    case DeliveryReport(_) =>
    case CompleteProcessed =>
    case CompleteSent =>
    case ClaimForPublish(_, _) =>
    case PublishDone =>
    case PublishFailed =>
    case Tick(_) =>
    case _ =>
      if step.h in s.handlers {
        assert HandlerSound(s, step.h, s.handlers[step.h]);
        WhoCloses(c, s, step, step.h, s.handlers[step.h]);
      }
  }

  /**
   * The window protects the submission. In any run in which every job that comes upon a reservation reads it within
   * its window, payloads can be sent and event writes succeed, only the holder of the reservation dead-letters the message.
   */
  lemma OnlyHolderDeadLetters(c: Config, start: System, steps: seq<Step>, step: Step)
    requires c.reserves && Initial(start) && OrderlyRun(c, start, steps)
    ensures var s := Run(c, start, steps);
      DeadLettered(Apply(c, s, step)) && !DeadLettered(s) ==>
        (step.Record? || step.MarkUnknown?) && s.holder == Some(step.h)
  {
    hide Run, Apply, OrderlyRun;
    RunKeepsInv(c, start, steps);
    RunStaysPeaceful(c, start, steps);
    StepCloses(c, Run(c, start, steps), step);
  }
}
