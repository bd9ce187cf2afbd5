/**
 * Delivery of one SMS event: any number of job handlers, each a sequence of separate database
 * calls, run concurrently with each other, with the recovery cycle and with delivery reports, and may die anywhere.
 */
module SmsOutbox {
  import opened Wrappers

  const OUTBOX_RETRY_ATTEMPTS := 5

  // ----- the two rows

  datatype MessageStatus = QUEUED | SENT | DELIVERED | FAILED | SUPPRESSED

  datatype Category = NoCategory | InProgress | RetryableFailure | DeadLetter | InvalidPayload | ReportedTerminal

  datatype Message = Message(
    status: MessageStatus, attempts: nat, deadLettered: bool, category: Category, lastAttemptAt: Option<int>,
    delivered: bool, failed: bool)

  const NEW_MESSAGE := Message(QUEUED, 0, false, NoCategory, None, false, false)

  datatype EventStatus = PENDING | EQUEUED | PUBLISHED | COMPLETED | EFAILED

  datatype Event = Event(status: EventStatus, processed: bool, deadLettered: bool)

  predicate Finished(m: Message) { m.status == SENT || m.status == DELIVERED || m.status == SUPPRESSED }

  // ----- handlers

  /** What `send` answers; `Threw` is an exception. */
  datatype SendResult = Sent | Delivered | Suppressed | FailedRetryable | FailedTerminal | Threw

  datatype EventWrite = MarkCompleted | MarkDeadLettered | MarkRetry

  /** Where a handler is: the call it makes next, and what it has read. */
  datatype Handler =
    | Loaded(message: Option<Message>)
    | Published(message: Option<Message>)
    | Resolved(row: Message)
    | ToMarkInvalid
    | ToClaim(row: Message, at: int)
    | ToSend(row: Message, at: int)
    | Sending(row: Message, at: int, send: nat)
    | ToRecord(row: Message, at: int, send: nat, result: SendResult)
    | ToMarkUnknown(own: Option<nat>)
    | ToWriteEvent(write: EventWrite, inTry: Option<ToRetry>)

  datatype ToRetry = ToRetry(row: Message, at: int, send: nat)

  /** The fate of each call to `send`, in order; kept only to state the theorems. */
  datatype Fate = Pending | Failure | Accepted | Unknown

  datatype Config = Config(reserves: bool, window: nat)

  /** `holder` and `orphaned` are history: who holds the reservation, and whether its holder died. */
  datatype System = System(
    clock: int, event: Event, message: Option<Message>, handlers: map<nat, Handler>,
    sends: seq<Fate>, holder: Option<nat>, orphaned: bool)

  datatype Step =
    | Start(h: nat)
    | WritePublished(h: nat)
    | Resolve(h: nat, payloadOk: bool)
    | Decide(h: nat, payloadOk: bool)
    | MarkInvalid(h: nat)
    | Claim(h: nat)
    | Send(h: nat)
    | Return(h: nat, result: SendResult)
    | Record(h: nat)
    | RecordFails(h: nat)
    | MarkUnknown(h: nat)
    | WriteEvent(h: nat)
    | WriteEventFails(h: nat)
    | Crash(h: nat)
    | DeliveryReport(delivered: bool)
    | CompleteProcessed
    | CompleteSent
    | ClaimForPublish(due: bool, stale: bool)
    | PublishDone
    | PublishFailed
    | Tick(to: int)

  function Put(s: System, h: nat, x: Handler): System { s.(handlers := s.handlers[h := x]) }

  function Drop(s: System, h: nat): System { s.(handlers := s.handlers - {h}) }

  function SetFate(sends: seq<Fate>, i: nat, f: Fate): seq<Fate> { if i < |sends| then sends[i := f] else sends }

  function Release(s: System, h: nat): System { if s.holder == Some(h) then s.(holder := None) else s }

  // ----- the branches of `handleJob`

  function DecideStep(c: Config, s: System, h: nat, m: Message, payloadOk: bool): System {
    if Finished(m) then Put(s, h, ToWriteEvent(MarkCompleted, None))
    else if c.reserves && m.category == InProgress then
      if m.lastAttemptAt.Some? && s.clock - m.lastAttemptAt.value < c.window then Drop(s, h)
      else Put(s, h, ToMarkUnknown(None))
    else if m.deadLettered || m.attempts >= OUTBOX_RETRY_ATTEMPTS then Put(s, h, ToWriteEvent(MarkDeadLettered, None))
    else if !payloadOk then Put(s, h, ToMarkInvalid)
    else Put(s, h, ToClaim(m, s.clock))
  }

  /** The columns of the message row that the reservation compares are as they were read. */
  predicate Unchanged(s: System, m: Message) {
    s.message.Some? && s.message.value.status == m.status && s.message.value.attempts == m.attempts
    && !s.message.value.deadLettered && s.message.value.category == m.category
  }

  /** The reservation: a compare-and-set on what the handler read. */
  function ClaimStep(c: Config, s: System, h: nat, m: Message, at: int): System {
    if !c.reserves then Put(s, h, ToSend(m, at))
    else if Unchanged(s, m) then
      Put(s, h, ToSend(m, at)).(
        message := Some(s.message.value.(category := InProgress, lastAttemptAt := Some(at))), holder := Some(h))
    else Drop(s, h)
  }

  function FailedRow(m: Message, at: int, dead: bool, category: Category): Message {
    m.(status := FAILED, attempts := m.attempts + 1, deadLettered := dead, category := category,
       lastAttemptAt := Some(at), failed := true)
  }

  /** `mapSmsDispatchResult`. */
  function AcceptedRow(m: Message, at: int, status: MessageStatus): Message {
    m.(status := status, attempts := m.attempts + 1, deadLettered := false, category := NoCategory,
       lastAttemptAt := Some(at), delivered := m.delivered || status == DELIVERED)
  }

  /** A failure closes the message when it is terminal or the retry budget is spent. */
  function RecordFailure(s: System, h: nat, r: ToRetry, terminal: bool, inTry: bool): System
    requires s.message.Some?
  {
    var dead := terminal || r.row.attempts + 1 >= OUTBOX_RETRY_ATTEMPTS;
    Put(Release(s, h), h, ToWriteEvent(if dead then MarkDeadLettered else MarkRetry, if inTry then Some(r) else None)).(
      message := Some(FailedRow(s.message.value, r.at, dead, if dead then DeadLetter else RetryableFailure)),
      sends := SetFate(s.sends, r.send, Failure))
  }

  function RecordStep(s: System, h: nat, r: ToRetry, result: SendResult): System
    requires s.message.Some?
  {
    match result
    case FailedRetryable => RecordFailure(s, h, r, false, true)
    case FailedTerminal => RecordFailure(s, h, r, true, true)
    case Threw => RecordFailure(s, h, r, false, false)
    case _ =>
      var status := if result == Delivered then DELIVERED else if result == Sent then SENT else SUPPRESSED;
      Drop(Release(s, h), h).(
        message := Some(AcceptedRow(s.message.value, r.at, status)), sends := SetFate(s.sends, r.send, Accepted))
  }

  /** The catch block of the send: unknown outcome with a reservation, one more failure without. */
  function CatchStep(c: Config, s: System, h: nat, r: ToRetry, own: bool): System {
    if c.reserves then Put(s, h, ToMarkUnknown(if own then Some(r.send) else None))
    else Put(s, h, ToRecord(r.row, r.at, r.send, Threw))
  }

  /** `markSmsSubmissionOutcomeUnknown`, its write to the message. */
  function MarkUnknownStep(s: System, h: nat, own: Option<nat>): System
    requires s.message.Some?
  {
    Put(Release(s, h), h, ToWriteEvent(MarkDeadLettered, None)).(
      message := Some(FailedRow(s.message.value, s.clock, true, DeadLetter)),
      sends := if own.Some? then SetFate(s.sends, own.value, Unknown) else s.sends)
  }

  function WriteEventRow(e: Event, w: EventWrite): Event {
    match w
    case MarkCompleted => e.(status := COMPLETED, processed := true)
    case MarkDeadLettered => e.(status := EFAILED, deadLettered := true)
    case MarkRetry => e.(status := EFAILED, deadLettered := false)
  }

  function HandlerStep(c: Config, s: System, step: Step, h: nat, x: Handler): System {
    match (step, x)
    case (WritePublished(_), Loaded(m)) => Put(s, h, Published(m)).(event := s.event.(status := PUBLISHED))
    case (Resolve(_, ok), Published(m)) =>
      if m.Some? then Put(s, h, Resolved(m.value))
      else if !ok then Put(s, h, ToWriteEvent(MarkDeadLettered, None))
      else if s.message.Some? then Put(s, h, Resolved(s.message.value))
      else Put(s, h, Resolved(NEW_MESSAGE)).(message := Some(NEW_MESSAGE))
    case (Decide(_, ok), Resolved(m)) => DecideStep(c, s, h, m, ok)
    case (MarkInvalid(_), ToMarkInvalid) =>
      if s.message.None? then s
      else Put(s, h, ToWriteEvent(MarkDeadLettered, None)).(
        message := Some(FailedRow(s.message.value, s.clock, true, InvalidPayload)))
    case (Claim(_), ToClaim(m, at)) => ClaimStep(c, s, h, m, at)
    case (Send(_), ToSend(m, at)) => Put(s, h, Sending(m, at, |s.sends|)).(sends := s.sends + [Pending])
    case (Return(_, result), Sending(m, at, i)) =>
      if result == Threw then CatchStep(c, s, h, ToRetry(m, at, i), true) else Put(s, h, ToRecord(m, at, i, result))
    case (Record(_), ToRecord(m, at, i, result)) =>
      if s.message.None? then s else RecordStep(s, h, ToRetry(m, at, i), result)
    case (RecordFails(_), ToRecord(m, at, i, _)) => CatchStep(c, s, h, ToRetry(m, at, i), true)
    case (MarkUnknown(_), ToMarkUnknown(own)) => if s.message.None? then s else MarkUnknownStep(s, h, own)
    case (WriteEvent(_), ToWriteEvent(w, _)) => Drop(s, h).(event := WriteEventRow(s.event, w))
    case (WriteEventFails(_), ToWriteEvent(_, inTry)) =>
      if inTry.Some? then CatchStep(c, s, h, inTry.value, false) else Drop(s, h)
    case (Crash(_), _) => Drop(s, h).(
      holder := if s.holder == Some(h) then None else s.holder,
      orphaned := s.orphaned || s.holder == Some(h))
    case _ => s
  }

  function ReportStep(s: System, delivered: bool): System {
    if s.message.None? then s
    else
      var m := s.message.value;
      if m.status != SENT || m.deadLettered || m.delivered || m.failed then s
      else if delivered then s.(message := Some(m.(status := DELIVERED, delivered := true)))
      else s.(message := Some(m.(status := FAILED, failed := true, category := ReportedTerminal)),
              sends := if s.sends == [] then [] else s.sends[|s.sends| - 1 := Failure])
  }

  /** Rows the recovery cycle may claim. */
  predicate Claimed(s: System, due: bool, stale: bool) {
    && !s.event.deadLettered && !s.event.processed
    && ( || ((s.event.status == PENDING || s.event.status == EFAILED) && due)
         || (s.event.status == EQUEUED && stale)
         || (s.event.status == PUBLISHED && stale
             && (s.message.None?
                 || ((s.message.value.status == QUEUED || s.message.value.status == FAILED)
                     && !s.message.value.deadLettered))))
  }

  function Apply(c: Config, s: System, step: Step): System {
    match step
    case Start(h) =>
      if h in s.handlers || s.event.deadLettered || s.event.processed then s else Put(s, h, Loaded(s.message))
    case DeliveryReport(delivered) => ReportStep(s, delivered)
    case CompleteProcessed =>
      if s.event.processed && s.event.status != COMPLETED && !s.event.deadLettered
      then s.(event := s.event.(status := COMPLETED)) else s
    case CompleteSent =>
      if s.event.status == PUBLISHED && !s.event.processed && !s.event.deadLettered
         && s.message.Some? && Finished(s.message.value) && !s.message.value.deadLettered
      then s.(event := s.event.(status := COMPLETED, processed := true)) else s
    case ClaimForPublish(due, stale) =>
      if Claimed(s, due, stale) then s.(event := s.event.(status := EQUEUED)) else s
    case PublishDone =>
      if s.event.status == EQUEUED && !s.event.processed && !s.event.deadLettered
      then s.(event := s.event.(status := PUBLISHED)) else s
    case PublishFailed =>
      if s.event.status == EQUEUED && !s.event.processed && !s.event.deadLettered
      then s.(event := s.event.(status := EFAILED)) else s
    case Tick(to) => s.(clock := if s.clock <= to then to else s.clock)
    case _ => if step.h in s.handlers then HandlerStep(c, s, step, step.h, s.handlers[step.h]) else s
  }

  function Run(c: Config, s: System, steps: seq<Step>): System
    decreases steps
  {
    if steps == [] then s else Run(c, Apply(c, s, steps[0]), steps[1..])
  }

  /** An event as a ledger transaction writes it, with or without its message row. */
  predicate Initial(s: System) {
    && s.event == Event(PENDING, false, false)
    && (s.message == None || s.message == Some(NEW_MESSAGE))
    && s.handlers == map[] && s.sends == [] && s.holder == None && !s.orphaned
  }

  // ----- the invariant

  predicate Holding(x: Handler) { x.ToSend? || x.Sending? || x.ToRecord? || (x.ToMarkUnknown? && x.own.Some?) }

  predicate InFlight(x: Handler) { x.Sending? || x.ToRecord? || (x.ToMarkUnknown? && x.own.Some?) }

  function SendOf(x: Handler): nat
    requires InFlight(x)
  {
    if x.ToMarkUnknown? then x.own.value else x.send
  }

  /** Rows a reservation could still be taken on. */
  predicate Claimable(m: Message) {
    !m.deadLettered && m.category != InProgress && (m.status == QUEUED || m.status == FAILED)
  }

  predicate AllFailed(sends: seq<Fate>) { forall i :: 0 <= i < |sends| ==> sends[i] == Failure }

  ghost predicate HandlerSound(s: System, h: nat, x: Handler) {
    && (Holding(x) <==> s.holder == Some(h))
    && (x.ToClaim? ==> Claimable(x.row) && x.row.attempts < OUTBOX_RETRY_ATTEMPTS)
    && (x.ToSend? ==> AllFailed(s.sends) && |s.sends| < OUTBOX_RETRY_ATTEMPTS)
    && (InFlight(x) ==> SendOf(x) == |s.sends| - 1 && s.sends[|s.sends| - 1] == Pending)
    && (x.ToRecord? ==> x.result != Threw)
  }

  predicate Busy(s: System) { s.holder.Some? || s.orphaned }

  predicate Unrecorded(s: System) {
    s.orphaned || (s.holder.Some? && s.holder.value in s.handlers && InFlight(s.handlers[s.holder.value]))
  }

  ghost predicate Inv(s: System) {
    && (forall h :: h in s.handlers ==> HandlerSound(s, h, s.handlers[h]))
    && (s.holder.Some? ==> s.holder.value in s.handlers)
    && !(s.holder.Some? && s.orphaned)
    && (Busy(s) ==> s.message.Some? && !Claimable(s.message.value) && !Finished(s.message.value))
    && (s.message.None? ==> s.sends == [])
    && (s.message.Some? && Claimable(s.message.value) ==> AllFailed(s.sends))
    && (forall i :: 0 <= i < |s.sends| - 1 ==> s.sends[i] == Failure)
    && |s.sends| <= OUTBOX_RETRY_ATTEMPTS
    && (s.message.Some? ==> |s.sends| <= s.message.value.attempts + if Unrecorded(s) then 1 else 0)
  }

  lemma StepKeepsInv(c: Config, s: System, step: Step)
    requires c.reserves && Inv(s)
    ensures Inv(Apply(c, s, step))
  {
    hide Inv, HandlerStep;
    match step
    case Start(h) => StartKeepsInv(s, h);
    case DeliveryReport(delivered) => ReportKeepsInv(s, delivered);
    case CompleteProcessed => EventKeepsInv(s, Apply(c, s, step).event);
    case CompleteSent => EventKeepsInv(s, Apply(c, s, step).event);
    case ClaimForPublish(_, _) => EventKeepsInv(s, Apply(c, s, step).event);
    case PublishDone => EventKeepsInv(s, Apply(c, s, step).event);
    case PublishFailed => EventKeepsInv(s, Apply(c, s, step).event);
    case Tick(to) => ClockKeepsInv(s, Apply(c, s, step).clock);
    case _ =>
      if step.h in s.handlers {
        HandlerStepKeepsInv(c, s, step, step.h);
      }
  }

  lemma StartKeepsInv(s: System, h: nat)
    requires Inv(s)
    ensures h !in s.handlers ==> Inv(Put(s, h, Loaded(s.message)))
  {
    var t := Put(s, h, Loaded(s.message));
    if h !in s.handlers {
      forall k | k in t.handlers ensures HandlerSound(t, k, t.handlers[k]) {
        if k != h {
          assert HandlerSound(s, k, s.handlers[k]);
        }
      }
    }
  }

  lemma ReportKeepsInv(s: System, delivered: bool)
    requires Inv(s)
    ensures Inv(ReportStep(s, delivered))
  {
    var t := ReportStep(s, delivered);
    if t != s {
      forall k | k in t.handlers ensures HandlerSound(t, k, t.handlers[k]) {
        assert HandlerSound(s, k, s.handlers[k]);
      }
    }
  }

  /** A report concludes a message that is SENT, open and without a delivery or failure time, and touches no other. */
  lemma ReportExactly(s: System, delivered: bool)
    ensures var t := ReportStep(s, delivered);
      var awaited := && s.message.Some? && s.message.value.status == SENT && !s.message.value.deadLettered
                     && !s.message.value.delivered && !s.message.value.failed;
      && t.event == s.event && t.handlers == s.handlers && t.holder == s.holder && t.clock == s.clock
      && (!awaited ==> t == s)
      && (awaited ==>
            && t.message.Some? && t.message.value.attempts == s.message.value.attempts && !t.message.value.deadLettered
            && t.message.value.status == (if delivered then DELIVERED else FAILED)
            && t.message.value.delivered == delivered && t.message.value.failed == !delivered)
  {
  }

  lemma ClockKeepsInv(s: System, clock: int)
    requires Inv(s)
    ensures Inv(s.(clock := clock))
  {
  }

  lemma HandlerStepKeepsInv(c: Config, s: System, step: Step, h: nat)
    requires c.reserves && Inv(s) && h in s.handlers
    ensures Inv(HandlerStep(c, s, step, h, s.handlers[h]))
  {
    hide Inv, ClaimStep, RecordStep, MarkUnknownStep, WriteEventRow, FailedRow;
    match (step, s.handlers[h])
    case (WritePublished(_), Loaded(m)) =>
      MoveKeepsInv(s, h, Published(m));
      EventKeepsInv(Put(s, h, Published(m)), s.event.(status := PUBLISHED));
    case (Resolve(_, ok), Published(m)) => ResolveKeepsInv(c, s, h, m, ok);
    case (Decide(_, ok), Resolved(m)) =>
      DropKeepsInv(s, h);
      MoveKeepsInv(s, h, DecideTarget(c, s, m, ok));
    case (MarkInvalid(_), ToMarkInvalid) => MarkDeadKeepsInv(s, h, s.handlers[h], InvalidPayload);
    case (Claim(_), ToClaim(m, at)) => ClaimKeepsInv(c, s, h, m, at);
    case (Send(_), ToSend(m, at)) => SendKeepsInv(s, h, m, at);
    case (Return(_, result), Sending(m, at, i)) =>
      InFlightMoveKeepsInv(s, h, if result == Threw then ToMarkUnknown(Some(i)) else ToRecord(m, at, i, result));
    case (Record(_), ToRecord(m, at, i, result)) => RecordKeepsInv(s, h, ToRetry(m, at, i), result);
    case (RecordFails(_), ToRecord(m, at, i, _)) => InFlightMoveKeepsInv(s, h, ToMarkUnknown(Some(i)));
    case (MarkUnknown(_), ToMarkUnknown(own)) => MarkUnknownKeepsInv(s, h, own);
    case (WriteEvent(_), ToWriteEvent(w, _)) =>
      DropKeepsInv(s, h);
      EventKeepsInv(Drop(s, h), WriteEventRow(s.event, w));
    case (WriteEventFails(_), ToWriteEvent(_, inTry)) =>
      DropKeepsInv(s, h);
      MoveKeepsInv(s, h, ToMarkUnknown(None));
    case (Crash(_), _) => CrashKeepsInv(s, h);
    case _ =>
  }

  /** What `Decide` turns a handler into, when it does not end it. */
  function DecideTarget(c: Config, s: System, m: Message, payloadOk: bool): Handler {
    if Finished(m) then ToWriteEvent(MarkCompleted, None)
    else if c.reserves && m.category == InProgress then ToMarkUnknown(None)
    else if m.deadLettered || m.attempts >= OUTBOX_RETRY_ATTEMPTS then ToWriteEvent(MarkDeadLettered, None)
    else if !payloadOk then ToMarkInvalid
    else ToClaim(m, s.clock)
  }

  lemma EventKeepsInv(s: System, e: Event)
    requires Inv(s)
    ensures Inv(s.(event := e))
  {
  }

  /** A handler without the reservation moves on without touching the message. */
  lemma MoveKeepsInv(s: System, h: nat, x: Handler)
    requires Inv(s) && h in s.handlers && !Holding(s.handlers[h]) && !Holding(x)
    requires x.ToClaim? ==> Claimable(x.row) && x.row.attempts < OUTBOX_RETRY_ATTEMPTS
    ensures Inv(Put(s, h, x))
  {
  }

  lemma DropKeepsInv(s: System, h: nat)
    requires Inv(s) && h in s.handlers && !Holding(s.handlers[h])
    ensures Inv(Drop(s, h))
  {
  }

  lemma ResolveKeepsInv(c: Config, s: System, h: nat, m: Option<Message>, ok: bool)
    requires Inv(s) && h in s.handlers && s.handlers[h] == Published(m)
    ensures Inv(HandlerStep(c, s, Resolve(h, ok), h, s.handlers[h]))
  {
    if m.Some? {
      MoveKeepsInv(s, h, Resolved(m.value));
    } else if !ok {
      MoveKeepsInv(s, h, ToWriteEvent(MarkDeadLettered, None));
    } else if s.message.Some? {
      MoveKeepsInv(s, h, Resolved(s.message.value));
    } else {
      MoveKeepsInv(s, h, Resolved(NEW_MESSAGE));
      var moved := Put(s, h, Resolved(NEW_MESSAGE));
      var t := moved.(message := Some(NEW_MESSAGE));
      forall k | k in t.handlers ensures HandlerSound(t, k, t.handlers[k]) {
        assert HandlerSound(moved, k, moved.handlers[k]);
      }
    }
  }

  /** A write that closes the message, by a handler without the reservation. */
  lemma MarkDeadKeepsInv(s: System, h: nat, x: Handler, category: Category)
    requires Inv(s) && h in s.handlers && s.handlers[h] == x && !Holding(x) && category != InProgress
    ensures s.message.Some? ==>
      Inv(Put(s, h, ToWriteEvent(MarkDeadLettered, None)).(
        message := Some(FailedRow(s.message.value, s.clock, true, category))))
  {
  }

  /**
   * The reservation. The compare-and-set succeeds exactly when the row is still as the handler read it and open; then
   * nobody held a reservation, none was orphaned and every earlier send had failed. Otherwise the handler ends.
   */
  lemma ClaimKeepsInv(c: Config, s: System, h: nat, m: Message, at: int)
    requires c.reserves && Inv(s) && h in s.handlers && s.handlers[h] == ToClaim(m, at)
    ensures var t := ClaimStep(c, s, h, m, at);
      && Inv(t) && t.sends == s.sends
      && (t.holder == Some(h) <==> Unchanged(s, m))
      && (t.holder == Some(h) ==>
            && s.holder == None && !s.orphaned && AllFailed(s.sends) && t.handlers == s.handlers[h := ToSend(m, at)]
            && s.message.Some? && t.message == Some(s.message.value.(category := InProgress, lastAttemptAt := Some(at))))
      && (t.holder != Some(h) ==> t == Drop(s, h))
  {
    assert HandlerSound(s, h, s.handlers[h]);
  }

  lemma SendKeepsInv(s: System, h: nat, m: Message, at: int)
    requires Inv(s) && h in s.handlers && s.handlers[h] == ToSend(m, at)
    ensures Inv(Put(s, h, Sending(m, at, |s.sends|)).(sends := s.sends + [Pending]))
  {
  }

  lemma InFlightMoveKeepsInv(s: System, h: nat, x: Handler)
    requires Inv(s) && h in s.handlers && InFlight(s.handlers[h]) && InFlight(x)
    requires SendOf(x) == SendOf(s.handlers[h]) && (x.ToRecord? ==> x.result != Threw)
    ensures Inv(Put(s, h, x))
  {
  }

  /**
   * Recording an answer, however late it comes, settles its own send and gives the reservation back; the message can
   * be reserved again exactly when the answer was a retryable failure inside the retry budget.
   */
  lemma RecordKeepsInv(s: System, h: nat, r: ToRetry, result: SendResult)
    requires Inv(s) && h in s.handlers && s.handlers[h] == ToRecord(r.row, r.at, r.send, result)
    ensures s.message.Some?
    ensures var t := RecordStep(s, h, r, result);
      && Inv(t) && s.holder == Some(h) && t.holder == None
      && t.sends == s.sends[..r.send] + [if result.FailedRetryable? || result.FailedTerminal? then Failure else Accepted]
      && t.message.Some?
      && (Claimable(t.message.value) <==> result.FailedRetryable? && r.row.attempts + 1 < OUTBOX_RETRY_ATTEMPTS)
  {
    assert HandlerSound(s, h, s.handlers[h]);
  }

  lemma MarkUnknownKeepsInv(s: System, h: nat, own: Option<nat>)
    requires Inv(s) && h in s.handlers && s.handlers[h] == ToMarkUnknown(own)
    ensures s.message.Some? ==> Inv(MarkUnknownStep(s, h, own))
  {
  }

  lemma CrashKeepsInv(s: System, h: nat)
    requires Inv(s) && h in s.handlers
    ensures Inv(HandlerStep(Config(true, 0), s, Crash(h), h, s.handlers[h]))
  {
  }

  // ----- the theorems

  lemma {:induction false} RunKeepsInv(c: Config, s: System, steps: seq<Step>)
    requires c.reserves && Inv(s)
    ensures Inv(Run(c, s, steps))
    decreases steps
  {
    if steps != [] {
      StepKeepsInv(c, s, steps[0]);
      RunKeepsInv(c, Apply(c, s, steps[0]), steps[1..]);
    }
  }

  /**
   * With a provider that reserves, in every state any interleaving can reach: at most one handler has a
   * submission in flight; every call to `send` but the last has a recorded failure; there were at most five.
   */
  lemma AtMostOneSubmission(c: Config, start: System, steps: seq<Step>)
    requires c.reserves && Initial(start)
    ensures var s := Run(c, start, steps);
      && (forall h, k :: h in s.handlers && k in s.handlers && InFlight(s.handlers[h]) && InFlight(s.handlers[k]) ==> h == k)
      && (forall i :: 0 <= i < |s.sends| - 1 ==> s.sends[i] == Failure)
      && |s.sends| <= OUTBOX_RETRY_ATTEMPTS
  {
    RunKeepsInv(c, start, steps);
    var s := Run(c, start, steps);
    forall h, k | h in s.handlers && k in s.handlers && InFlight(s.handlers[h]) && InFlight(s.handlers[k])
      ensures h == k
    {
      assert HandlerSound(s, h, s.handlers[h]) && HandlerSound(s, k, s.handlers[k]);
    }
  }

  /** Each step that calls `send` finds every earlier call with a recorded failure. */
  lemma EverySendFollowsFailures(c: Config, start: System, steps: seq<Step>, step: Step)
    requires c.reserves && Initial(start)
    ensures var s := Run(c, start, steps);
      |Apply(c, s, step).sends| > |s.sends| ==> AllFailed(s.sends)
  {
    hide Run, Apply;
    RunKeepsInv(c, start, steps);
    var s := Run(c, start, steps);
    OnlySendSends(c, s, step);
    if step.Send? && step.h in s.handlers {
      assert HandlerSound(s, step.h, s.handlers[step.h]);
    }
  }

  /** Only a handler that is about to submit adds a call to `send`; nothing forgets a call or an orphaned reservation. */
  lemma HandlerSends(c: Config, s: System, step: Step, h: nat, x: Handler)
    ensures var t := HandlerStep(c, s, step, h, x);
      && |t.sends| == |s.sends| + (if step.Send? && x.ToSend? then 1 else 0)
      && (s.orphaned ==> t.orphaned)
  {
  }

  lemma OnlySendSends(c: Config, s: System, step: Step)
    ensures var t := Apply(c, s, step);
      && |t.sends| == |s.sends| + (if step.Send? && step.h in s.handlers && s.handlers[step.h].ToSend? then 1 else 0)
      && (s.orphaned ==> t.orphaned)
  {
    hide HandlerStep;
    match step
    case Start(_) =>
    case DeliveryReport(_) =>
    case CompleteProcessed =>
    case CompleteSent =>
    case ClaimForPublish(_, _) =>
    case PublishDone =>
    case PublishFailed =>
    case Tick(_) =>
    case _ =>
      if step.h in s.handlers {
        HandlerSends(c, s, step, step.h, s.handlers[step.h]);
      }
  }

  lemma OrphanKept(c: Config, s: System, step: Step)
    requires c.reserves && Inv(s) && s.orphaned
    ensures var t := Apply(c, s, step); t.orphaned && |t.sends| == |s.sends|
  {
    hide Apply;
    OnlySendSends(c, s, step);
    if step.Send? && step.h in s.handlers {
      assert HandlerSound(s, step.h, s.handlers[step.h]);
    }
  }

  /** A submission whose handler died is never followed by another: from then on `send` is not called again. */
  lemma {:induction false} DeadHandlerIsFinal(c: Config, s: System, steps: seq<Step>)
    requires c.reserves && Inv(s) && s.orphaned
    ensures var t := Run(c, s, steps); t.orphaned && |t.sends| == |s.sends|
    decreases steps
  {
    if steps != [] {
      OrphanKept(c, s, steps[0]);
      StepKeepsInv(c, s, steps[0]);
      DeadHandlerIsFinal(c, Apply(c, s, steps[0]), steps[1..]);
    }
  }

  /** A handler that dies with a submission in flight orphans it. */
  lemma DeathOrphans(c: Config, s: System, h: nat)
    requires c.reserves && Inv(s) && h in s.handlers && InFlight(s.handlers[h])
    ensures Apply(c, s, Crash(h)).orphaned
  {
  }

  /**
   * In any run, once a handler dies with a submission in flight no later step, by anybody, calls `send` again.
   */
  lemma NoSendAfterDeath(c: Config, start: System, before: seq<Step>, h: nat, after: seq<Step>)
    requires c.reserves && Initial(start)
    requires var s := Run(c, start, before); h in s.handlers && InFlight(s.handlers[h])
    ensures var s := Run(c, start, before);
      |Run(c, Apply(c, s, Crash(h)), after).sends| == |s.sends|
  {
    RunKeepsInv(c, start, before);
    var s := Run(c, start, before);
    DeathOrphans(c, s, h);
    StepKeepsInv(c, s, Crash(h));
    DeadHandlerIsFinal(c, Apply(c, s, Crash(h)), after);
  }

  // ----- what the reservation is for

  /** A handler that gets as far as its call to `send`. */
  function UpToSend(h: nat): seq<Step> {
    [Start(h), WritePublished(h), Resolve(h, true), Decide(h, true), Claim(h), Send(h)]
  }

  lemma {:induction false} RunConcat(c: Config, s: System, first: seq<Step>, second: seq<Step>)
    ensures Run(c, s, first + second) == Run(c, Run(c, s, first), second)
    decreases first
  {
    if first == [] {
      assert first + second == second;
    } else {
      assert (first + second)[1..] == first[1..] + second;
      RunConcat(c, Apply(c, s, first[0]), first[1..], second);
    }
  }

  lemma RunSnoc(c: Config, s: System, steps: seq<Step>, step: Step)
    ensures Run(c, s, steps + [step]) == Apply(c, Run(c, s, steps), step)
  {
    RunConcat(c, s, steps, [step]);
    assert [step][1..] == [];
  }

  lemma RunTwo(c: Config, s: System, a: Step, b: Step)
    ensures Run(c, s, [a, b]) == Apply(c, Apply(c, s, a), b)
  {
    hide Apply;
    RunSnoc(c, s, [a], b);
    RunSnoc(c, s, [], a);
    assert [] + [a] == [a] && [a] + [b] == [a, b];
  }

  lemma RunThree(c: Config, s: System, a: Step, b: Step, d: Step)
    ensures Run(c, s, [a, b, d]) == Apply(c, Apply(c, Apply(c, s, a), b), d)
  {
    hide Apply, Run;
    RunTwo(c, s, a, b);
    RunSnoc(c, s, [a, b], d);
    assert [a, b] + [d] == [a, b, d];
  }

  lemma RunSix(c: Config, s: System, a0: Step, a1: Step, a2: Step, a3: Step, a4: Step, a5: Step)
    ensures Run(c, s, [a0, a1, a2, a3, a4, a5])
         == Apply(c, Apply(c, Apply(c, Apply(c, Apply(c, Apply(c, s, a0), a1), a2), a3), a4), a5)
  {
    hide Apply, Run;
    RunConcat(c, s, [a0, a1, a2], [a3, a4, a5]);
    RunThree(c, s, a0, a1, a2);
    RunThree(c, Apply(c, Apply(c, Apply(c, s, a0), a1), a2), a3, a4, a5);
    assert [a0, a1, a2] + [a3, a4, a5] == [a0, a1, a2, a3, a4, a5];
  }

  // ----- single calls

  lemma ReturnEffect(c: Config, s: System, h: nat, m: Message, at: int, i: nat, result: SendResult)
    requires h in s.handlers && s.handlers[h] == Sending(m, at, i)
    ensures Apply(c, s, Return(h, result))
         == if result == Threw then CatchStep(c, s, h, ToRetry(m, at, i), true) else Put(s, h, ToRecord(m, at, i, result))
  {
    hide CatchStep;
  }

  lemma RecordEffect(c: Config, s: System, h: nat, r: ToRetry, result: SendResult)
    requires h in s.handlers && s.handlers[h] == ToRecord(r.row, r.at, r.send, result) && s.message.Some?
    ensures Apply(c, s, Record(h)) == RecordStep(s, h, r, result)
  {
    hide RecordStep;
  }

  lemma WriteEventEffect(c: Config, s: System, h: nat, w: EventWrite, inTry: Option<ToRetry>)
    requires h in s.handlers && s.handlers[h] == ToWriteEvent(w, inTry)
    ensures Apply(c, s, WriteEvent(h)) == Drop(s, h).(event := WriteEventRow(s.event, w))
  {
    hide WriteEventRow;
  }

  lemma MarkUnknownEffect(c: Config, s: System, h: nat, own: Option<nat>)
    requires h in s.handlers && s.handlers[h] == ToMarkUnknown(own) && s.message.Some?
    ensures Apply(c, s, MarkUnknown(h)) == MarkUnknownStep(s, h, own)
  {
    hide MarkUnknownStep;
  }

  /** A row that a job would submit. */
  predicate Submittable(m: Message) {
    !Finished(m) && m.category != InProgress && !m.deadLettered && m.attempts < OUTBOX_RETRY_ATTEMPTS
  }

  /** The first half of a handler's way to its submission: it has read the row it will send from. */
  lemma ReachesResolved(c: Config, s: System, h: nat, m: Message)
    requires h !in s.handlers && !s.event.deadLettered && !s.event.processed && s.message == Some(m)
    ensures Apply(c, Apply(c, Apply(c, s, Start(h)), WritePublished(h)), Resolve(h, true))
         == Put(s, h, Resolved(m)).(event := s.event.(status := PUBLISHED))
  {
    var s1 := Apply(c, s, Start(h));
    assert s1 == Put(s, h, Loaded(s.message));
    var s2 := Apply(c, s1, WritePublished(h));
    assert s2 == Put(s, h, Published(s.message)).(event := s.event.(status := PUBLISHED));
  }

  /** The reserved row, or the row itself with a provider that does not reserve. */
  function Reserved(c: Config, m: Message, at: int): Message {
    if c.reserves then m.(category := InProgress, lastAttemptAt := Some(at)) else m
  }

  lemma ReachesSubmission(c: Config, s: System, h: nat, m: Message)
    requires s.message == Some(m) && Submittable(m) && h in s.handlers && s.handlers[h] == Resolved(m)
    ensures Apply(c, Apply(c, Apply(c, s, Decide(h, true)), Claim(h)), Send(h))
         == Put(s, h, Sending(m, s.clock, |s.sends|)).(
              message := Some(Reserved(c, m, s.clock)), holder := if c.reserves then Some(h) else s.holder,
              sends := s.sends + [Pending])
  {
    hide Apply;
    DecideEffect(c, s, h, m);
    ClaimEffect(c, Put(s, h, ToClaim(m, s.clock)), h, m, s.clock);
    var claimed := ClaimStep(c, Put(s, h, ToClaim(m, s.clock)), h, m, s.clock);
    assert claimed == Put(s, h, ToSend(m, s.clock)).(
      message := Some(Reserved(c, m, s.clock)), holder := if c.reserves then Some(h) else s.holder);
    SendEffect(c, claimed, h, m, s.clock);
  }

  lemma DecideEffect(c: Config, s: System, h: nat, m: Message)
    requires Submittable(m) && h in s.handlers && s.handlers[h] == Resolved(m)
    ensures Apply(c, s, Decide(h, true)) == Put(s, h, ToClaim(m, s.clock))
  {
  }

  lemma ClaimEffect(c: Config, s: System, h: nat, m: Message, at: int)
    requires h in s.handlers && s.handlers[h] == ToClaim(m, at)
    ensures Apply(c, s, Claim(h)) == ClaimStep(c, s, h, m, at)
  {
    hide ClaimStep;
  }

  lemma SendEffect(c: Config, s: System, h: nat, m: Message, at: int)
    requires h in s.handlers && s.handlers[h] == ToSend(m, at)
    ensures Apply(c, s, Send(h)) == Put(s, h, Sending(m, at, |s.sends|)).(sends := s.sends + [Pending])
  {
  }

  /** A handler that nothing disturbs gets as far as its submission. */
  lemma ReachesSend(c: Config, s: System, h: nat, m: Message)
    requires h !in s.handlers && !s.event.deadLettered && !s.event.processed
    requires s.message == Some(m) && Submittable(m)
    ensures Run(c, s, UpToSend(h))
         == Put(s, h, Sending(m, s.clock, |s.sends|)).(
              event := s.event.(status := PUBLISHED), message := Some(Reserved(c, m, s.clock)),
              holder := if c.reserves then Some(h) else s.holder, sends := s.sends + [Pending])
  {
    hide Run, Apply;
    RunSix(c, s, Start(h), WritePublished(h), Resolve(h, true), Decide(h, true), Claim(h), Send(h));
    ReachesResolved(c, s, h, m);
    ReachesSubmission(c, Put(s, h, Resolved(m)).(event := s.event.(status := PUBLISHED)), h, m);
  }

  const START := System(0, Event(PENDING, false, false), Some(NEW_MESSAGE), map[], [], None, false)

  /** Without a reservation two handlers of one event can both be submitting: the guarantee is the reservation's. */
  lemma WithoutReservationTwoSubmit(c: Config) returns (start: System, steps: seq<Step>)
    requires !c.reserves
    ensures Initial(start)
    ensures var s := Run(c, start, steps);
      0 in s.handlers && 1 in s.handlers && InFlight(s.handlers[0]) && InFlight(s.handlers[1])
  {
    hide Run, UpToSend, Apply;
    start, steps := START, UpToSend(0) + UpToSend(1);
    ReachesSend(c, start, 0, NEW_MESSAGE);
    ReachesSend(c, Run(c, start, UpToSend(0)), 1, NEW_MESSAGE);
    RunConcat(c, start, UpToSend(0), UpToSend(1));
  }

  // ----- a failure leaves its mark

  /** The failure of a submission, recorded within the retry budget, and the write that schedules the retry. */
  lemma RetryRecorded(c: Config, s: System, h: nat, m: Message)
    requires |s.sends| > 0 && s.handlers == map[h := Sending(m, s.clock, |s.sends| - 1)]
    requires s.message == Some(Reserved(c, m, s.clock)) && m.attempts + 1 < OUTBOX_RETRY_ATTEMPTS
    requires s.holder == if c.reserves then Some(h) else None
    ensures var t := Run(c, s, [Return(h, FailedRetryable), Record(h), WriteEvent(h)]);
      && t.handlers == map[] && t.holder == None && !t.event.deadLettered && t.event.processed == s.event.processed
      && t.message.Some? && t.message.value.failed && Submittable(t.message.value)
      && t.message.value.delivered == m.delivered
  {
    hide Run, Apply;
    RunThree(c, s, Return(h, FailedRetryable), Record(h), WriteEvent(h));
    var r := ToRetry(m, s.clock, |s.sends| - 1);
    ReturnEffect(c, s, h, m, r.at, r.send, FailedRetryable);
    var s1 := Put(s, h, ToRecord(m, r.at, r.send, FailedRetryable));
    RecordEffect(c, s1, h, r, FailedRetryable);
    var s2 := RecordStep(s1, h, r, FailedRetryable);
    WriteEventEffect(c, s2, h, MarkRetry, Some(r));
    assert Drop(s2, h).handlers == map[];
  }

  lemma AcceptanceRecorded(c: Config, s: System, h: nat, m: Message)
    requires |s.sends| > 0 && s.handlers == map[h := Sending(m, s.clock, |s.sends| - 1)]
    requires s.message == Some(Reserved(c, m, s.clock))
    ensures var t := Run(c, s, [Return(h, Sent), Record(h)]);
      t.message.Some? && t.message.value.status == SENT && !t.message.value.deadLettered
      && t.message.value.failed == m.failed && t.message.value.delivered == m.delivered
  {
    hide Run, Apply;
    RunTwo(c, s, Return(h, Sent), Record(h));
    var r := ToRetry(m, s.clock, |s.sends| - 1);
    ReturnEffect(c, s, h, m, r.at, r.send, Sent);
    RecordEffect(c, Put(s, h, ToRecord(m, r.at, r.send, Sent)), h, r, Sent);
  }

  /** One job whose submission fails for now, and a second one whose submission is accepted. */
  function FailThenAccept(): seq<Step> {
    (UpToSend(0) + [Return(0, FailedRetryable), Record(0), WriteEvent(0)]) + (UpToSend(1) + [Return(1, Sent), Record(1)])
  }

  lemma FirstJobFails(c: Config)
    ensures var s := Run(c, START, UpToSend(0) + [Return(0, FailedRetryable), Record(0), WriteEvent(0)]);
      && s.handlers == map[] && s.holder == None && !s.event.deadLettered && !s.event.processed
      && s.message.Some? && s.message.value.failed && !s.message.value.delivered && Submittable(s.message.value)
  {
    hide Run, Apply, UpToSend;
    ReachesSend(c, START, 0, NEW_MESSAGE);
    RetryRecorded(c, Run(c, START, UpToSend(0)), 0, NEW_MESSAGE);
    RunConcat(c, START, UpToSend(0), [Return(0, FailedRetryable), Record(0), WriteEvent(0)]);
  }

  lemma SecondJobIsAccepted(c: Config, s: System)
    requires s.handlers == map[] && s.holder == None && !s.event.deadLettered && !s.event.processed
    requires s.message.Some? && Submittable(s.message.value)
    ensures var m := Run(c, s, UpToSend(1) + [Return(1, Sent), Record(1)]).message;
      m.Some? && m.value.status == SENT && !m.value.deadLettered
      && m.value.failed == s.message.value.failed && m.value.delivered == s.message.value.delivered
  {
    hide Run, Apply, UpToSend;
    ReachesSend(c, s, 1, s.message.value);
    AcceptanceRecorded(c, Run(c, s, UpToSend(1)), 1, s.message.value);
    RunConcat(c, s, UpToSend(1), [Return(1, Sent), Record(1)]);
  }

  /** A retryable failure, then an accepted retry: the message is SENT and still bears the time it failed. */
  lemma SentAfterFailure(c: Config)
    ensures Initial(START)
    ensures var m := Run(c, START, FailThenAccept()).message;
      m.Some? && m.value.status == SENT && m.value.failed && !m.value.deadLettered && !m.value.delivered
  {
    hide Run, Apply, UpToSend, Submittable;
    var first := UpToSend(0) + [Return(0, FailedRetryable), Record(0), WriteEvent(0)];
    FirstJobFails(c);
    SecondJobIsAccepted(c, Run(c, START, first));
    RunConcat(c, START, first, UpToSend(1) + [Return(1, Sent), Record(1)]);
  }

  /** The message is still there and bears every failure or delivery time it bore. */
  predicate TimesKept(before: Option<Message>, after: Option<Message>) {
    before.Some? ==>
      && after.Some?
      && (before.value.failed ==> after.value.failed)
      && (before.value.delivered ==> after.value.delivered)
  }

  lemma HandlerKeepsTimes(c: Config, s: System, step: Step, h: nat, x: Handler)
    ensures TimesKept(s.message, HandlerStep(c, s, step, h, x).message)
  {
    hide Finished, SetFate, Release, WriteEventRow;
  }

  /** No step of any handler, recovery cycle or report clears a failure or delivery time, or removes the message. */
  lemma TimesAreKept(c: Config, s: System, step: Step)
    ensures TimesKept(s.message, Apply(c, s, step).message)
  {
    hide HandlerStep;
    match step
    case Start(_) =>
    case DeliveryReport(_) =>
    case CompleteProcessed =>
    case CompleteSent =>
    case ClaimForPublish(_, _) =>
    case PublishDone =>
    case PublishFailed =>
    case Tick(_) =>
    case _ =>
      if step.h in s.handlers {
        HandlerKeepsTimes(c, s, step, step.h, s.handlers[step.h]);
      }
  }
}
