/**
 * Polling for delivery reports: any number of pollers race for leases on one message while the handlers,
 * recovery cycles and clock of its outbox event go on around them.
 */
module DeliveryReports {
  import opened Wrappers
  import SmsOutbox

  datatype Report = Report(providerId: nat, status: ReportStatus)

  datatype ReportStatus = StillSent | WasDelivered | HasFailed

  /** A poller between two of its calls. */
  datatype Poller =
    | Found(readAt: int, providerId: nat, seen: Option<int>)
    | Leased(providerId: nat, lease: int)
    | Reported(providerId: nat, lease: int, report: Report)

  datatype Grant = Grant(poller: nat, lease: int)

  /** A report that was written: under which lease, and what the provider had answered. */
  datatype Written = Written(grant: Grant, report: Report)

  /**
   * The outbox machine, with the two columns of the message row that only polling looks at: providerMessageId and
   * nextDeliveryReportPollAt (`lease`). `grants` and `writes` are history: every lease won and every report written, in order.
   */
  datatype System = System(
    outbox: SmsOutbox.System, providerId: Option<nat>, lease: Option<int>, pollers: map<nat, Poller>,
    grants: seq<Grant>, writes: seq<Written>)

  /** `Outbox` is any step of the outbox machine; one that records an accepted submission stores the provider's id. */
  datatype Step =
    | Outbox(step: SmsOutbox.Step, providerId: Option<nat>)
    | Find(p: nat, now: int)
    | ClaimLease(p: nat, at: int)
    | Fetch(p: nat, report: Option<Report>)
    | Write(p: nat)
    | Crash(p: nat)

  /** A message that is still to be reported on. */
  predicate Eligible(s: System) {
    && s.outbox.message.Some? && s.outbox.message.value.status == SmsOutbox.SENT
    && !s.outbox.message.value.delivered && !s.outbox.message.value.failed && !s.outbox.message.value.deadLettered
    && s.providerId.Some?
  }

  predicate LeaseIsDue(s: System, now: int) { s.lease.Some? ==> s.lease.value <= now }

  function Drop(s: System, p: nat): System { s.(pollers := s.pollers - {p}) }

  function Apply(c: SmsOutbox.Config, interval: nat, s: System, step: Step): System {
    match step
    case Outbox(o, providerId) =>
      if o.DeliveryReport? then s
      else s.(outbox := SmsOutbox.Apply(c, s.outbox, o), providerId := if o.Record? then providerId else s.providerId)
    case Find(p, now) =>
      if p !in s.pollers && now <= s.outbox.clock && Eligible(s) && LeaseIsDue(s, now)
      then s.(pollers := s.pollers[p := Found(now, s.providerId.value, s.lease)])
      else s
    case ClaimLease(p, at) =>
      if p in s.pollers && s.pollers[p].Found? && s.pollers[p].readAt <= at <= s.outbox.clock then
        var x := s.pollers[p];
        if Eligible(s) && s.providerId == Some(x.providerId) && s.lease == x.seen then
          s.(lease := Some(at + interval),
             pollers := s.pollers[p := Leased(x.providerId, at + interval)],
             grants := s.grants + [Grant(p, at + interval)])
        else Drop(s, p)
      else s
    case Fetch(p, report) =>
      if p in s.pollers && s.pollers[p].Leased? then
        var x := s.pollers[p];
        if report.None? || report.value.providerId != x.providerId || report.value.status == StillSent then Drop(s, p)
        else s.(pollers := s.pollers[p := Reported(x.providerId, x.lease, report.value)])
      else s
    case Write(p) =>
      if p in s.pollers && s.pollers[p].Reported? then
        var x := s.pollers[p];
        if Eligible(s) && s.providerId == Some(x.providerId) && s.lease == Some(x.lease) then
          Drop(s, p).(
            outbox := SmsOutbox.ReportStep(s.outbox, x.report.status == WasDelivered), lease := None,
            writes := s.writes + [Written(Grant(p, x.lease), x.report)])
        else Drop(s, p)
      else s
    case Crash(p) => Drop(s, p)
  }

  function Run(c: SmsOutbox.Config, interval: nat, s: System, steps: seq<Step>): System
    decreases steps
  {
    if steps == [] then s else Run(c, interval, Apply(c, interval, s, steps[0]), steps[1..])
  }

  predicate Initial(s: System) {
    SmsOutbox.Initial(s.outbox) && s.lease == None && s.pollers == map[] && s.grants == [] && s.writes == []
  }

  /** Polling adds no behaviour to the outbox: each of its runs is a run of the outbox machine, whose theorems carry over. */
  lemma {:induction false} PollingIsOutbox(c: SmsOutbox.Config, interval: nat, s: System, steps: seq<Step>)
    returns (taken: seq<SmsOutbox.Step>)
    ensures Run(c, interval, s, steps).outbox == SmsOutbox.Run(c, s.outbox, taken)
    decreases steps
  {
    if steps == [] {
      taken := [];
    } else {
      var next := Apply(c, interval, s, steps[0]);
      var rest := PollingIsOutbox(c, interval, next, steps[1..]);
      var first := StepIsOutbox(c, interval, s, steps[0]);
      SmsOutbox.RunConcat(c, s.outbox, first, rest);
      taken := first + rest;
    }
  }

  lemma StepIsOutbox(c: SmsOutbox.Config, interval: nat, s: System, step: Step) returns (taken: seq<SmsOutbox.Step>)
    ensures Apply(c, interval, s, step).outbox == SmsOutbox.Run(c, s.outbox, taken)
  {
    hide SmsOutbox.HandlerStep;
    if Apply(c, interval, s, step).outbox == s.outbox {
      taken := [];
    } else {
      taken := [if step.Outbox? then step.step else SmsOutbox.DeliveryReport(s.pollers[step.p].report.status == WasDelivered)];
      SmsOutbox.RunSnoc(c, s.outbox, [], taken[0]);
      assert [] + [taken[0]] == taken;
    }
  }

  predicate InFlight(o: SmsOutbox.System, h: nat) { h in o.handlers && SmsOutbox.InFlight(o.handlers[h]) }

  /** So with a provider that reserves, racing pollers included, at most one submission is in flight and at most five are made. */
  lemma OneSubmissionUnderPolling(c: SmsOutbox.Config, interval: nat, start: System, steps: seq<Step>)
    requires c.reserves && Initial(start)
    ensures var o := Run(c, interval, start, steps).outbox;
      && (forall h, k :: InFlight(o, h) && InFlight(o, k) ==> h == k)
      && |o.sends| <= SmsOutbox.OUTBOX_RETRY_ATTEMPTS
  {
    hide Run, SmsOutbox.Run;
    var taken := PollingIsOutbox(c, interval, start, steps);
    SmsOutbox.AtMostOneSubmission(c, start.outbox, taken);
  }

  // ----- the invariant

  ghost predicate Increasing(grants: seq<Grant>) {
    forall i, j :: 0 <= i < j < |grants| ==> grants[i].lease < grants[j].lease
  }

  predicate PollerSound(grants: seq<Grant>, p: nat, x: Poller) {
    match x
    case Found(readAt, _, seen) => seen.Some? ==> seen.value <= readAt
    case Leased(_, lease) => Grant(p, lease) in grants
    case Reported(_, lease, report) => Grant(p, lease) in grants && report.status != StillSent
  }

  ghost predicate PollersSound(pollers: map<nat, Poller>, grants: seq<Grant>) {
    forall p :: p in pollers ==> PollerSound(grants, p, pollers[p])
  }

  /** The message has a delivery or a failure time. */
  predicate Concluded(o: SmsOutbox.System) {
    o.message.Some? && (o.message.value.delivered || o.message.value.failed)
  }

  /** The message bears the time that the provider's answer calls for. */
  predicate Agrees(o: SmsOutbox.System, report: Report) {
    && o.message.Some? && report.status != StillSent
    && (report.status == WasDelivered ==> o.message.value.delivered)
    && (report.status == HasFailed ==> o.message.value.failed)
  }

  ghost predicate Inv(s: System) {
    && Increasing(s.grants)
    && (s.lease.Some? ==> s.grants != [] && s.grants[|s.grants| - 1].lease == s.lease.value)
    && (s.lease.None? && s.grants != [] ==> Concluded(s.outbox))
    && (s.writes != [] ==>
          && s.grants != [] && s.writes == [Written(s.grants[|s.grants| - 1], s.writes[0].report)]
          && Agrees(s.outbox, s.writes[0].report))
    && PollersSound(s.pollers, s.grants)
  }

  /** Outbox steps leave leases and pollers alone and never clear a delivery or failure time. */
  lemma OutboxKeepsInv(c: SmsOutbox.Config, interval: nat, s: System, step: Step)
    requires Inv(s) && step.Outbox?
    ensures Inv(Apply(c, interval, s, step))
  {
    hide SmsOutbox.Apply;
    if s.outbox.message.Some? {
      SmsOutbox.TimesAreKept(c, s.outbox, step.step);
    }
    hide PollersSound, Increasing;
  }

  /** A new lease is later than every lease before it. */
  lemma GrantKeepsInv(c: SmsOutbox.Config, interval: nat, s: System, p: nat, at: int)
    requires interval > 0 && Inv(s)
    ensures Inv(Apply(c, interval, s, ClaimLease(p, at)))
  {
    hide SmsOutbox.Apply, Increasing, PollersSound, PollerSound;
    DropKeepsInv(s, p);
    if p in s.pollers && s.pollers[p].Found? && s.pollers[p].readAt <= at && Eligible(s) && s.lease == s.pollers[p].seen {
      var lease := at + interval;
      SeenInTime(s, p);
      GrantIsLater(s.grants, Grant(p, lease));
      GrantedSound(s.pollers, s.grants, p, s.pollers[p].providerId, lease);
      assert s.writes == [];
    }
  }

  lemma SeenInTime(s: System, p: nat)
    requires PollersSound(s.pollers, s.grants) && p in s.pollers && s.pollers[p].Found?
    ensures s.pollers[p].seen.Some? ==> s.pollers[p].seen.value <= s.pollers[p].readAt
  {
    assert PollerSound(s.grants, p, s.pollers[p]);
  }

  lemma GrantIsLater(grants: seq<Grant>, g: Grant)
    requires Increasing(grants) && (grants != [] ==> grants[|grants| - 1].lease < g.lease)
    ensures Increasing(grants + [g])
  {
  }

  lemma GrantedSound(pollers: map<nat, Poller>, grants: seq<Grant>, p: nat, providerId: nat, lease: int)
    requires PollersSound(pollers, grants)
    ensures PollersSound(pollers[p := Leased(providerId, lease)], grants + [Grant(p, lease)])
  {
    var after := pollers[p := Leased(providerId, lease)];
    GrantsGrow(grants, Grant(p, lease));
    forall q | q in after ensures PollerSound(grants + [Grant(p, lease)], q, after[q]) {
      if q != p {
        assert PollerSound(grants, q, pollers[q]);
      }
    }
  }

  lemma LeaseWasGranted(pollers: map<nat, Poller>, grants: seq<Grant>, p: nat)
    requires PollersSound(pollers, grants) && p in pollers && pollers[p].Leased?
    ensures Grant(p, pollers[p].lease) in grants
  {
    assert PollerSound(grants, p, pollers[p]);
  }

  lemma MovedSound(pollers: map<nat, Poller>, grants: seq<Grant>, p: nat, x: Poller)
    requires PollersSound(pollers, grants) && PollerSound(grants, p, x)
    ensures PollersSound(pollers[p := x], grants)
  {
  }

  lemma DroppedSound(pollers: map<nat, Poller>, grants: seq<Grant>, p: nat)
    requires PollersSound(pollers, grants)
    ensures PollersSound(pollers - {p}, grants)
  {
  }

  lemma GrantsGrow(grants: seq<Grant>, g: Grant)
    ensures g in grants + [g] && forall x :: x in grants ==> x in grants + [g]
  {
  }

  lemma DropKeepsInv(s: System, p: nat)
    requires Inv(s)
    ensures Inv(Drop(s, p))
  {
    hide Increasing, PollersSound;
    DroppedSound(s.pollers, s.grants, p);
  }

  /** Moving one poller, soundly, touches nothing else. */
  lemma MoveKeepsInv(s: System, p: nat, x: Poller)
    requires Inv(s) && PollerSound(s.grants, p, x)
    ensures Inv(s.(pollers := s.pollers[p := x]))
  {
    hide Increasing, PollersSound;
    MovedSound(s.pollers, s.grants, p, x);
  }

  lemma WriteKeepsInv(c: SmsOutbox.Config, interval: nat, s: System, p: nat)
    requires Inv(s)
    ensures Inv(Apply(c, interval, s, Write(p)))
  {
    hide SmsOutbox.Apply, Increasing, PollersSound;
    DropKeepsInv(s, p);
    var t := Apply(c, interval, s, Write(p));
    if t != s && t != Drop(s, p) {
      var x := s.pollers[p];
      assert x.Reported? && Eligible(s) && s.lease == Some(x.lease);
      WriterIsNewest(s, p, x.lease);
      assert s.writes == [] && t.writes == [Written(s.grants[|s.grants| - 1], x.report)] && t.grants == s.grants;
      assert Agrees(t.outbox, x.report) && Concluded(t.outbox);
      assert t.pollers == Drop(s, p).pollers;
    }
  }

  lemma StepKeepsInv(c: SmsOutbox.Config, interval: nat, s: System, step: Step)
    requires interval > 0 && Inv(s)
    ensures Inv(Apply(c, interval, s, step))
  {
    hide SmsOutbox.Apply, Increasing, PollersSound;
    match step
    case Outbox(_, _) => OutboxKeepsInv(c, interval, s, step);
    case ClaimLease(p, at) => GrantKeepsInv(c, interval, s, p, at);
    case Write(p) => WriteKeepsInv(c, interval, s, p);
    case Find(p, now) =>
      if Eligible(s) && LeaseIsDue(s, now) {
        MoveKeepsInv(s, p, Found(now, s.providerId.value, s.lease));
      }
    case Fetch(p, report) =>
      DropKeepsInv(s, p);
      if p in s.pollers && s.pollers[p].Leased? && report.Some? {
        LeaseWasGranted(s.pollers, s.grants, p);
        if report.value.status != StillSent {
          MoveKeepsInv(s, p, Reported(s.pollers[p].providerId, s.pollers[p].lease, report.value));
        }
      }
    case Crash(p) => DropKeepsInv(s, p);
  }

  /** A poller whose lease is the row's lease is the one it was last granted to. */
  lemma WriterIsNewest(s: System, p: nat, lease: int)
    requires Inv(s) && s.lease == Some(lease) && p in s.pollers && s.pollers[p].Reported? && s.pollers[p].lease == lease
    ensures s.grants != [] && s.grants[|s.grants| - 1] == Grant(p, lease) && s.pollers[p].report.status != StillSent
  {
    assert PollerSound(s.grants, p, s.pollers[p]);
    var i :| 0 <= i < |s.grants| && s.grants[i] == Grant(p, lease);
  }

  lemma {:induction false} RunKeepsInv(c: SmsOutbox.Config, interval: nat, s: System, steps: seq<Step>)
    requires interval > 0 && Inv(s)
    ensures Inv(Run(c, interval, s, steps))
    decreases steps
  {
    hide Inv, Apply;
    if steps != [] {
      StepKeepsInv(c, interval, s, steps[0]);
      RunKeepsInv(c, interval, Apply(c, interval, s, steps[0]), steps[1..]);
    }
  }

  // ----- the theorems

  /**
   * Leases on a message strictly increase over the whole run, so no lease value is ever won twice; at most one report
   * is ever written, and from then on the message bears the delivery or failure time the provider's answer called for.
   */
  lemma LeasesFence(c: SmsOutbox.Config, interval: nat, start: System, steps: seq<Step>)
    requires interval > 0 && Initial(start)
    ensures var s := Run(c, interval, start, steps);
      && (forall i, j :: 0 <= i < j < |s.grants| ==> s.grants[i].lease < s.grants[j].lease)
      && (forall i, j :: 0 <= i < |s.grants| && 0 <= j < |s.grants| && s.grants[i].lease == s.grants[j].lease ==> i == j)
      && |s.writes| <= 1
      && (s.writes != [] ==> Agrees(s.outbox, s.writes[0].report))
  {
    RunKeepsInv(c, interval, start, steps);
    hide Run;
    var s := Run(c, interval, start, steps);
    forall i, j | 0 <= i < |s.grants| && 0 <= j < |s.grants| && s.grants[i].lease == s.grants[j].lease
      ensures i == j
    {
      assert !(i < j) && !(j < i);
    }
  }

  /**
   * From a message without a delivery or failure time: DELIVERED with a delivery time exactly when the provider said
   * delivered, FAILED with a failure time exactly when it said failed, and nothing of the event touched.
   */
  predicate Concludes(before: SmsOutbox.System, after: SmsOutbox.System, report: Report) {
    && after.event == before.event && after.message.Some? && report.status != StillSent
    && (after.message.value.status == SmsOutbox.DELIVERED <==> report.status == WasDelivered)
    && (after.message.value.status == SmsOutbox.FAILED <==> report.status == HasFailed)
    && (after.message.value.delivered <==> report.status == WasDelivered)
    && (after.message.value.failed <==> report.status == HasFailed)
    && !after.message.value.deadLettered
  }

  /** The holder of the current lease, on a message that is still to be reported on. */
  predicate HoldsLease(s: System, p: nat) {
    && p in s.pollers && s.pollers[p].Leased? && Eligible(s)
    && s.providerId == Some(s.pollers[p].providerId) && s.lease == Some(s.pollers[p].lease)
  }

  /**
   * What an answer does. Fetching and writing concludes the message as the provider said; no answer, an answer about
   * another message or one that says it is still on its way leaves event, message and lease as they were.
   */
  lemma AnswerDecides(c: SmsOutbox.Config, interval: nat, s: System, p: nat, report: Option<Report>)
    requires HoldsLease(s, p)
    ensures var t := Apply(c, interval, Apply(c, interval, s, Fetch(p, report)), Write(p));
      var says := report.Some? && Some(report.value.providerId) == s.providerId && report.value.status != StillSent;
      && p !in t.pollers
      && (says ==> Concludes(s.outbox, t.outbox, report.value) && t.lease == None
                   && t.writes == s.writes + [Written(Grant(p, s.lease.value), report.value)])
      && (!says ==> t == s.(pollers := s.pollers - {p}))
  {
    hide SmsOutbox.Apply;
    var x := s.pollers[p];
    if report.Some? && report.value.providerId == x.providerId && report.value.status != StillSent {
      var s1 := Apply(c, interval, s, Fetch(p, report));
      assert s1 == s.(pollers := s.pollers[p := Reported(x.providerId, x.lease, report.value)]);
    }
  }

  /** A step that writes a report is taken by the holder of the newest lease while the message is still SENT. */
  lemma OnlyNewestHolderWrites(c: SmsOutbox.Config, interval: nat, start: System, steps: seq<Step>, step: Step)
    requires interval > 0 && Initial(start)
    ensures var s := Run(c, interval, start, steps);
      var t := Apply(c, interval, s, step);
      t.writes != s.writes ==>
        && step.Write? && Eligible(s)
        && s.grants != [] && s.grants[|s.grants| - 1].poller == step.p
        && s.lease == Some(s.grants[|s.grants| - 1].lease)
        && s.writes == [] && |t.writes| == 1 && t.writes[0].grant == s.grants[|s.grants| - 1]
        && Concludes(s.outbox, t.outbox, t.writes[0].report)
  {
    RunKeepsInv(c, interval, start, steps);
    hide Run, SmsOutbox.Apply;
    var s := Run(c, interval, start, steps);
    var t := Apply(c, interval, s, step);
    if t.writes != s.writes {
      WriterIsNewest(s, step.p, s.pollers[step.p].lease);
    }
  }

  /** A lease is granted exactly when the message is still to be reported on, by the same provider's id and under the lease that was seen. */
  lemma GrantedExactly(c: SmsOutbox.Config, interval: nat, s: System, p: nat, at: int)
    requires p in s.pollers && s.pollers[p].Found? && s.pollers[p].readAt <= at <= s.outbox.clock
    ensures var t := Apply(c, interval, s, ClaimLease(p, at));
      var free := Eligible(s) && s.providerId == Some(s.pollers[p].providerId) && s.lease == s.pollers[p].seen;
      && t.outbox == s.outbox && t.providerId == s.providerId && t.writes == s.writes
      && (free ==> t.grants == s.grants + [Grant(p, at + interval)] && t.lease == Some(at + interval))
      && (!free ==> t == s.(pollers := s.pollers - {p}))
  {
    hide SmsOutbox.Apply;
  }

  // ----- messages that are never polled

  predicate FailedBefore(o: SmsOutbox.System) { o.message.Some? && o.message.value.failed }

  lemma FailedStep(c: SmsOutbox.Config, interval: nat, s: System, step: Step)
    requires FailedBefore(s.outbox)
    ensures var t := Apply(c, interval, s, step);
      FailedBefore(t.outbox) && t.grants == s.grants && t.writes == s.writes
  {
    hide SmsOutbox.Apply;
    if step.Outbox? {
      SmsOutbox.TimesAreKept(c, s.outbox, step.step);
    }
  }

  /**
   * Once a message has a failure time it is never polled again, even after a later attempt is accepted:
   * no lease is granted and no report is written from then on.
   */
  lemma {:induction false} FailedOnceIsNeverPolled(c: SmsOutbox.Config, interval: nat, s: System, steps: seq<Step>)
    requires FailedBefore(s.outbox)
    ensures var t := Run(c, interval, s, steps);
      FailedBefore(t.outbox) && t.grants == s.grants && t.writes == s.writes
    decreases steps
  {
    hide Apply;
    if steps != [] {
      FailedStep(c, interval, s, steps[0]);
      FailedOnceIsNeverPolled(c, interval, Apply(c, interval, s, steps[0]), steps[1..]);
    }
  }

  /** A message that was accepted and is waiting for its report, with its next poll due. */
  predicate Awaiting(s: System, now: int) {
    && s.outbox.message.Some? && s.outbox.message.value.status == SmsOutbox.SENT
    && !s.outbox.message.value.delivered && !s.outbox.message.value.deadLettered
    && s.providerId.Some? && LeaseIsDue(s, now) && now <= s.outbox.clock
  }

  /** Exactly the accepted messages that never failed are polled: a poller that looks wins the lease iff no failure is recorded. */
  lemma PolledExactlyWhenNeverFailed(c: SmsOutbox.Config, interval: nat, s: System, p: nat, now: int)
    requires Awaiting(s, now) && p !in s.pollers
    ensures var t := Apply(c, interval, Apply(c, interval, s, Find(p, now)), ClaimLease(p, now));
      && (t.grants == s.grants + [Grant(p, now + interval)] <==> !s.outbox.message.value.failed)
      && (s.outbox.message.value.failed ==> t == s)
  {
  }

  function Lift(steps: seq<SmsOutbox.Step>): seq<Step> {
    if steps == [] then [] else [Outbox(steps[0], Some(0))] + Lift(steps[1..])
  }

  ghost predicate StoresId(steps: seq<SmsOutbox.Step>) { exists i :: 0 <= i < |steps| && steps[i].Record? }

  lemma {:induction false} LiftedRun(c: SmsOutbox.Config, interval: nat, s: System, steps: seq<SmsOutbox.Step>)
    requires forall i :: 0 <= i < |steps| ==> !steps[i].DeliveryReport?
    ensures var t := Run(c, interval, s, Lift(steps));
      && t.outbox == SmsOutbox.Run(c, s.outbox, steps)
      && t.lease == s.lease && t.pollers == s.pollers
      && (s.providerId.Some? || StoresId(steps) ==> t.providerId.Some?)
    decreases steps
  {
    hide SmsOutbox.Apply;
    if steps != [] {
      var next := Apply(c, interval, s, Outbox(steps[0], Some(0)));
      assert Lift(steps)[1..] == Lift(steps[1..]);
      if StoresId(steps) && !steps[0].Record? {
        var i :| 0 <= i < |steps| && steps[i].Record?;
        assert steps[1..][i - 1].Record?;
      }
      LiftedRun(c, interval, next, steps[1..]);
    }
  }

  /**
   * The failing case is real: from a fresh event, a submission that fails for now and a retry that is accepted leave the
   * message SENT, with its provider's id and a poll due, and yet no continuation ever polls it.
   */
  lemma AcceptedButNeverPolled(c: SmsOutbox.Config, interval: nat, more: seq<Step>)
    returns (start: System, steps: seq<Step>)
    ensures Initial(start)
    ensures var s := Run(c, interval, start, steps);
      && Awaiting(s, s.outbox.clock)
      && Run(c, interval, s, more).grants == s.grants && Run(c, interval, s, more).writes == s.writes
  {
    hide Run, SmsOutbox.Run, SmsOutbox.UpToSend;
    var taken := SmsOutbox.FailThenAccept();
    start := System(SmsOutbox.START, None, None, map[], [], []);
    steps := Lift(taken);
    SmsOutbox.SentAfterFailure(c);
    NoReports();
    LiftedRun(c, interval, start, taken);
    FailedOnceIsNeverPolled(c, interval, Run(c, interval, start, steps), more);
  }

  lemma NoReports()
    ensures var steps := SmsOutbox.FailThenAccept();
      StoresId(steps) && forall i :: 0 <= i < |steps| ==> !steps[i].DeliveryReport?
  {
    assert SmsOutbox.FailThenAccept()[7].Record?;
  }
}
