/**
 * An adjustment from the browser to the ledger: the client's stored identity, the server's idempotency
 * record and the unique correlation id of the ledger, with any number of requests in progress at once.
 */
module AdjustmentIdempotency {
  import opened Wrappers

  const RETENTION_MS := 7 * 24 * 60 * 60 * 1000

  /** `createdAt` is also the `effectiveAt` the client sends. */
  datatype Identity = Identity(key: nat, createdAt: int)

  /** A stored operation; digests are collision-free, so a payload stands for its digest. */
  datatype Stored = Stored(payload: nat, identity: Identity)

  // ----- the client

  function FindStored(operations: seq<Stored>, payload: nat): (r: Option<Stored>)
    ensures r.Some? ==> r.value in operations && r.value.payload == payload
    ensures r.None? ==> forall o :: o in operations ==> o.payload != payload
  {
    if operations == [] then None
    else if operations[0].payload == payload then Some(operations[0])
    else
      assert operations == [operations[0]] + operations[1..];
      FindStored(operations[1..], payload)
  }

  predicate Readable(operations: seq<Stored>) {
    forall i, j :: 0 <= i < j < |operations| ==>
      operations[i].payload != operations[j].payload && operations[i].identity.key != operations[j].identity.key
  }

  /** `getAdjustmentOperationIdentity`: the stored identity, a fresh one, or a refusal. */
  function GetIdentity(operations: seq<Stored>, payload: nat, now: int, newKey: nat): (Option<Identity>, seq<Stored>) {
    if !Readable(operations) then (None, operations)
    else
      var existing := FindStored(operations, payload);
      if existing.Some? then
        if now - existing.value.identity.createdAt >= RETENTION_MS then (None, operations)
        else (Some(existing.value.identity), operations)
      else
        var identity := Identity(newKey, now);
        (Some(identity), operations + [Stored(payload, identity)])
  }

  function Without(operations: seq<Stored>, payload: nat, key: nat): seq<Stored> {
    if operations == [] then []
    else if operations[0].payload == payload && operations[0].identity.key == key then
      Without(operations[1..], payload, key)
    else [operations[0]] + Without(operations[1..], payload, key)
  }

  /** Exactly the operation with that payload and key is gone. */
  lemma {:induction false} WithoutMembers(operations: seq<Stored>, payload: nat, key: nat, o: Stored)
    ensures o in Without(operations, payload, key) <==>
      o in operations && !(o.payload == payload && o.identity.key == key)
  {
    if operations != [] {
      assert operations == [operations[0]] + operations[1..];
      WithoutMembers(operations[1..], payload, key, o);
    }
  }

  lemma WithoutFrom(operations: seq<Stored>, i: nat, payload: nat, key: nat)
    requires i < |operations|
    ensures Without(operations[i..], payload, key)
         == (if operations[i].payload == payload && operations[i].identity.key == key then [] else [operations[i]])
            + Without(operations[i + 1..], payload, key)
  {
    assert operations[i..][1..] == operations[i + 1..];
  }

  lemma NothingWithout(payload: nat, key: nat)
    ensures Without([], payload, key) == []
  {
  }

  /** `clearAdjustmentOperationIdentity`: a list that cannot be read is refused and left alone. */
  function ClearIdentity(operations: seq<Stored>, payload: nat, key: nat): seq<Stored> {
    if Readable(operations) then Without(operations, payload, key) else operations
  }

  /** In a list that can be read, a payload's stored operation is the one that is found. */
  lemma StoredOnce(operations: seq<Stored>, payload: nat)
    requires Readable(operations)
    ensures forall o :: o in operations && o.payload == payload ==> FindStored(operations, payload) == Some(o)
  {
    forall o | o in operations && o.payload == payload ensures FindStored(operations, payload) == Some(o) {
      var i :| 0 <= i < |operations| && operations[i] == o;
      var found := FindStored(operations, payload).value;
      var j :| 0 <= j < |operations| && operations[j] == found;
    }
  }

  class Client {
    var operations: seq<Stored>

    constructor ()
      ensures operations == []
    {
      operations := [];
    }

    /** The search in `findStoredOperation`. */
    method Find(payload: nat) returns (r: Option<Stored>)
      ensures r == FindStored(operations, payload)
    {
      var i := 0;
      while i < |operations|
        invariant 0 <= i <= |operations|
        invariant FindStored(operations, payload) == FindStored(operations[i..], payload)
      {
        if operations[i].payload == payload {
          return Some(operations[i]);
        }
        assert operations[i..][1..] == operations[i + 1..];
        i := i + 1;
      }
      return None;
    }

    method Get(payload: nat, now: int, newKey: nat) returns (r: Option<Identity>)
      modifies this
      ensures (r, operations) == GetIdentity(old(operations), payload, now, newKey)
      ensures !Readable(old(operations)) ==> r == None && operations == old(operations)
      ensures forall o :: Readable(old(operations)) && o in old(operations) && o.payload == payload ==>
        && operations == old(operations)
        && r == if now - o.identity.createdAt < 604_800_000 then Some(o.identity) else None
      ensures Readable(old(operations)) && (forall o :: o in old(operations) ==> o.payload != payload) ==>
        r == Some(Identity(newKey, now)) && operations == old(operations) + [Stored(payload, Identity(newKey, now))]
    {
      if !Readable(operations) {
        return None;
      }
      StoredOnce(operations, payload);
      var existing := Find(payload);
      if existing.Some? {
        if now - existing.value.identity.createdAt >= RETENTION_MS {
          return None;
        }
        return Some(existing.value.identity);
      }
      var identity := Identity(newKey, now);
      operations := operations + [Stored(payload, identity)];
      return Some(identity);
    }

    /** `clearAdjustmentOperationIdentity`; the result says whether the stored list could be read. */
    method Clear(payload: nat, key: nat) returns (ok: bool)
      modifies this
      ensures ok == Readable(old(operations))
      ensures operations == ClearIdentity(old(operations), payload, key)
      ensures ok ==> forall o :: o in operations <==>
        o in old(operations) && !(o.payload == payload && o.identity.key == key)
    {
      if !Readable(operations) {
        return false;
      }
      hide Without, Readable;
      var kept: seq<Stored> := [];
      var i := 0;
      assert operations[0..] == operations;
      while i < |operations|
        invariant 0 <= i <= |operations| && operations == old(operations)
        invariant Without(operations, payload, key) == kept + Without(operations[i..], payload, key)
      {
        WithoutFrom(operations, i, payload, key);
        if operations[i].payload != payload || operations[i].identity.key != key {
          kept := kept + [operations[i]];
        }
        i := i + 1;
      }
      NothingWithout(payload, key);
      assert operations[i..] == [] && kept + [] == kept;
      forall o ensures o in kept <==> o in operations && !(o.payload == payload && o.identity.key == key) {
        WithoutMembers(operations, payload, key, o);
      }
      operations := kept;
      return true;
    }
  }

  // ----- client, server and database together

  /** The request hash; collision-free, so it is what it is computed from. */
  datatype Hash = Hash(payload: nat, effectiveAt: int)

  datatype Record = Record(hash: Hash, response: nat, expiresAt: int)

  datatype Effect = Effect(hash: Hash, response: nat)

  datatype Phase = ToCleanUp | ToFind | ToCommit | ToReplay

  datatype Request = Request(payload: nat, identity: Identity, phase: Phase)

  /** What a request was answered; `None` is any of the error responses. */
  datatype Answer = Answer(hash: Hash, key: nat, response: Option<nat>)

  /** `answers` and `issued` are history: every answer given and every identity handed out. */
  datatype System = System(
    clock: int, operations: seq<Stored>, records: map<nat, Record>, ledger: seq<Effect>,
    requests: map<nat, Request>, answers: seq<Answer>, issued: map<nat, Stored>, nextId: nat)

  datatype Attempt = Succeeds | Rejected | Conflicts

  datatype Step =
    | Tick(to: int)
    | Submit(payload: nat)
    | Clear(payload: nat, key: nat)
    | CleanUp(h: nat)
    | Find(h: nat)
    | Commit(h: nat, attempt: Attempt)
    | Replay(h: nat)
    | Lose(h: nat)

  function HashOf(r: Request): Hash { Hash(r.payload, r.identity.createdAt) }

  predicate Posted(ledger: seq<Effect>, hash: Hash) { exists i :: 0 <= i < |ledger| && ledger[i].hash == hash }

  function Respond(s: System, h: nat, response: Option<nat>): System
    requires h in s.requests
  {
    var r := s.requests[h];
    s.(requests := s.requests - {h}, answers := s.answers + [Answer(HashOf(r), r.identity.key, response)])
  }

  function MoveTo(s: System, h: nat, phase: Phase): System
    requires h in s.requests
  {
    s.(requests := s.requests[h := s.requests[h].(phase := phase)])
  }

  /** The transaction: the record, the ledger effect and the response commit together, or a unique index refuses them. */
  function CommitStep(s: System, h: nat, attempt: Attempt): System
    requires h in s.requests
  {
    var r := s.requests[h];
    match attempt
    case Rejected => Respond(s, h, None)
    case Conflicts => MoveTo(s, h, ToReplay)
    case Succeeds =>
      if r.identity.key in s.records || Posted(s.ledger, HashOf(r)) then MoveTo(s, h, ToReplay)
      else
        Respond(s, h, Some(s.nextId)).(
          records := s.records[r.identity.key := Record(HashOf(r), s.nextId, s.clock + RETENTION_MS)],
          ledger := s.ledger + [Effect(HashOf(r), s.nextId)],
          nextId := s.nextId + 1)
  }

  function ServerStep(s: System, step: Step, h: nat): System
    requires h in s.requests
  {
    var r := s.requests[h];
    var key := r.identity.key;
    match (step, r.phase)
    case (CleanUp(_), ToCleanUp) =>
      MoveTo(s, h, ToFind).(
        records := if key in s.records && s.records[key].expiresAt <= s.clock then s.records - {key} else s.records)
    case (Find(_), ToFind) =>
      if key !in s.records then MoveTo(s, h, ToCommit)
      else Respond(s, h, if s.records[key].hash == HashOf(r) then Some(s.records[key].response) else None)
    case (Commit(_, attempt), ToCommit) => CommitStep(s, h, attempt)
    case (Replay(_), ToReplay) =>
      Respond(s, h, if key in s.records && s.records[key].hash == HashOf(r) then Some(s.records[key].response) else None)
    case (Lose(_), _) => s.(requests := s.requests - {h})
    case _ => s
  }

  function SubmitStep(s: System, payload: nat): System {
    var (identity, operations) := GetIdentity(s.operations, payload, s.clock, s.nextId);
    if identity.None? then s
    else s.(
      operations := operations,
      requests := s.requests[s.nextId + 1 := Request(payload, identity.value, ToCleanUp)],
      issued := s.issued[identity.value.key := Stored(payload, identity.value)],
      nextId := s.nextId + 2)
  }

  function Apply(s: System, step: Step): System {
    match step
    case Tick(to) => s.(clock := if s.clock <= to then to else s.clock)
    case Submit(payload) => SubmitStep(s, payload)
    case Clear(payload, key) => s.(operations := ClearIdentity(s.operations, payload, key))
    case _ => if step.h in s.requests then ServerStep(s, step, step.h) else s
  }

  function Run(s: System, steps: seq<Step>): System
    decreases steps
  {
    if steps == [] then s else Run(Apply(s, steps[0]), steps[1..])
  }

  predicate Initial(s: System) {
    s.operations == [] && s.records == map[] && s.ledger == [] && s.requests == map[] && s.answers == [] && s.issued == map[]
  }

  // ----- the invariant

  ghost predicate IssuedAs(s: System, payload: nat, identity: Identity) {
    && identity.key in s.issued && s.issued[identity.key] == Stored(payload, identity)
    && identity.key < s.nextId && identity.createdAt <= s.clock
  }

  ghost predicate ClientSound(s: System) {
    && Readable(s.operations)
    && (forall i :: 0 <= i < |s.operations| ==> IssuedAs(s, s.operations[i].payload, s.operations[i].identity))
    && (forall k :: k in s.issued ==> k < s.nextId)
  }

  /** A record belongs to its key's identity, its effect is in the ledger, and it outlives the identity. */
  ghost predicate RecordSound(s: System, key: nat)
    requires key in s.records
  {
    && key in s.issued
    && var o := s.issued[key];
    && s.records[key].hash == Hash(o.payload, o.identity.createdAt)
    && Effect(s.records[key].hash, s.records[key].response) in s.ledger
    && s.records[key].expiresAt >= o.identity.createdAt + RETENTION_MS
  }

  ghost predicate ServerSound(s: System) {
    && (forall h :: h in s.requests ==> h < s.nextId && IssuedAs(s, s.requests[h].payload, s.requests[h].identity))
    && (forall k :: k in s.records ==> RecordSound(s, k))
    && (forall i, j :: 0 <= i < j < |s.ledger| ==> s.ledger[i].hash != s.ledger[j].hash)
    && (forall k :: 0 <= k < |s.answers| ==>
          s.answers[k].response.Some? ==> Effect(s.answers[k].hash, s.answers[k].response.value) in s.ledger)
  }

  ghost predicate Inv(s: System) { ClientSound(s) && ServerSound(s) }

  /** Growing the ledger and the issued identities and moving the clock on hurts nothing already sound. */
  ghost predicate Extends(s: System, t: System) {
    && s.clock <= t.clock && s.nextId <= t.nextId && s.ledger <= t.ledger
    && (forall k :: k in s.issued ==> k in t.issued && t.issued[k] == s.issued[k])
    && (forall k :: k in t.issued ==> k < t.nextId)
  }

  lemma IssuedKept(s: System, t: System, payload: nat, identity: Identity)
    requires Extends(s, t) && IssuedAs(s, payload, identity)
    ensures IssuedAs(t, payload, identity)
  {
  }

  lemma RecordKept(s: System, t: System, key: nat)
    requires Extends(s, t) && key in s.records && key in t.records && t.records[key] == s.records[key] && RecordSound(s, key)
    ensures RecordSound(t, key)
  {
  }

  lemma StoredWasIssued(s: System, payload: nat)
    requires ClientSound(s) && FindStored(s.operations, payload).Some?
    ensures IssuedAs(s, payload, FindStored(s.operations, payload).value.identity)
  {
    hide FindStored;
    var i :| 0 <= i < |s.operations| && s.operations[i] == FindStored(s.operations, payload).value;
  }

  /** A fresh operation clashes with none that is stored. */
  lemma FreshIsReadable(s: System, payload: nat)
    requires ClientSound(s) && FindStored(s.operations, payload).None?
    ensures Readable(s.operations + [Stored(payload, Identity(s.nextId, s.clock))])
  {
    hide FindStored;
    forall i | 0 <= i < |s.operations|
      ensures s.operations[i].payload != payload && s.operations[i].identity.key != s.nextId
    {
      assert s.operations[i] in s.operations;
      assert IssuedAs(s, s.operations[i].payload, s.operations[i].identity);
    }
  }

  /** What a submission hands out, and to which operations list. */
  lemma SubmitIssues(s: System, payload: nat) returns (identity: Identity)
    requires ClientSound(s) && SubmitStep(s, payload) != s
    ensures var t := SubmitStep(s, payload);
      && Extends(s, t) && IssuedAs(t, payload, identity) && ClientSound(t)
      && t == s.(operations := t.operations, issued := t.issued, nextId := s.nextId + 2,
                 requests := s.requests[s.nextId + 1 := Request(payload, identity, ToCleanUp)])
  {
    hide FindStored, Readable;
    var existing := FindStored(s.operations, payload);
    if existing.Some? {
      StoredWasIssued(s, payload);
    } else {
      FreshIsReadable(s, payload);
    }
    identity := if existing.Some? then existing.value.identity else Identity(s.nextId, s.clock);
    var t := SubmitStep(s, payload);
    forall i | 0 <= i < |t.operations| ensures IssuedAs(t, t.operations[i].payload, t.operations[i].identity) {
      if i < |s.operations| {
        IssuedKept(s, t, s.operations[i].payload, s.operations[i].identity);
      }
    }
  }

  lemma SubmitKeepsInv(s: System, payload: nat)
    requires Inv(s)
    ensures Inv(SubmitStep(s, payload))
  {
    hide ClientSound, SubmitStep, IssuedAs, RecordSound;
    var t := SubmitStep(s, payload);
    if t != s {
      var identity := SubmitIssues(s, payload);
      forall h | h in t.requests ensures h < t.nextId && IssuedAs(t, t.requests[h].payload, t.requests[h].identity) {
        if h in s.requests && h != s.nextId + 1 {
          IssuedKept(s, t, s.requests[h].payload, s.requests[h].identity);
        }
      }
      forall k | k in t.records ensures RecordSound(t, k) {
        RecordKept(s, t, k);
      }
    }
  }

  lemma {:induction false} ClearKeepsReadable(operations: seq<Stored>, payload: nat, key: nat)
    requires Readable(operations)
    ensures Readable(Without(operations, payload, key))
  {
    if operations != [] {
      ClearKeepsReadable(operations[1..], payload, key);
      var rest := Without(operations[1..], payload, key);
      forall j | 0 <= j < |rest|
        ensures operations[0].payload != rest[j].payload && operations[0].identity.key != rest[j].identity.key
      {
        WithoutMembers(operations[1..], payload, key, rest[j]);
        assert rest[j] in operations[1..];
      }
    }
  }

  lemma ClearKeepsInv(s: System, payload: nat, key: nat)
    requires Inv(s)
    ensures Inv(s.(operations := ClearIdentity(s.operations, payload, key)))
  {
    var t := s.(operations := ClearIdentity(s.operations, payload, key));
    ClearKeepsReadable(s.operations, payload, key);
    forall i | 0 <= i < |t.operations| ensures IssuedAs(t, t.operations[i].payload, t.operations[i].identity) {
      WithoutMembers(s.operations, payload, key, t.operations[i]);
      assert t.operations[i] in t.operations;
      var j :| 0 <= j < |s.operations| && s.operations[j] == t.operations[i];
      assert IssuedAs(s, s.operations[j].payload, s.operations[j].identity);
    }
    forall h | h in t.requests ensures IssuedAs(t, t.requests[h].payload, t.requests[h].identity) {
      assert IssuedAs(s, s.requests[h].payload, s.requests[h].identity);
    }
    forall k | k in t.records ensures RecordSound(t, k) {
      assert RecordSound(s, k);
    }
  }

  /** Steps that change neither the client nor the ledger nor any record. */
  lemma QuietKeepsInv(s: System, t: System)
    requires Inv(s) && Extends(s, t)
    requires t.operations == s.operations && t.ledger == s.ledger && t.issued == s.issued && t.answers == s.answers
    requires forall k :: k in t.records ==> k in s.records && t.records[k] == s.records[k]
    requires forall h :: h in t.requests ==>
      h in s.requests && t.requests[h] == s.requests[h].(phase := t.requests[h].phase)
    ensures Inv(t)
  {
  }

  lemma RespondKeepsInv(s: System, h: nat, response: Option<nat>)
    requires Inv(s) && h in s.requests
    requires response.Some? ==> Effect(HashOf(s.requests[h]), response.value) in s.ledger
    ensures Inv(Respond(s, h, response))
  {
  }

  /** A new ledger effect has a hash no earlier one has, and comes with its record. */
  lemma EffectKeepsInv(s: System, h: nat)
    requires Inv(s) && h in s.requests
    requires s.requests[h].identity.key !in s.records && !Posted(s.ledger, HashOf(s.requests[h]))
    ensures Inv(CommitStep(s, h, Succeeds))
  {
  }

  lemma ServerKeepsInv(s: System, step: Step, h: nat)
    requires Inv(s) && h in s.requests
    ensures Inv(ServerStep(s, step, h))
  {
    hide Inv;
    var r := s.requests[h];
    var key := r.identity.key;
    match (step, r.phase)
    case (CleanUp(_), ToCleanUp) =>
      MovesKeepInv(s, h, ToFind, ServerStep(s, step, h));
    case (Find(_), ToFind) =>
      if key !in s.records {
        MovesKeepInv(s, h, ToCommit, ServerStep(s, step, h));
      } else {
        RecordedEffect(s, key);
        RespondKeepsInv(s, h, if s.records[key].hash == HashOf(r) then Some(s.records[key].response) else None);
      }
    case (Commit(_, attempt), ToCommit) =>
      if attempt == Rejected {
        RespondKeepsInv(s, h, None);
      } else if attempt == Conflicts || key in s.records || Posted(s.ledger, HashOf(r)) {
        MovesKeepInv(s, h, ToReplay, ServerStep(s, step, h));
      } else {
        EffectKeepsInv(s, h);
      }
    case (Replay(_), ToReplay) =>
      if key in s.records {
        RecordedEffect(s, key);
      }
      RespondKeepsInv(s, h, if key in s.records && s.records[key].hash == HashOf(r) then Some(s.records[key].response) else None);
    case (Lose(_), _) => LoseKeepsInv(s, h);
    case _ =>
  }

  lemma RecordedEffect(s: System, key: nat)
    requires Inv(s)
    ensures key in s.records ==> Effect(s.records[key].hash, s.records[key].response) in s.ledger
  {
  }

  lemma MovesKeepInv(s: System, h: nat, phase: Phase, t: System)
    requires Inv(s) && h in s.requests
    requires t == MoveTo(s, h, phase).(records := t.records)
    requires forall k :: k in t.records ==> k in s.records && t.records[k] == s.records[k]
    ensures Inv(t)
  {
  }

  lemma LoseKeepsInv(s: System, h: nat)
    requires Inv(s) && h in s.requests
    ensures Inv(s.(requests := s.requests - {h}))
  {
  }

  lemma StepKeepsInv(s: System, step: Step)
    requires Inv(s)
    ensures Inv(Apply(s, step))
  {
    match step
    case Tick(to) => QuietKeepsInv(s, Apply(s, step));
    case Submit(payload) => SubmitKeepsInv(s, payload);
    case Clear(payload, key) => ClearKeepsInv(s, payload, key);
    case _ =>
      if step.h in s.requests {
        ServerKeepsInv(s, step, step.h);
      }
  }

  lemma {:induction false} RunKeepsInv(s: System, steps: seq<Step>)
    requires Inv(s)
    ensures Inv(Run(s, steps))
    decreases steps
  {
    hide Inv, Apply;
    if steps != [] {
      StepKeepsInv(s, steps[0]);
      RunKeepsInv(Apply(s, steps[0]), steps[1..]);
    }
  }

  // ----- the theorems

  /** Two successful answers to requests with the same hash. */
  predicate SameSuccess(answers: seq<Answer>, i: int, j: int) {
    && 0 <= i < |answers| && 0 <= j < |answers|
    && answers[i].hash == answers[j].hash && answers[i].response.Some? && answers[j].response.Some?
  }

  /**
   * At most once, whatever the interleaving, the losses and the clock: each request hash has at most one
   * ledger effect, and every successful answer to it carries that effect's response.
   */
  lemma AtMostOneEffect(start: System, steps: seq<Step>)
    requires Initial(start)
    ensures var s := Run(start, steps);
      && (forall i, j :: 0 <= i < j < |s.ledger| ==> s.ledger[i].hash != s.ledger[j].hash)
      && (forall i, j :: SameSuccess(s.answers, i, j) ==> s.answers[i].response == s.answers[j].response)
  {
    RunKeepsInv(start, steps);
    var s := Run(start, steps);
    forall i, j | SameSuccess(s.answers, i, j)
      ensures s.answers[i].response == s.answers[j].response
    {
      var a :| 0 <= a < |s.ledger| && s.ledger[a] == Effect(s.answers[i].hash, s.answers[i].response.value);
      var b :| 0 <= b < |s.ledger| && s.ledger[b] == Effect(s.answers[j].hash, s.answers[j].response.value);
      assert a == b;
    }
  }

  ghost predicate StoredAs(s: System, payload: nat, identity: Identity) {
    FindStored(s.operations, payload) == Some(Stored(payload, identity))
  }

  lemma {:induction false} FindAfterAppend(operations: seq<Stored>, o: Stored, payload: nat)
    requires FindStored(operations, payload).Some?
    ensures FindStored(operations + [o], payload) == FindStored(operations, payload)
  {
    if operations[0].payload != payload {
      assert (operations + [o])[1..] == operations[1..] + [o];
      FindAfterAppend(operations[1..], o, payload);
    }
  }

  lemma {:induction false} FindAfterClear(operations: seq<Stored>, payload: nat, cleared: nat, key: nat)
    requires cleared != payload
    ensures FindStored(Without(operations, cleared, key), payload) == FindStored(operations, payload)
  {
    if operations != [] {
      FindAfterClear(operations[1..], payload, cleared, key);
      var rest := Without(operations[1..], cleared, key);
      assert ([operations[0]] + rest)[1..] == rest;
    }
  }

  /** The server never touches the client's list, and only moves or ends the request it works on. */
  lemma ServerKeepsRequests(s: System, step: Step, h: nat)
    requires h in s.requests
    ensures var t := ServerStep(s, step, h);
      && t.operations == s.operations && t.clock == s.clock
      && (forall k :: k in t.requests ==>
            k in s.requests && t.requests[k].payload == s.requests[k].payload && t.requests[k].identity == s.requests[k].identity)
  {
  }

  /**
   * Between clears every retry of a payload is the same request: the stored identity stays, and whatever is
   * submitted for the payload carries it or is refused.
   */
  lemma RetriesShareIdentity(s: System, step: Step, payload: nat, identity: Identity)
    requires Inv(s) && StoredAs(s, payload, identity)
    requires !(step.Clear? && step.payload == payload)
    ensures var t := Apply(s, step);
      && StoredAs(t, payload, identity)
      && (forall h :: h in t.requests && h !in s.requests && t.requests[h].payload == payload ==> t.requests[h].identity == identity)
  {
    hide ServerStep, FindStored, ServerSound;
    if step.Submit? {
      if step.payload != payload {
        FindAfterAppend(s.operations, Stored(step.payload, Identity(s.nextId, s.clock)), payload);
      }
    } else if step.Clear? {
      FindAfterClear(s.operations, payload, step.payload, step.key);
    } else if !step.Tick? && step.h in s.requests {
      ServerKeepsRequests(s, step, step.h);
    }
  }

  /** Requests submitted from `first` on for a payload all carry one identity. */
  ghost predicate CarryIdentity(s: System, first: nat, payload: nat, identity: Identity) {
    forall h :: h in s.requests && h >= first && s.requests[h].payload == payload ==> s.requests[h].identity == identity
  }

  /** Over any run without a clear of the payload, every retry carries the identity that was stored. */
  lemma {:induction false} RunSharesIdentity(s: System, steps: seq<Step>, first: nat, payload: nat, identity: Identity)
    requires Inv(s) && StoredAs(s, payload, identity) && CarryIdentity(s, first, payload, identity)
    requires forall i :: 0 <= i < |steps| ==> !(steps[i].Clear? && steps[i].payload == payload)
    ensures StoredAs(Run(s, steps), payload, identity) && CarryIdentity(Run(s, steps), first, payload, identity)
    decreases steps
  {
    if steps != [] {
      hide Inv, Apply, StoredAs, CarryIdentity;
      StepKeepsInv(s, steps[0]);
      StepSharesIdentity(s, steps[0], first, payload, identity);
      RunSharesIdentity(Apply(s, steps[0]), steps[1..], first, payload, identity);
    }
  }

  lemma StepSharesIdentity(s: System, step: Step, first: nat, payload: nat, identity: Identity)
    requires Inv(s) && StoredAs(s, payload, identity) && CarryIdentity(s, first, payload, identity)
    requires !(step.Clear? && step.payload == payload)
    ensures StoredAs(Apply(s, step), payload, identity) && CarryIdentity(Apply(s, step), first, payload, identity)
  {
    RetriesShareIdentity(s, step, payload, identity);
    RequestsKeepIdentity(s, step);
    hide Apply, Inv, StoredAs;
  }

  lemma RequestsKeepIdentity(s: System, step: Step)
    requires Inv(s)
    ensures var t := Apply(s, step);
      forall h :: h in s.requests && h in t.requests ==>
        t.requests[h].payload == s.requests[h].payload && t.requests[h].identity == s.requests[h].identity
  {
    hide ServerStep, ClientSound;
    if !step.Tick? && !step.Submit? && !step.Clear? && step.h in s.requests {
      ServerKeepsRequests(s, step, step.h);
    }
  }

  /** The request was still in progress in state s, with the same payload and identity. */
  predicate WasOpen(s: System, r: Request) {
    exists h :: h in s.requests && s.requests[h].payload == r.payload && s.requests[h].identity == r.identity
  }

  /** Some request still in progress in state s bears this hash. */
  predicate OpenHash(s: System, hash: Hash) {
    exists h :: h in s.requests && HashOf(s.requests[h]) == hash
  }

  /** A hash of the payload that is the stored identity's, or that of a request which was open in s. */
  predicate Mine(s: System, hash: Hash, identity: Identity) {
    hash.effectiveAt == identity.createdAt || OpenHash(s, hash)
  }

  ghost predicate RequestsAttributed(s: System, t: System, payload: nat, identity: Identity) {
    forall h :: h in t.requests && t.requests[h].payload == payload ==>
      t.requests[h].identity == identity || WasOpen(s, t.requests[h])
  }

  ghost predicate EffectsAttributed(s: System, t: System, payload: nat, identity: Identity) {
    |s.ledger| <= |t.ledger| && forall i :: EffectSince(s, t, payload, i) ==> Mine(s, t.ledger[i].hash, identity)
  }

  ghost predicate AnswersAttributed(s: System, t: System, payload: nat, identity: Identity) {
    |s.answers| <= |t.answers| && forall i :: AnswerSince(s, t, payload, i) ==> Mine(s, t.answers[i].hash, identity)
  }

  /** In t, every open request, new effect and new answer for the payload is the identity's or was open in s. */
  ghost predicate Attributed(s: System, t: System, payload: nat, identity: Identity) {
    && RequestsAttributed(s, t, payload, identity)
    && EffectsAttributed(s, t, payload, identity)
    && AnswersAttributed(s, t, payload, identity)
  }

  /** Effect i of the later state is for the payload and new since the earlier state. */
  predicate EffectSince(s: System, t: System, payload: nat, i: int) {
    |s.ledger| <= i < |t.ledger| && t.ledger[i].hash.payload == payload
  }

  predicate AnswerSince(s: System, t: System, payload: nat, i: int) {
    |s.answers| <= i < |t.answers| && t.answers[i].hash.payload == payload
  }

  /** One step posts at most one effect and gives at most one answer, both under the hash of an open request. */
  lemma StepPosts(t: System, step: Step) returns (effects: seq<Effect>, answers: seq<Answer>)
    ensures var u := Apply(t, step); u.ledger == t.ledger + effects && u.answers == t.answers + answers
    ensures forall i :: 0 <= i < |effects| ==> OpenHash(t, effects[i].hash)
    ensures forall i :: 0 <= i < |answers| ==> OpenHash(t, answers[i].hash)
  {
    hide GetIdentity, Posted, ClearIdentity;
    var u := Apply(t, step);
    effects := if |u.ledger| == |t.ledger| then [] else [u.ledger[|t.ledger|]];
    answers := if |u.answers| == |t.answers| then [] else [u.answers[|t.answers|]];
    if !step.Tick? && !step.Submit? && !step.Clear? && step.h in t.requests {
      assert OpenHash(t, HashOf(t.requests[step.h]));
    }
  }

  lemma OpenIsMine(s: System, t: System, payload: nat, identity: Identity, hash: Hash)
    requires RequestsAttributed(s, t, payload, identity) && OpenHash(t, hash) && hash.payload == payload
    ensures Mine(s, hash, identity)
  {
    var h :| h in t.requests && HashOf(t.requests[h]) == hash;
    if t.requests[h].identity != identity {
      assert WasOpen(s, t.requests[h]);
    }
  }

  lemma RequestsStayAttributed(s: System, t: System, step: Step, payload: nat, identity: Identity)
    requires Inv(t) && StoredAs(t, payload, identity) && RequestsAttributed(s, t, payload, identity)
    requires !(step.Clear? && step.payload == payload)
    ensures RequestsAttributed(s, Apply(t, step), payload, identity)
  {
    hide Apply, Inv, StoredAs;
    RetriesShareIdentity(t, step, payload, identity);
    RequestsKeepIdentity(t, step);
  }

  lemma EffectsStayAttributed(s: System, t: System, u: System, effects: seq<Effect>, payload: nat, identity: Identity)
    requires RequestsAttributed(s, t, payload, identity) && EffectsAttributed(s, t, payload, identity)
    requires u.ledger == t.ledger + effects && forall i :: 0 <= i < |effects| ==> OpenHash(t, effects[i].hash)
    ensures EffectsAttributed(s, u, payload, identity)
  {
    hide RequestsAttributed, OpenHash, Mine;
    forall i | EffectSince(s, u, payload, i) ensures Mine(s, u.ledger[i].hash, identity) {
      if i < |t.ledger| {
        assert EffectSince(s, t, payload, i);
      } else {
        OpenIsMine(s, t, payload, identity, effects[i - |t.ledger|].hash);
      }
    }
  }

  lemma AnswersStayAttributed(s: System, t: System, u: System, answers: seq<Answer>, payload: nat, identity: Identity)
    requires RequestsAttributed(s, t, payload, identity) && AnswersAttributed(s, t, payload, identity)
    requires u.answers == t.answers + answers && forall i :: 0 <= i < |answers| ==> OpenHash(t, answers[i].hash)
    ensures AnswersAttributed(s, u, payload, identity)
  {
    hide RequestsAttributed, OpenHash, Mine;
    forall i | AnswerSince(s, u, payload, i) ensures Mine(s, u.answers[i].hash, identity) {
      if i < |t.answers| {
        assert AnswerSince(s, t, payload, i);
      } else {
        OpenIsMine(s, t, payload, identity, answers[i - |t.answers|].hash);
      }
    }
  }

  lemma StepKeepsAttribution(s: System, t: System, step: Step, payload: nat, identity: Identity)
    requires Inv(t) && StoredAs(t, payload, identity) && Attributed(s, t, payload, identity)
    requires !(step.Clear? && step.payload == payload)
    ensures Attributed(s, Apply(t, step), payload, identity)
  {
    hide Apply, Inv, StoredAs, RequestsAttributed, EffectsAttributed, AnswersAttributed, OpenHash;
    var effects, answers := StepPosts(t, step);
    RequestsStayAttributed(s, t, step, payload, identity);
    EffectsStayAttributed(s, t, Apply(t, step), effects, payload, identity);
    AnswersStayAttributed(s, t, Apply(t, step), answers, payload, identity);
  }

  lemma {:induction false} RunKeepsAttribution(s: System, t: System, steps: seq<Step>, payload: nat, identity: Identity)
    requires Inv(t) && StoredAs(t, payload, identity) && Attributed(s, t, payload, identity)
    requires forall i :: 0 <= i < |steps| ==> !(steps[i].Clear? && steps[i].payload == payload)
    ensures Attributed(s, Run(t, steps), payload, identity)
    decreases steps
  {
    if steps != [] {
      hide Inv, Apply, StoredAs, Attributed;
      StepKeepsInv(t, steps[0]);
      StepKeepsStored(t, steps[0], payload, identity);
      StepKeepsAttribution(s, t, steps[0], payload, identity);
      RunKeepsAttribution(s, Apply(t, steps[0]), steps[1..], payload, identity);
    }
  }

  lemma StepKeepsStored(t: System, step: Step, payload: nat, identity: Identity)
    requires Inv(t) && StoredAs(t, payload, identity) && !(step.Clear? && step.payload == payload)
    ensures StoredAs(Apply(t, step), payload, identity)
  {
    hide Inv, Apply, StoredAs;
    RetriesShareIdentity(t, step, payload, identity);
  }

  /**
   * End to end. From any reachable state in which a payload's identity is stored, and until it is cleared, any number
   * of retries by the client, at any time and in any interleaving, add at most one effect to the ledger, and every
   * success among their answers carries the same response. The only other effects and answers for the payload are those
   * of requests that were already in progress under an older identity.
   */
  lemma OneEffectBetweenClears(start: System, before: seq<Step>, payload: nat, identity: Identity, steps: seq<Step>)
    requires Initial(start)
    requires StoredAs(Run(start, before), payload, identity)
    requires forall i :: 0 <= i < |steps| ==> !(steps[i].Clear? && steps[i].payload == payload)
    ensures var s := Run(start, before);
      var t := Run(s, steps);
      var mine := Hash(payload, identity.createdAt);
      && (forall i :: EffectSince(s, t, payload, i) ==> t.ledger[i].hash == mine || OpenHash(s, t.ledger[i].hash))
      && (forall i, j :: 0 <= i < |t.ledger| && 0 <= j < |t.ledger| && t.ledger[i].hash == mine == t.ledger[j].hash ==> i == j)
      && (forall i :: AnswerSince(s, t, payload, i) ==> t.answers[i].hash == mine || OpenHash(s, t.answers[i].hash))
      && (forall i, j :: SameSuccess(t.answers, i, j) && t.answers[i].hash == mine ==>
            t.answers[i].response == t.answers[j].response)
  {
    hide Apply, StoredAs, OpenHash, Run, Inv;
    var s := Run(start, before);
    assert Inv(s) by { InitialInv(start); RunKeepsInv(start, before); }
    StartsAttributed(s, payload, identity);
    RunKeepsAttribution(s, s, steps, payload, identity);
    var t := Run(s, steps);
    RunConcat(start, before, steps);
    AtMostOneEffect(start, before + steps);
    forall i, j | 0 <= i < |t.ledger| && 0 <= j < |t.ledger| && t.ledger[i].hash == t.ledger[j].hash ensures i == j {
      assert !(i < j) && !(j < i);
    }
  }

  lemma InitialInv(start: System)
    requires Initial(start)
    ensures Inv(start)
  {
  }

  lemma StartsAttributed(s: System, payload: nat, identity: Identity)
    ensures Attributed(s, s, payload, identity)
  {
  }

  lemma {:induction false} RunConcat(s: System, first: seq<Step>, second: seq<Step>)
    ensures Run(s, first + second) == Run(Run(s, first), second)
    decreases first
  {
    hide Apply;
    if first == [] {
      assert first + second == second;
    } else {
      assert (first + second)[1..] == first[1..] + second;
      RunConcat(Apply(s, first[0]), first[1..], second);
    }
  }

  // ----- one request from beginning to end

  /** The calls of one request, with nothing in between; a call that is not its next one does nothing. */
  function Handled(s: System, h: nat, attempt: Attempt): System {
    Apply(Apply(Apply(Apply(s, CleanUp(h)), Find(h)), Commit(h, attempt)), Replay(h))
  }

  /** The server still has a record of the key. */
  predicate Remembered(s: System, key: nat) { key in s.records && s.records[key].expiresAt > s.clock }

  /** The records without one that has run out. */
  function Cleaned(s: System, key: nat): map<nat, Record> { if Remembered(s, key) then s.records else s.records - {key} }

  /**
   * One undisturbed request. A remembered key is answered with its recorded response if it stands for the same request
   * and with an error if not, and nothing is posted. Otherwise an attempt that succeeds posts one effect, remembers it for seven
   * days and answers with it, unless the ledger already has an effect of the same request; anything else is an error.
   */
  lemma RequestOutcome(s: System, h: nat, attempt: Attempt)
    requires h in s.requests && s.requests[h].phase == ToCleanUp
    ensures var r := s.requests[h];
      var key := r.identity.key;
      var t := Handled(s, h, attempt);
      var answer := (response: Option<nat>) => s.answers + [Answer(HashOf(r), key, response)];
      && t.requests == s.requests - {h} && t.operations == s.operations && t.clock == s.clock
      && (Remembered(s, key) ==>
            && t.records == s.records && t.ledger == s.ledger
            && t.answers == answer(if s.records[key].hash == HashOf(r) then Some(s.records[key].response) else None))
      && (!Remembered(s, key) && attempt.Succeeds? && !Posted(s.ledger, HashOf(r)) ==>
            && t.ledger == s.ledger + [Effect(HashOf(r), s.nextId)] && t.answers == answer(Some(s.nextId))
            && t.records == Cleaned(s, key)[key := Record(HashOf(r), s.nextId, s.clock + 604_800_000)])
      && (!Remembered(s, key) && (!attempt.Succeeds? || Posted(s.ledger, HashOf(r))) ==>
            t.ledger == s.ledger && t.answers == answer(None) && t.records == Cleaned(s, key))
  {
    hide Posted, Apply;
    var r := s.requests[h];
    var key := r.identity.key;
    CleanUpEffect(s, h);
    var s1 := s.(requests := s.requests[h := r.(phase := ToFind)], records := Cleaned(s, key));
    if Remembered(s, key) {
      FindRecorded(s1, h);
      NotThere(Apply(s1, Find(h)), h, attempt);
      assert s1.requests - {h} == s.requests - {h};
    } else {
      FindNothing(s1, h);
      var s2 := s1.(requests := s1.requests[h := r.(phase := ToCommit)]);
      CommitOutcome(s2, h, attempt);
      assert s2.requests - {h} == s.requests - {h};
    }
  }

  lemma CleanUpEffect(s: System, h: nat)
    requires h in s.requests && s.requests[h].phase == ToCleanUp
    ensures Apply(s, CleanUp(h)) == s.(
      requests := s.requests[h := s.requests[h].(phase := ToFind)], records := Cleaned(s, s.requests[h].identity.key))
  {
    hide GetIdentity, ClearIdentity;
    var key := s.requests[h].identity.key;
    assert key !in s.records ==> s.records - {key} == s.records;
  }

  lemma FindRecorded(s: System, h: nat)
    requires h in s.requests && s.requests[h].phase == ToFind && s.requests[h].identity.key in s.records
    ensures var r := s.requests[h];
      var record := s.records[r.identity.key];
      Apply(s, Find(h)) == s.(
        requests := s.requests - {h},
        answers := s.answers + [Answer(HashOf(r), r.identity.key, if record.hash == HashOf(r) then Some(record.response) else None)])
  {
    hide GetIdentity, ClearIdentity;
  }

  lemma FindNothing(s: System, h: nat)
    requires h in s.requests && s.requests[h].phase == ToFind && s.requests[h].identity.key !in s.records
    ensures Apply(s, Find(h)) == s.(requests := s.requests[h := s.requests[h].(phase := ToCommit)])
  {
    hide GetIdentity, ClearIdentity;
  }

  lemma NotThere(s: System, h: nat, attempt: Attempt)
    requires h !in s.requests
    ensures Apply(s, Commit(h, attempt)) == s && Apply(s, Replay(h)) == s
  {
    hide GetIdentity, ClearIdentity;
  }

  /**
   * From the commit on. A rejected attempt is an error. One that conflicts, or finds the key recorded or the hash posted
   * by another request in the meantime, posts nothing and replays the record if it stands for the same request.
   */
  lemma CommitOutcome(s: System, h: nat, attempt: Attempt)
    requires h in s.requests && s.requests[h].phase == ToCommit
    ensures var r := s.requests[h];
      var key := r.identity.key;
      var t := Apply(Apply(s, Commit(h, attempt)), Replay(h));
      if attempt.Succeeds? && key !in s.records && !Posted(s.ledger, HashOf(r)) then
        t == s.(requests := s.requests - {h}, ledger := s.ledger + [Effect(HashOf(r), s.nextId)], nextId := s.nextId + 1,
                answers := s.answers + [Answer(HashOf(r), key, Some(s.nextId))],
                records := s.records[key := Record(HashOf(r), s.nextId, s.clock + 604_800_000)])
      else
        t == s.(requests := s.requests - {h}, answers := s.answers + [Answer(HashOf(r), key,
                  if !attempt.Rejected? && key in s.records && s.records[key].hash == HashOf(r)
                  then Some(s.records[key].response) else None)])
  {
    hide GetIdentity, ClearIdentity, Posted;
    var r := s.requests[h];
    var t := Apply(s, Commit(h, attempt));
    if attempt.Conflicts? || (attempt.Succeeds? && (r.identity.key in s.records || Posted(s.ledger, HashOf(r)))) {
      assert t == MoveTo(s, h, ToReplay);
      assert t.requests - {h} == s.requests - {h};
    }
  }

  /** The client hands out a stored identity only while the server cannot have forgotten it yet. */
  lemma ClientRefusesFirst(s: System, payload: nat)
    requires Inv(s)
    ensures var t := SubmitStep(s, payload);
      t != s && FindStored(s.operations, payload).Some? ==>
        var identity := FindStored(s.operations, payload).value.identity;
        && s.clock < identity.createdAt + RETENTION_MS
        && (identity.key in s.records ==> s.clock < s.records[identity.key].expiresAt)
  {
  }

  /** Inside the identity's seven days no step, not even a cleanup, removes or changes its record. */
  lemma RecordOutlivesIdentity(s: System, step: Step, key: nat)
    requires Inv(s) && key in s.records && key in s.issued
    requires Apply(s, step).clock < s.issued[key].identity.createdAt + RETENTION_MS
    ensures key in Apply(s, step).records && Apply(s, step).records[key] == s.records[key]
  {
    assert RecordSound(s, key);
    hide Inv, FindStored, Posted, GetIdentity, ClearIdentity, HashOf;
  }

  /** So a request that looks inside that time, once the effect is committed, is answered with its response. */
  lemma RetryIsReplayed(s: System, h: nat)
    requires Inv(s) && h in s.requests && s.requests[h].phase == ToFind && s.requests[h].identity.key in s.records
    ensures var t := Apply(s, Find(h));
      && t.ledger == s.ledger
      && t.answers == s.answers + [Answer(HashOf(s.requests[h]), s.requests[h].identity.key,
                                          Some(s.records[s.requests[h].identity.key].response))]
  {
  }
}
