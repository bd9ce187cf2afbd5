/** The device and session transactions in their own form: row by row, with a rollback when a check fails. */
module DeviceStore {
  import opened Wrappers
  import opened DeviceSessions

  // ----- what a transaction on one device leaves alone

  ghost predicate DevicesKept(before: map<nat, Device>, after: map<nat, Device>, d: nat) {
    forall k :: k in before && k != d ==> k in after && after[k] == before[k]
  }

  ghost predicate TokensKept(before: map<nat, Token>, after: map<nat, Token>, d: nat) {
    forall t :: t in before && before[t].deviceId != d ==> t in after && after[t] == before[t]
  }

  ghost predicate CredentialsKept(before: map<nat, Credential>, after: map<nat, Credential>, d: nat) {
    forall c :: c in before && before[c].deviceId != d ==> c in after && after[c] == before[c]
  }

  /** Exactly the sessions on the device have ended. */
  ghost predicate SessionsEnded(before: map<nat, Session>, after: map<nat, Session>, d: nat) {
    && after.Keys == before.Keys
    && forall x :: x in before ==>
         after[x] == if before[x].deviceId == Some(d) then before[x].(active := false) else before[x]
  }

  /** Every row of every other device is as it was. */
  ghost predicate OnlyDevice(before: Db, after: Db, d: nat) {
    && DevicesKept(before.devices, after.devices, d) && TokensKept(before.tokens, after.tokens, d)
    && CredentialsKept(before.credentials, after.credentials, d) && after.parent == before.parent
  }

  lemma RevokedSessions(sessions: map<nat, Session>, d: nat)
    ensures SessionsEnded(sessions, RevokeSessions(sessions, d), d)
  {
  }

  lemma RevokedTokens(tokens: map<nat, Token>, d: nat)
    ensures TokensKept(tokens, RevokeTokens(tokens, d), d) && ActiveTokens(RevokeTokens(tokens, d), d) == {}
  {
  }

  lemma NewToken(tokens: map<nat, Token>, d: nat, id: nat)
    requires id !in tokens
    ensures TokensKept(tokens, RevokeTokens(tokens, d)[id := Token(d, true)], d)
  {
  }

  lemma NewCredential(credentials: map<nat, Credential>, d: nat, id: nat, created: Credential)
    requires id !in credentials
    ensures CredentialsKept(credentials, Supersede(credentials[id := created], d, id), d)
    ensures Superseded(credentials, Supersede(credentials[id := created], d, id), d)
    ensures id in Supersede(credentials[id := created], d, id) && Supersede(credentials[id := created], d, id)[id] == created
  {
  }

  /** Whatever was active on the device is superseded now. */
  ghost predicate Superseded(before: map<nat, Credential>, after: map<nat, Credential>, d: nat) {
    forall c :: c in before && before[c].deviceId == d && before[c].status == CACTIVE ==>
      c in after && after[c] == before[c].(status := CSUPERSEDED)
  }

  lemma RevokedCredential(db: Db, d: nat, c: nat)
    requires c in db.credentials && db.credentials[c].deviceId == d
    ensures var after := RevokeCredentialSessions(db.sessions, d, c);
      && after.Keys == db.sessions.Keys
      && (forall x :: x in db.sessions ==> after[x] == EndedIf(db.sessions[x], Names(db.sessions[x], d, c)))
    ensures CredentialsKept(db.credentials, db.credentials[c := db.credentials[c].(status := CREVOKED)], d)
  {
  }

  // ----- what each transaction means for its device

  /** One token, the new one, and no session. */
  ghost predicate Paired(before: Db, after: Db, d: nat, token: nat, at: int) {
    && token !in before.tokens && ActiveTokens(after.tokens, d) == {token}
    && d in before.devices && d in after.devices
    && after.devices[d] == before.devices[d].(mode := DEVICE_TOKEN, pairedAt := Some(at))
    && SessionsEnded(before.sessions, after.sessions, d) && OnlyDevice(before, after, d)
  }

  lemma PairMeans(db: Db, d: nat, allowed: bool, at: int)
    requires AllBound(db) && SessionsSound(db)
    ensures var after := PairDevice(db, d, allowed, at);
      && AllBound(after) && SessionsSound(after)
      && (if && d in db.devices && allowed && db.devices[d].status == ACTIVE
             && (db.devices[d].mode == UNPAIRED || db.devices[d].mode == DEVICE_TOKEN)
          then Paired(db, after, d, db.nextId, at) else after == db)
  {
    hide AllBound, SessionsSound, ActiveTokens, RevokeTokens, RevokeSessions, TokensKept, SessionsEnded;
    StepKeepsBoth(db, Pair(d, allowed, at));
    PairKeepsBound(db, d, allowed, at);
    FreshId(db);
    RevokedSessions(db.sessions, d);
    NewToken(db.tokens, d, db.nextId);
  }

  /** No token and no session. */
  ghost predicate WasReset(before: Db, after: Db, d: nat) {
    && ActiveTokens(after.tokens, d) == {} && d in before.devices && d in after.devices
    && after.devices[d] == before.devices[d].(mode := UNPAIRED, pairedAt := None)
    && SessionsEnded(before.sessions, after.sessions, d) && OnlyDevice(before, after, d)
  }

  lemma ResetMeans(db: Db, d: nat, allowed: bool)
    requires AllBound(db) && SessionsSound(db)
    ensures var after := ResetDevice(db, d, allowed);
      && AllBound(after) && SessionsSound(after)
      && (if d in db.devices && allowed && db.devices[d].status == ACTIVE && db.devices[d].mode == DEVICE_TOKEN
          then WasReset(db, after, d) else after == db)
  {
    hide AllBound, SessionsSound, ActiveTokens, RevokeTokens, RevokeSessions, TokensKept, SessionsEnded;
    StepKeepsBoth(db, Reset(d, allowed));
    RevokedSessions(db.sessions, d);
    RevokedTokens(db.tokens, d);
  }

  /** One active credential, the new one, no token and no session. */
  ghost predicate Enrolled(before: Db, after: Db, d: nat, credential: nat, rpId: nat, at: int) {
    && credential !in before.credentials && ActiveCredentials(after.credentials, d) == {credential}
    && Superseded(before.credentials, after.credentials, d)
    && ActiveTokens(after.tokens, d) == {} && d in before.devices && d in after.devices
    && after.devices[d] == before.devices[d].(mode := WEBAUTHN, pairedAt := Some(at), hasSecret := false)
    && credential in after.credentials
    && after.credentials[credential] == Credential(before.devices[d].tenantId, d, CACTIVE, true, true, false, rpId)
    && SessionsEnded(before.sessions, after.sessions, d) && OnlyDevice(before, after, d)
  }

  lemma EnrolMeans(db: Db, d: nat, purpose: EnrolmentPurpose, allowed: bool, rpId: nat, at: int)
    requires AllBound(db) && SessionsSound(db)
    ensures var after := EnrolDevice(db, d, purpose, allowed, rpId, at);
      && AllBound(after) && SessionsSound(after)
      && (if && d in db.devices && allowed && db.devices[d].status == ACTIVE
             && (db.devices[d].mode == WEBAUTHN <==> purpose == REPAIR) && db.devices[d].mode != DEVICE_TOKEN
          then Enrolled(db, after, d, db.nextId, rpId, at) else after == db)
  {
    hide AllBound, SessionsSound, ActiveTokens, ActiveCredentials, Supersede, RevokeSessions, CredentialsKept, SessionsEnded, Superseded;
    StepKeepsBoth(db, Enrol(d, purpose, allowed, rpId, at));
    EnrolKeepsBound(db, d, purpose, allowed, rpId, at);
    FreshId(db);
    var after := EnrolDevice(db, d, purpose, allowed, rpId, at);
    if d in db.devices && allowed && EnrolmentAllowed(db.devices[d], purpose) {
      RevokedSessions(db.sessions, d);
      NewCredential(db.credentials, d, db.nextId, Credential(db.devices[d].tenantId, d, CACTIVE, true, true, false, rpId));
      TokenlessOutsideTokenMode(after, d);
    }
  }

  lemma TokenlessOutsideTokenMode(db: Db, d: nat)
    requires AllBound(db) && d in db.devices && db.devices[d].mode != DEVICE_TOKEN
    ensures ActiveTokens(db.tokens, d) == {}
  {
    hide ActiveTokens, ActiveCredentials, IdsBelow;
    assert Bound(db, d);
  }

  /** No active credential, and no active session that names the revoked one. */
  ghost predicate CredentialRevoked(before: Db, after: Db, d: nat, c: nat) {
    && ActiveCredentials(after.credentials, d) == {} && after.devices == before.devices && after.tokens == before.tokens
    && c in before.credentials && after.credentials == before.credentials[c := before.credentials[c].(status := CREVOKED)]
    && after.sessions.Keys == before.sessions.Keys
    && (forall x :: x in before.sessions ==> after.sessions[x] == EndedIf(before.sessions[x], Names(before.sessions[x], d, c)))
    && OnlyDevice(before, after, d)
  }

  predicate Names(s: Session, d: nat, c: nat) { s.deviceId == Some(d) && s.credentialId == Some(c) }

  function EndedIf(s: Session, ended: bool): Session { if ended then s.(active := false) else s }

  predicate IsActiveOn(credentials: map<nat, Credential>, d: nat, c: nat) {
    c in credentials && credentials[c].deviceId == d && credentials[c].status == CACTIVE
  }

  lemma RevokeMeans(db: Db, d: nat, c: nat)
    requires AllBound(db) && SessionsSound(db)
    ensures var after := RevokeDeviceCredential(db, d, c);
      && AllBound(after) && SessionsSound(after)
      && (if d in db.devices && IsActiveOn(db.credentials, d, c) then CredentialRevoked(db, after, d, c) else after == db)
  {
    hide AllBound, SessionsSound, ActiveTokens, ActiveCredentials, RevokeCredentialSessions, CredentialsKept;
    StepKeepsBoth(db, DeviceSessions.RevokeCredential(d, c));
    if d in db.devices && IsActiveOn(db.credentials, d, c) {
      OnlyOne(db, d, c);
      RevokeSets(db.credentials, c, d);
      RevokedCredential(db, d, c);
    }
  }

  /** A device has no other active credential beside the one it has. */
  lemma OnlyOne(db: Db, d: nat, c: nat)
    requires AllBound(db) && d in db.devices && IsActiveOn(db.credentials, d, c)
    ensures ActiveCredentials(db.credentials, d) == {c}
  {
    hide IdsBelow, ActiveTokens;
    assert Bound(db, d);
    var ids := ActiveCredentials(db.credentials, d);
    assert c in ids;
    assert |ids - {c}| == |ids| - 1 <= 0;
    assert ids - {c} == {};
  }

  /**
   * The row has the status asked for, a new secret if one was asked for, and falls back to UNPAIRED exactly when a
   * token-bound device is deactivated; rotation and deactivation end its sessions, and deactivation its tokens.
   */
  ghost predicate Updated(before: Db, after: Db, d: nat, status: Option<DeviceStatus>, rotate: bool) {
    && d in before.devices && d in after.devices
    && var row := before.devices[d];
    && after.devices[d].status == (if status.Some? then status.value else row.status)
    && after.devices[d].hasSecret == (row.hasSecret || rotate)
    && (if row.mode == DEVICE_TOKEN && status == Some(INACTIVE)
        then after.devices[d].mode == UNPAIRED && after.devices[d].pairedAt == None
        else after.devices[d].mode == row.mode && after.devices[d].pairedAt == row.pairedAt)
    && after.devices[d].tenantId == row.tenantId && after.devices[d].branchId == row.branchId
    && (if rotate || status == Some(INACTIVE) then SessionsEnded(before.sessions, after.sessions, d)
        else after.sessions == before.sessions)
    && (if status == Some(INACTIVE) then ActiveTokens(after.tokens, d) == {} else after.tokens == before.tokens)
    && after.credentials == before.credentials && OnlyDevice(before, after, d)
  }

  lemma UpdateMeans(db: Db, d: nat, seen: Device, status: Option<DeviceStatus>, rotate: bool)
    requires AllBound(db) && SessionsSound(db)
    ensures var after := UpdateDevice(db, d, seen, status, rotate);
      && AllBound(after) && SessionsSound(after)
      && (if Updatable(db, d, seen, status, rotate) then Updated(db, after, d, status, rotate) else after == db)
  {
    hide AllBound, SessionsSound, ActiveTokens, RevokeTokens, RevokeSessions, TokensKept, SessionsEnded, UpdateRefused,
         Updatable;
    if d in db.devices {
      UpdatableExactly(db, d, seen, status, rotate);
      TokenBoundIsActive(db, d);
    }
    UpdatableNeedsDevice(db, d, seen, status, rotate);
    StepKeepsBoth(db, Update(d, seen, status, rotate));
    UpdateKeepsBound(db, d, seen, status, rotate);
    RevokedSessions(db.sessions, d);
    RevokedTokens(db.tokens, d);
    SameTokensKept(db.tokens, d);
  }

  lemma TokenBoundIsActive(db: Db, d: nat)
    requires AllBound(db) && d in db.devices
    ensures db.devices[d].mode == DEVICE_TOKEN ==> db.devices[d].status == ACTIVE
  {
    hide ActiveTokens, ActiveCredentials, IdsBelow;
    assert Bound(db, d);
  }

  lemma UpdatableNeedsDevice(db: Db, d: nat, seen: Device, status: Option<DeviceStatus>, rotate: bool)
    ensures Updatable(db, d, seen, status, rotate) ==> d in db.devices
  {
  }

  lemma SameTokensKept(tokens: map<nat, Token>, d: nat)
    ensures TokensKept(tokens, tokens, d)
  {
  }

  lemma RefreshMeans(db: Db, sid: nat, user: User, branchActive: bool, unexpired: bool, rpId: Option<nat>)
    requires AllBound(db) && SessionsSound(db)
    ensures var after := RefreshSession(db, sid, user, branchActive, unexpired, rpId);
      AllBound(after) && SessionsSound(after)
  {
    hide AllBound, SessionsSound, RefreshSession;
    StepKeepsBoth(db, Refresh(sid, user, branchActive, unexpired, rpId));
  }

  lemma StepKeepsBoth(db: Db, step: Step)
    requires AllBound(db) && SessionsSound(db)
    ensures AllBound(Apply(db, step)) && SessionsSound(Apply(db, step))
  {
    hide AllBound, SessionsSound, Apply;
    StepKeepsBound(db, step);
    StepKeepsSessions(db, step);
  }

  lemma IssueKeeps(db: Db, deviceId: Option<nat>, credentialId: Option<nat>, purpose: Purpose)
    requires AllBound(db) && SessionsSound(db)
    ensures var after := Issue(db, deviceId, credentialId, purpose);
      && db.nextId !in db.sessions && AllBound(after)
      && (SessionsSound(after) <==> (credentialId.Some? ==>
            deviceId.Some? && IsActiveOn(db.credentials, deviceId.value, credentialId.value)))
  {
    hide Bound, LineageSound;
    FreshId(db);
    var after := Issue(db, deviceId, credentialId, purpose);
    OtherRowsKeepBound(db, after);
    assert after.sessions[db.nextId] == Session(deviceId, credentialId, true, purpose);
    if CredentialLive(after, db.nextId) {
      EndingKeepsSessions(db, after);
    }
  }

  class Store {
    var devices: map<nat, Device>
    var tokens: map<nat, Token>
    var credentials: map<nat, Credential>
    var sessions: map<nat, Session>
    ghost var parent: map<nat, nat>
    var nextId: nat

    ghost function Snapshot(): Db
      reads this
    {
      Db(devices, tokens, credentials, sessions, parent, nextId)
    }

    /** Every device is bound as its mode says, and no active session outlives its credential. */
    ghost predicate Valid()
      reads this
    {
      AllBound(Snapshot()) && SessionsSound(Snapshot())
    }

    constructor ()
      ensures Valid() && Snapshot() == EMPTY
    {
      devices, tokens, credentials, sessions, parent, nextId := map[], map[], map[], map[], map[], 0;
      new;
      LegacyIsSound(EMPTY);
    }

    /** `pairDeviceToken`; the result is the new token's id, or nothing when the device is not available. */
    method PairDeviceToken(d: nat, allowed: bool, at: int) returns (token: Option<nat>)
      requires Valid()
      modifies this
      ensures Valid() && Snapshot() == PairDevice(old(Snapshot()), d, allowed, at)
      ensures token.Some? <==>
        && d in old(devices) && allowed && old(devices)[d].status == ACTIVE
        && (old(devices)[d].mode == UNPAIRED || old(devices)[d].mode == DEVICE_TOKEN)
      ensures token.Some? ==> Paired(old(Snapshot()), Snapshot(), d, token.value, at)
      ensures token.None? ==> Snapshot() == old(Snapshot())
    {
      hide AllBound, SessionsSound, Paired, RevokeTokens, RevokeSessions;
      PairMeans(Snapshot(), d, allowed, at);
      if d !in devices || !allowed || devices[d].status != ACTIVE
         || (devices[d].mode != UNPAIRED && devices[d].mode != DEVICE_TOKEN) {
        return None;
      }
      tokens := RevokeTokens(tokens, d);
      sessions := RevokeSessions(sessions, d);
      devices := devices[d := devices[d].(mode := DEVICE_TOKEN, pairedAt := Some(at))];
      var id := nextId;
      nextId := nextId + 1;
      tokens := tokens[id := Token(d, true)];
      return Some(id);
    }

    /** `resetDeviceToken`: afterwards the device has no active token and no active session. */
    method ResetDeviceToken(d: nat, allowed: bool) returns (ok: bool)
      requires Valid()
      modifies this
      ensures Valid() && Snapshot() == ResetDevice(old(Snapshot()), d, allowed)
      ensures ok <==>
        d in old(devices) && allowed && old(devices)[d].status == ACTIVE && old(devices)[d].mode == DEVICE_TOKEN
      ensures ok ==> WasReset(old(Snapshot()), Snapshot(), d)
      ensures !ok ==> Snapshot() == old(Snapshot())
    {
      hide AllBound, SessionsSound, WasReset, RevokeTokens, RevokeSessions;
      ResetMeans(Snapshot(), d, allowed);
      if d !in devices || !allowed || devices[d].mode != DEVICE_TOKEN || devices[d].status != ACTIVE {
        return false;
      }
      devices := devices[d := devices[d].(mode := UNPAIRED, pairedAt := None)];
      tokens := RevokeTokens(tokens, d);
      sessions := RevokeSessions(sessions, d);
      return true;
    }

    /** `completeDeviceEnrollment`: afterwards the new credential is the only active one and no session is left. */
    method CompleteDeviceEnrollment(d: nat, purpose: EnrolmentPurpose, allowed: bool, rpId: nat, at: int)
      returns (created: Option<nat>)
      requires Valid()
      modifies this
      ensures Valid() && Snapshot() == EnrolDevice(old(Snapshot()), d, purpose, allowed, rpId, at)
      ensures created.Some? <==>
        && d in old(devices) && allowed && old(devices)[d].status == ACTIVE
        && (old(devices)[d].mode == WEBAUTHN <==> purpose == REPAIR) && old(devices)[d].mode != DEVICE_TOKEN
      ensures created.Some? ==> Enrolled(old(Snapshot()), Snapshot(), d, created.value, rpId, at)
      ensures created.None? ==> Snapshot() == old(Snapshot())
    {
      hide AllBound, SessionsSound, Enrolled, Supersede, RevokeSessions;
      EnrolMeans(Snapshot(), d, purpose, allowed, rpId, at);
      if d !in devices || !allowed || !EnrolmentAllowed(devices[d], purpose) {
        return None;
      }
      devices := devices[d := devices[d].(mode := WEBAUTHN, pairedAt := Some(at), hasSecret := false)];
      var id := nextId;
      nextId := nextId + 1;
      credentials := credentials[id := Credential(devices[d].tenantId, d, CACTIVE, true, true, false, rpId)];
      credentials := Supersede(credentials, d, id);
      sessions := RevokeSessions(sessions, d);
      return Some(id);
    }

    /** `revokeDeviceCredential`: afterwards the device has no active credential and no active session names the old one. */
    method RevokeCredential(d: nat, c: nat) returns (ok: bool)
      requires Valid()
      modifies this
      ensures Valid() && Snapshot() == RevokeDeviceCredential(old(Snapshot()), d, c)
      ensures ok <==> d in old(devices) && IsActiveOn(old(credentials), d, c)
      ensures ok ==> CredentialRevoked(old(Snapshot()), Snapshot(), d, c)
      ensures !ok ==> Snapshot() == old(Snapshot())
    {
      hide AllBound, SessionsSound, CredentialRevoked, RevokeCredentialSessions;
      RevokeMeans(Snapshot(), d, c);
      if d !in devices {
        return false;
      }
      if c !in credentials || credentials[c].deviceId != d || credentials[c].status != CACTIVE {
        return false;
      }
      credentials := credentials[c := credentials[c].(status := CREVOKED)];
      sessions := RevokeCredentialSessions(sessions, d, c);
      return true;
    }

    /** The checks of `updateDevice`, in order. */
    method MayUpdate(d: nat, seen: Device, status: Option<DeviceStatus>, rotate: bool) returns (ok: bool)
      ensures ok <==> Updatable(Snapshot(), d, seen, status, rotate)
      ensures ok <==> d in devices && !UpdateRefused(Snapshot(), d, seen, status, rotate)
    {
      if d !in devices {
        return false;
      }
      UpdatableExactly(Snapshot(), d, seen, status, rotate);
      var current := devices[d];
      if (rotate || status.Some?)
         && (current.status != seen.status || current.mode != seen.mode || current.pairedAt != seen.pairedAt) {
        return false;
      }
      if rotate && current.mode != HMAC_LEGACY {
        return false;
      }
      if status == Some(ACTIVE) && !rotate && current.mode == HMAC_LEGACY && !current.hasSecret {
        return false;
      }
      if status == Some(ACTIVE) && !rotate && current.mode == WEBAUTHN
         && !(exists c | c in credentials :: credentials[c].deviceId == d && credentials[c].status == CACTIVE) {
        return false;
      }
      return true;
    }

    /** The transaction of `updateDevice`: what the row says afterwards, and what is left alive on the device. */
    method UpdateDeviceRow(d: nat, seen: Device, status: Option<DeviceStatus>, rotate: bool) returns (ok: bool)
      requires Valid()
      modifies this
      ensures Valid() && Snapshot() == UpdateDevice(old(Snapshot()), d, seen, status, rotate)
      ensures ok <==> Updatable(old(Snapshot()), d, seen, status, rotate)
      ensures ok ==> Updated(old(Snapshot()), Snapshot(), d, status, rotate)
      ensures !ok ==> Snapshot() == old(Snapshot())
    {
      hide AllBound, SessionsSound, Updated, Updatable, UpdateRefused, RevokeTokens, RevokeSessions;
      UpdateMeans(Snapshot(), d, seen, status, rotate);
      ok := MayUpdate(d, seen, status, rotate);
      if !ok {
        return;
      }
      var current := devices[d];
      var updated := current;
      if status.Some? {
        updated := updated.(status := status.value);
      }
      var transition := TokenModeTransition(current, status);
      if transition {
        updated := updated.(mode := UNPAIRED, pairedAt := None);
      }
      if rotate {
        updated := updated.(hasSecret := true);
      }
      devices := devices[d := updated];
      if rotate || status == Some(INACTIVE) || transition {
        if transition || status == Some(INACTIVE) {
          tokens := RevokeTokens(tokens, d);
        }
        sessions := RevokeSessions(sessions, d);
      }
    }

    /**
     * `issueSession`: a fresh active session, all others as they were. The rows stay sound exactly when the credential
     * it names, if any, is an active one of its device.
     */
    method IssueSession(deviceId: Option<nat>, credentialId: Option<nat>, purpose: Purpose) returns (id: nat)
      requires Valid()
      modifies this
      ensures Snapshot() == Issue(old(Snapshot()), deviceId, credentialId, purpose)
      ensures id !in old(sessions) && id in sessions && sessions[id].active
      ensures forall x :: x in old(sessions) ==> x in sessions && sessions[x] == old(sessions)[x]
      ensures Valid() <==> (credentialId.Some? ==>
        deviceId.Some? && IsActiveOn(credentials, deviceId.value, credentialId.value))
    {
      hide AllBound, SessionsSound, IsActiveOn;
      IssueKeeps(Snapshot(), deviceId, credentialId, purpose);
      id := nextId;
      nextId := nextId + 1;
      sessions := sessions[id := Session(deviceId, credentialId, true, purpose)];
    }

    /** The transaction of `refresh`: revoke first, then check the revoked session's device again. */
    method RefreshUserSession(sid: nat, user: User, branchActive: bool, unexpired: bool, rpId: Option<nat>)
      returns (successor: Option<nat>)
      requires Valid()
      modifies this
      ensures Valid() && Snapshot() == RefreshSession(old(Snapshot()), sid, user, branchActive, unexpired, rpId)
      ensures successor.None? ==> Snapshot() == old(Snapshot())
      ensures successor.Some? ==>
        && sid in old(sessions) && old(sessions)[sid].active && successor.value !in old(sessions)
        && sessions == old(sessions)[sid := old(sessions)[sid].(active := false)]
                                    [successor.value := old(sessions)[sid].(purpose := USER)]
    {
      hide AllBound, SessionsSound, Lookup;
      RefreshMeans(Snapshot(), sid, user, branchActive, unexpired, rpId);
      FreshId(Snapshot());
      if sid !in sessions || sessions[sid].purpose == SMOKE || !sessions[sid].active || !unexpired {
        return None;
      }
      var saved := sessions;
      sessions := sessions[sid := sessions[sid].(active := false)];
      var current := sessions[sid];
      EligibilityIgnoresStatus(saved[sid], user, Lookup(devices, current.deviceId), branchActive,
                               Lookup(credentials, current.credentialId), rpId);
      hide SessionDeviceEligible;
      if !user.eligible
         || !SessionDeviceEligible(current, user, Lookup(devices, current.deviceId), branchActive,
                                   Lookup(credentials, current.credentialId), rpId, false) {
        sessions := saved;
        return None;
      }
      var id := nextId;
      nextId := nextId + 1;
      sessions := sessions[id := Session(current.deviceId, current.credentialId, true, USER)];
      parent := parent[id := sid];
      return Some(id);
    }
  }

  /** The check after the revocation sees the same session as the one before it. */
  lemma EligibilityIgnoresStatus(
    s: Session, user: User, device: Option<Device>, branchActive: bool, credential: Option<Credential>, rpId: Option<nat>)
    ensures SessionDeviceEligible(s.(active := false), user, device, branchActive, credential, rpId, false)
         == SessionDeviceEligible(s, user, device, branchActive, credential, rpId, false)
  {
  }
}
