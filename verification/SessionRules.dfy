/** Who gets a session, said of the rows: logins, refreshes and the guard's idea of an eligible session agree. */
module SessionRules {
  import opened Wrappers
  import opened DeviceSessions

  /** One fresh session was added, and no other row of any table changed. */
  ghost predicate OneSession(before: Db, after: Db, s: Session) {
    && before.nextId !in before.sessions && after.sessions == before.sessions[before.nextId := s]
    && after.devices == before.devices && after.tokens == before.tokens && after.credentials == before.credentials
    && after.parent == before.parent
  }

  // ----- logins

  /** An eligible cashier of the device's own tenant and branch. */
  predicate CashierAt(user: User, device: Device) {
    user.role == CASHIER && user.eligible && user.tenantId == device.tenantId && user.branchId == Some(device.branchId)
  }

  /** The credential is an active one of the device, attested, bound to the platform and to this site. */
  predicate Trustworthy(c: Credential, d: nat, tenantId: nat, rpId: nat) {
    && c.deviceId == d && c.tenantId == tenantId && c.status == CACTIVE
    && c.trusted && c.platform && !c.backup && c.rpId == rpId
  }

  /**
   * A WebAuthn login issues a session exactly when its assertion was verified, for an eligible cashier of the device's
   * tenant and branch, on an active device in WEBAUTHN mode at an active branch, with a trustworthy credential of that
   * device. The session names exactly that device and credential, and nothing else changes; otherwise nothing changes.
   */
  lemma LoginExactly(db: Db, d: nat, c: nat, user: User, branchActive: bool, verified: bool, rpId: nat)
    requires AllBound(db)
    ensures var after := Apply(db, CompleteLogin(d, c, user, branchActive, verified, rpId));
      var entitled := && verified && branchActive && d in db.devices && c in db.credentials
                      && db.devices[d].status == ACTIVE && db.devices[d].mode == WEBAUTHN
                      && CashierAt(user, db.devices[d]) && Trustworthy(db.credentials[c], d, user.tenantId, rpId);
      && (entitled ==> OneSession(db, after, Session(Some(d), Some(c), true, USER)))
      && (!entitled ==> after == db)
  {
    FreshId(db);
    hide AllBound, PairDevice, ResetDevice, EnrolDevice, RevokeDeviceCredential, UpdateDevice, RefreshSession, LoginWithToken;
  }

  /** The same for a login with a device token: an active token of an active device in DEVICE_TOKEN mode. */
  lemma TokenLoginExactly(db: Db, d: nat, t: nat, user: User, branchActive: bool)
    requires AllBound(db)
    ensures var after := Apply(db, TokenLogin(d, t, user, branchActive));
      var entitled := && branchActive && d in db.devices && t in ActiveTokens(db.tokens, d)
                      && db.devices[d].status == ACTIVE && db.devices[d].mode == DEVICE_TOKEN
                      && CashierAt(user, db.devices[d]);
      && (entitled ==> OneSession(db, after, Session(Some(d), None, true, USER)))
      && (!entitled ==> after == db)
  {
    FreshId(db);
    hide AllBound, PairDevice, ResetDevice, EnrolDevice, RevokeDeviceCredential, UpdateDevice, RefreshSession, Login;
  }

  /** A login that names no WebAuthn credential issues one session with the binding it was given. */
  lemma PlainLoginExactly(db: Db, deviceId: Option<nat>, purpose: Purpose)
    requires AllBound(db)
    ensures OneSession(db, Apply(db, PlainLogin(deviceId, purpose)), Session(deviceId, None, true, purpose))
  {
    FreshId(db);
    hide AllBound, PairDevice, ResetDevice, EnrolDevice, RevokeDeviceCredential, UpdateDevice, RefreshSession, Login, LoginWithToken;
  }

  /** Logging out ends exactly that session. */
  lemma LogoutExactly(db: Db, sid: nat)
    ensures var after := Apply(db, Logout(sid));
      && after == db.(sessions := after.sessions) && after.sessions.Keys == db.sessions.Keys
      && (forall x :: x in db.sessions ==>
            after.sessions[x] == if x == sid then db.sessions[x].(active := false) else db.sessions[x])
  {
  }

  // ----- the guard and the refresh

  /** A session that the rows still support, by the kind of device it is on. */
  ghost predicate Supported(db: Db, s: Session, user: User, branchActive: bool, rpId: Option<nat>) {
    if s.deviceId.None? then user.role != CASHIER && s.credentialId.None?
    else
      && s.deviceId.value in db.devices
      && var device := db.devices[s.deviceId.value];
      && device.status == ACTIVE && branchActive && device.tenantId == user.tenantId
      && (user.branchId.None? || user.branchId == Some(device.branchId))
      && match device.mode
         case WEBAUTHN =>
           && user.role == CASHIER && s.credentialId.Some? && s.credentialId.value in db.credentials && rpId.Some?
           && Trustworthy(db.credentials[s.credentialId.value], s.deviceId.value, user.tenantId, rpId.value)
         case UNPAIRED => s.credentialId.None? && user.role != CASHIER
         case _ => s.credentialId.None?
  }

  /** What the rows say of a session, as the guard sees it. */
  predicate GuardAccepts(db: Db, s: Session, user: User, branchActive: bool, rpId: Option<nat>, localTests: bool) {
    SessionDeviceEligible(s, user, Lookup(db.devices, s.deviceId), branchActive, Lookup(db.credentials, s.credentialId),
                          rpId, localTests)
  }

  /** A local test session: a cashier's smoke session on an active, unpaired device of the tenant. */
  ghost predicate LocalTest(db: Db, s: Session, user: User, branchActive: bool) {
    && user.role == CASHIER && s.purpose == SMOKE && s.credentialId.None?
    && s.deviceId.Some? && s.deviceId.value in db.devices
    && var device := db.devices[s.deviceId.value];
    && device.status == ACTIVE && branchActive && device.tenantId == user.tenantId && device.mode == UNPAIRED
    && (user.branchId.None? || user.branchId == Some(device.branchId))
  }

  /** The guard accepts exactly the supported sessions and, where enabled, local test sessions. */
  lemma GuardExactly(db: Db, s: Session, user: User, branchActive: bool, rpId: Option<nat>, localTests: bool)
    ensures GuardAccepts(db, s, user, branchActive, rpId, localTests) <==>
      Supported(db, s, user, branchActive, rpId) || (localTests && LocalTest(db, s, user, branchActive))
  {
  }

  /**
   * A refresh goes through exactly for an active, unexpired user session of an eligible user that the rows still
   * support; then that session ends, one fresh successor with the same device and credential begins, and nothing else changes.
   */
  lemma RefreshExactly(db: Db, sid: nat, user: User, branchActive: bool, unexpired: bool, rpId: Option<nat>)
    requires AllBound(db)
    ensures var after := Apply(db, Refresh(sid, user, branchActive, unexpired, rpId));
      var entitled := && sid in db.sessions && db.sessions[sid].active && unexpired && db.sessions[sid].purpose == USER
                      && user.eligible && Supported(db, db.sessions[sid], user, branchActive, rpId);
      && (!entitled ==> after == db)
      && (entitled ==>
            && db.nextId !in db.sessions
            && after.sessions == db.sessions[sid := db.sessions[sid].(active := false)][db.nextId := db.sessions[sid]]
            && after.parent == db.parent[db.nextId := sid]
            && after.devices == db.devices && after.tokens == db.tokens && after.credentials == db.credentials)
  {
    FreshId(db);
    if sid in db.sessions {
      GuardExactly(db, db.sessions[sid], user, branchActive, rpId, false);
    }
    hide AllBound, SessionDeviceEligible, Lookup, Supported, PairDevice, ResetDevice, EnrolDevice, RevokeDeviceCredential,
         UpdateDevice, Login, LoginWithToken;
  }

  // ----- the operations against each other

  /** The guard accepts the session of every WebAuthn login that went through, and a refresh of it goes through as well. */
  lemma LoginIsHonoured(db: Db, d: nat, c: nat, user: User, branchActive: bool, verified: bool, rpId: nat)
    requires AllBound(db)
    ensures var after := Apply(db, CompleteLogin(d, c, user, branchActive, verified, rpId));
      after != db ==>
        && db.nextId in after.sessions
        && GuardAccepts(after, after.sessions[db.nextId], user, branchActive, Some(rpId), false)
        && Apply(after, Refresh(db.nextId, user, branchActive, true, Some(rpId))) != after
  {
    hide AllBound, Apply;
    var login := CompleteLogin(d, c, user, branchActive, verified, rpId);
    LoginExactly(db, d, c, user, branchActive, verified, rpId);
    var after := Apply(db, login);
    if after != db {
      GuardExactly(after, after.sessions[db.nextId], user, branchActive, Some(rpId), false);
      StepKeepsBound(db, login);
      RefreshExactly(after, db.nextId, user, branchActive, true, Some(rpId));
      RefreshedDiffers(after, db.nextId, user, branchActive, Some(rpId));
    }
  }

  lemma TokenLoginIsHonoured(db: Db, d: nat, t: nat, user: User, branchActive: bool)
    requires AllBound(db)
    ensures var after := Apply(db, TokenLogin(d, t, user, branchActive));
      after != db ==>
        && db.nextId in after.sessions
        && GuardAccepts(after, after.sessions[db.nextId], user, branchActive, None, false)
        && Apply(after, Refresh(db.nextId, user, branchActive, true, None)) != after
  {
    hide AllBound, Apply;
    var login := TokenLogin(d, t, user, branchActive);
    TokenLoginExactly(db, d, t, user, branchActive);
    var after := Apply(db, login);
    if after != db {
      GuardExactly(after, after.sessions[db.nextId], user, branchActive, None, false);
      StepKeepsBound(db, login);
      RefreshExactly(after, db.nextId, user, branchActive, true, None);
      RefreshedDiffers(after, db.nextId, user, branchActive, None);
    }
  }

  lemma RefreshedDiffers(db: Db, sid: nat, user: User, branchActive: bool, rpId: Option<nat>)
    requires AllBound(db) && sid in db.sessions && db.sessions[sid].active && db.sessions[sid].purpose == USER && user.eligible
    requires Supported(db, db.sessions[sid], user, branchActive, rpId)
    ensures Apply(db, Refresh(sid, user, branchActive, true, rpId)) != db
  {
    hide AllBound, Apply, Supported;
    RefreshExactly(db, sid, user, branchActive, true, rpId);
    assert db.nextId in Apply(db, Refresh(sid, user, branchActive, true, rpId)).sessions;
  }

  /** Whoever enrols a device can log in on it: the enrolled credential is one a verified assertion by its cashier can use. */
  lemma EnrolThenLogin(db: Db, d: nat, purpose: EnrolmentPurpose, rpId: nat, at: int, user: User)
    requires AllBound(db) && d in db.devices && db.devices[d].status == ACTIVE
    requires (db.devices[d].mode == WEBAUTHN <==> purpose == REPAIR) && db.devices[d].mode != DEVICE_TOKEN
    requires CashierAt(user, db.devices[d])
    ensures var enrolled := Apply(db, Enrol(d, purpose, true, rpId, at));
      var after := Apply(enrolled, CompleteLogin(d, db.nextId, user, true, true, rpId));
      OneSession(enrolled, after, Session(Some(d), Some(db.nextId), true, USER))
  {
    var step := Enrol(d, purpose, true, rpId, at);
    EnrolledRow(db, d, purpose, rpId, at);
    hide AllBound, Apply;
    StepKeepsBound(db, step);
    LoginExactly(Apply(db, step), d, db.nextId, user, true, true, rpId);
  }

  lemma EnrolledRow(db: Db, d: nat, purpose: EnrolmentPurpose, rpId: nat, at: int)
    requires d in db.devices && db.devices[d].status == ACTIVE
    requires (db.devices[d].mode == WEBAUTHN <==> purpose == REPAIR) && db.devices[d].mode != DEVICE_TOKEN
    ensures var after := Apply(db, Enrol(d, purpose, true, rpId, at));
      && d in after.devices && after.devices[d] == db.devices[d].(mode := WEBAUTHN, pairedAt := Some(at), hasSecret := false)
      && db.nextId in after.credentials && Trustworthy(after.credentials[db.nextId], d, db.devices[d].tenantId, rpId)
  {
    hide RevokeSessions;
  }

  /** Pairing a device hands out a token its cashier can log in with; after a reset no token of the device lets anybody in. */
  lemma PairThenLogin(db: Db, d: nat, at: int, user: User, t: nat)
    requires AllBound(db) && d in db.devices && db.devices[d].status == ACTIVE
    requires db.devices[d].mode == UNPAIRED || db.devices[d].mode == DEVICE_TOKEN
    requires CashierAt(user, db.devices[d])
    ensures var paired := Apply(db, Pair(d, true, at));
      && OneSession(paired, Apply(paired, TokenLogin(d, db.nextId, user, true)), Session(Some(d), None, true, USER))
      && var reset := Apply(paired, Reset(d, true));
      && Apply(reset, TokenLogin(d, t, user, true)) == reset
  {
    PairKeepsBound(db, d, true, at);
    PairedRow(db, d, at);
    hide AllBound, Apply, ActiveTokens;
    var paired := Apply(db, Pair(d, true, at));
    StepKeepsBound(db, Pair(d, true, at));
    TokenLoginExactly(paired, d, db.nextId, user, true);
    ResetRow(paired, d);
    StepKeepsBound(paired, Reset(d, true));
    TokenLoginExactly(Apply(paired, Reset(d, true)), d, t, user, true);
  }

  lemma PairedRow(db: Db, d: nat, at: int)
    requires d in db.devices && Pairable(db.devices[d])
    ensures var after := Apply(db, Pair(d, true, at));
      && after == PairDevice(db, d, true, at)
      && d in after.devices && after.devices[d] == db.devices[d].(mode := DEVICE_TOKEN, pairedAt := Some(at))
  {
    hide RevokeTokens, RevokeSessions;
  }

  lemma ResetRow(db: Db, d: nat)
    requires d in db.devices && db.devices[d].status == ACTIVE && db.devices[d].mode == DEVICE_TOKEN
    ensures var after := Apply(db, Reset(d, true));
      d in after.devices && after.devices[d] == db.devices[d].(mode := UNPAIRED, pairedAt := None)
  {
    hide RevokeTokens, RevokeSessions;
  }

  /** A new device is active, of the tenant and branch that created it, and bound to nothing. */
  lemma CreatedDevice(db: Db, tenantId: nat, branchId: nat)
    requires AllBound(db)
    ensures var after := Apply(db, CreateDevice(tenantId, branchId));
      && db.nextId !in db.devices
      && after == db.(devices := db.devices[db.nextId := after.devices[db.nextId]], nextId := after.nextId)
      && after.devices[db.nextId] == Device(tenantId, branchId, ACTIVE, UNPAIRED, None, false)
  {
    hide Bound;
  }

  /** After a deactivation nobody logs in on the device, by whatever credential or token. */
  lemma DeactivatedIsClosed(db: Db, d: nat, seen: Device, rotate: bool, login: Step)
    requires AllBound(db) && Updatable(db, d, seen, Some(INACTIVE), rotate)
    requires (login.CompleteLogin? || login.TokenLogin?) && login.d == d
    ensures var after := Apply(db, Update(d, seen, Some(INACTIVE), rotate));
      d in after.devices && after.devices[d].status == INACTIVE && Apply(after, login) == after
  {
    UpdatableExactly(db, d, seen, Some(INACTIVE), rotate);
    hide UpdateRefused, Updatable, RevokeTokens, RevokeSessions, AllBound;
  }
}
