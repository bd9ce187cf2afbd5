/**
 * Point-of-sale devices, the credentials that bind them, and the sessions issued on them. Every
 * transaction below holds the device row (a FOR UPDATE lock, or a compare-and-set on it), so each is one step.
 */
module DeviceSessions {
  import opened Wrappers

  // ----- rows

  datatype DeviceStatus = ACTIVE | INACTIVE

  datatype BindingMode = UNPAIRED | HMAC_LEGACY | WEBAUTHN | DEVICE_TOKEN

  datatype Device = Device(
    tenantId: nat, branchId: nat, status: DeviceStatus, mode: BindingMode, pairedAt: Option<int>, hasSecret: bool)

  datatype Token = Token(deviceId: nat, active: bool)

  datatype CredentialStatus = CPENDING | CACTIVE | CREVOKED | CSUPERSEDED

  datatype Credential = Credential(
    tenantId: nat, deviceId: nat, status: CredentialStatus, platform: bool, trusted: bool, backup: bool, rpId: nat)

  datatype Purpose = USER | SMOKE

  datatype Session = Session(deviceId: Option<nat>, credentialId: Option<nat>, active: bool, purpose: Purpose)

  datatype Role = CASHIER | SUPERVISOR | ADMIN | SYSTEM

  /** A user as read inside the transaction; `eligible` is `isAuthUserEligible`. */
  datatype User = User(role: Role, tenantId: nat, branchId: Option<nat>, eligible: bool)

  /** All rows; `nextId` stands for fresh ids. `parent` is history: the session each refreshed session replaced. */
  datatype Db = Db(
    devices: map<nat, Device>, tokens: map<nat, Token>, credentials: map<nat, Credential>,
    sessions: map<nat, Session>, parent: map<nat, nat>, nextId: nat)

  const EMPTY := Db(map[], map[], map[], map[], map[], 0)

  // ----- updateMany

  function RevokeTokens(tokens: map<nat, Token>, d: nat): map<nat, Token> {
    map t | t in tokens :: if tokens[t].deviceId == d then tokens[t].(active := false) else tokens[t]
  }

  function RevokeSessions(sessions: map<nat, Session>, d: nat): map<nat, Session> {
    map x | x in sessions :: if sessions[x].deviceId == Some(d) then sessions[x].(active := false) else sessions[x]
  }

  function RevokeCredentialSessions(sessions: map<nat, Session>, d: nat, c: nat): map<nat, Session> {
    map x | x in sessions ::
      if sessions[x].deviceId == Some(d) && sessions[x].credentialId == Some(c) then sessions[x].(active := false)
      else sessions[x]
  }

  function Supersede(credentials: map<nat, Credential>, d: nat, keep: nat): map<nat, Credential> {
    map c | c in credentials ::
      if credentials[c].deviceId == d && credentials[c].status == CACTIVE && c != keep
      then credentials[c].(status := CSUPERSEDED) else credentials[c]
  }

  // ----- eligibility of a session on its device

  /** `isSessionDeviceEligible`. */
  predicate SessionDeviceEligible(
    s: Session, user: User, device: Option<Device>, branchActive: bool, credential: Option<Credential>,
    expectedRpId: Option<nat>, allowLocalCashierTestSession: bool)
  {
    var isCashier := user.role == CASHIER;
    if s.deviceId.None? then !isCashier && s.credentialId.None?
    else if device.None? || device.value.tenantId != user.tenantId || device.value.status != ACTIVE || !branchActive then false
    else if user.branchId.Some? && user.branchId.value != device.value.branchId then false
    else if isCashier && s.purpose == SMOKE && allowLocalCashierTestSession
            && device.value.mode == UNPAIRED && s.credentialId.None? then true
    else if device.value.mode == WEBAUTHN then
      && isCashier && s.credentialId.Some? && credential.Some?
      && credential.value.tenantId == user.tenantId && Some(credential.value.deviceId) == s.deviceId
      && credential.value.status == CACTIVE && credential.value.trusted && credential.value.platform
      && !credential.value.backup
      && expectedRpId == Some(credential.value.rpId)
    else if s.credentialId.Some? then false
    else if isCashier then device.value.mode == HMAC_LEGACY || device.value.mode == DEVICE_TOKEN
    else true
  }

  // ----- transactions

  datatype EnrolmentPurpose = PAIRING | REPAIR

  /** `allowed` and `branchActive` stand for the scope, branch, tenant and actor checks made in the same transaction. */
  datatype Step =
    | CreateDevice(tenantId: nat, branchId: nat)
    | Pair(d: nat, allowed: bool, at: int)
    | Reset(d: nat, allowed: bool)
    | Enrol(d: nat, purpose: EnrolmentPurpose, allowed: bool, rpId: nat, at: int)
    | RevokeCredential(d: nat, c: nat)
    | Update(d: nat, seen: Device, status: Option<DeviceStatus>, rotate: bool)
    | CompleteLogin(d: nat, c: nat, user: User, branchActive: bool, verified: bool, rpId: nat)
    | TokenLogin(d: nat, t: nat, user: User, branchActive: bool)
    | PlainLogin(deviceId: Option<nat>, sessionPurpose: Purpose)
    | Refresh(sid: nat, user: User, branchActive: bool, unexpired: bool, expectedRpId: Option<nat>)
    | Logout(sid: nat)

  predicate Pairable(device: Device) {
    device.status == ACTIVE && (device.mode == UNPAIRED || device.mode == DEVICE_TOKEN)
  }

  /** `pairDeviceToken`. */
  function PairDevice(db: Db, d: nat, allowed: bool, at: int): Db {
    if d !in db.devices || !allowed || !Pairable(db.devices[d]) then db
    else db.(
      tokens := RevokeTokens(db.tokens, d)[db.nextId := Token(d, true)],
      sessions := RevokeSessions(db.sessions, d),
      devices := db.devices[d := db.devices[d].(mode := DEVICE_TOKEN, pairedAt := Some(at))],
      nextId := db.nextId + 1)
  }

  /** `resetDeviceToken`. */
  function ResetDevice(db: Db, d: nat, allowed: bool): Db {
    if d !in db.devices || !allowed || db.devices[d].status != ACTIVE || db.devices[d].mode != DEVICE_TOKEN then db
    else db.(
      devices := db.devices[d := db.devices[d].(mode := UNPAIRED, pairedAt := None)],
      tokens := RevokeTokens(db.tokens, d),
      sessions := RevokeSessions(db.sessions, d))
  }

  predicate EnrolmentAllowed(device: Device, purpose: EnrolmentPurpose) {
    && device.status == ACTIVE
    && (purpose == PAIRING ==> device.mode != WEBAUTHN && device.mode != DEVICE_TOKEN)
    && (purpose == REPAIR ==> device.mode == WEBAUTHN)
  }

  /** The transaction of `completeDeviceEnrollment`. */
  function EnrolDevice(db: Db, d: nat, purpose: EnrolmentPurpose, allowed: bool, rpId: nat, at: int): Db {
    if d !in db.devices || !allowed || !EnrolmentAllowed(db.devices[d], purpose) then db
    else
      var created := Credential(db.devices[d].tenantId, d, CACTIVE, true, true, false, rpId);
      db.(
        devices := db.devices[d := db.devices[d].(mode := WEBAUTHN, pairedAt := Some(at), hasSecret := false)],
        credentials := Supersede(db.credentials[db.nextId := created], d, db.nextId),
        sessions := RevokeSessions(db.sessions, d),
        nextId := db.nextId + 1)
  }

  /** `revokeDeviceCredential`. */
  function RevokeDeviceCredential(db: Db, d: nat, c: nat): Db {
    if d !in db.devices || c !in db.credentials || db.credentials[c].deviceId != d || db.credentials[c].status != CACTIVE
    then db
    else db.(
      credentials := db.credentials[c := db.credentials[c].(status := CREVOKED)],
      sessions := RevokeCredentialSessions(db.sessions, d, c))
  }

  predicate HasActiveCredential(db: Db, d: nat) {
    exists c :: c in db.credentials && db.credentials[c].deviceId == d && db.credentials[c].status == CACTIVE
  }

  predicate TokenModeTransition(device: Device, status: Option<DeviceStatus>) {
    device.mode == DEVICE_TOKEN && status.Some? && status.value != device.status
  }

  /** The branch of `updateDevice` that would bring a token-bound device back to life. */
  predicate TokenReactivation(device: Device, status: Option<DeviceStatus>) {
    TokenModeTransition(device, status) && status == Some(ACTIVE)
  }

  /** The refusals of `updateDevice`. */
  predicate UpdateRefused(db: Db, d: nat, seen: Device, status: Option<DeviceStatus>, rotate: bool)
    requires d in db.devices
  {
    var device := db.devices[d];
    || ((rotate || status.Some?) && (device.status != seen.status || device.mode != seen.mode || device.pairedAt != seen.pairedAt))
    || (rotate && device.mode != HMAC_LEGACY)
    || (status == Some(ACTIVE) && !rotate && device.mode == HMAC_LEGACY && !device.hasSecret)
    || (status == Some(ACTIVE) && !rotate && device.mode == WEBAUTHN && !HasActiveCredential(db, d))
  }

  /**
   * The row is as it was read; only a legacy device rotates its secret; and a device comes to life only with what its
   * binding needs: a legacy secret, or an active WebAuthn credential.
   */
  ghost predicate Updatable(db: Db, d: nat, seen: Device, status: Option<DeviceStatus>, rotate: bool) {
    && d in db.devices
    && var row := db.devices[d];
    && (rotate || status.Some? ==> row == row.(status := seen.status, mode := seen.mode, pairedAt := seen.pairedAt))
    && (rotate ==> row.mode == HMAC_LEGACY)
    && (status == Some(ACTIVE) && !rotate ==>
          (row.mode == HMAC_LEGACY ==> row.hasSecret) && (row.mode == WEBAUTHN ==> ActiveCredentials(db.credentials, d) != {}))
  }

  lemma UpdatableExactly(db: Db, d: nat, seen: Device, status: Option<DeviceStatus>, rotate: bool)
    requires d in db.devices
    ensures Updatable(db, d, seen, status, rotate) <==> !UpdateRefused(db, d, seen, status, rotate)
  {
    if HasActiveCredential(db, d) {
      var c :| c in db.credentials && db.credentials[c].deviceId == d && db.credentials[c].status == CACTIVE;
      assert c in ActiveCredentials(db.credentials, d);
    }
  }

  /** The transaction of `updateDevice`; `seen` is the row read before it. */
  function UpdateDevice(db: Db, d: nat, seen: Device, status: Option<DeviceStatus>, rotate: bool): Db {
    if d !in db.devices || UpdateRefused(db, d, seen, status, rotate) then db
    else
      var device := db.devices[d];
      var transition := TokenModeTransition(device, status);
      var named := if status.Some? then device.(status := status.value) else device;
      var unpaired := if transition then named.(mode := UNPAIRED, pairedAt := None) else named;
      var updated := if rotate then unpaired.(hasSecret := true) else unpaired;
      var revokeSessions := rotate || status == Some(INACTIVE) || transition;
      var revokeTokens := revokeSessions && (transition || status == Some(INACTIVE));
      db.(
        devices := db.devices[d := updated],
        tokens := if revokeTokens then RevokeTokens(db.tokens, d) else db.tokens,
        sessions := if revokeSessions then RevokeSessions(db.sessions, d) else db.sessions)
  }

  function Issue(db: Db, deviceId: Option<nat>, credentialId: Option<nat>, purpose: Purpose): Db {
    db.(sessions := db.sessions[db.nextId := Session(deviceId, credentialId, true, purpose)], nextId := db.nextId + 1)
  }

  /** The transaction of `completeCashierLogin`. */
  function Login(db: Db, d: nat, c: nat, user: User, branchActive: bool, verified: bool, rpId: nat): Db {
    if && d in db.devices && c in db.credentials && verified && branchActive
       && user.role == CASHIER && user.eligible
       && db.devices[d].status == ACTIVE && db.devices[d].mode == WEBAUTHN
       && db.devices[d].tenantId == user.tenantId && user.branchId == Some(db.devices[d].branchId)
       && db.credentials[c].deviceId == d && db.credentials[c].status == CACTIVE
       && db.credentials[c].tenantId == user.tenantId && db.credentials[c].trusted && db.credentials[c].platform
       && !db.credentials[c].backup && db.credentials[c].rpId == rpId
    then Issue(db, Some(d), Some(c), USER)
    else db
  }

  /** The transaction of `loginWithDeviceToken`. */
  function LoginWithToken(db: Db, d: nat, t: nat, user: User, branchActive: bool): Db {
    if && d in db.devices && t in db.tokens && branchActive && user.role == CASHIER && user.eligible
       && db.devices[d].status == ACTIVE && db.devices[d].mode == DEVICE_TOKEN
       && db.devices[d].tenantId == user.tenantId && user.branchId == Some(db.devices[d].branchId)
       && db.tokens[t] == Token(d, true)
    then Issue(db, Some(d), None, USER)
    else db
  }

  function Lookup<T>(rows: map<nat, T>, id: Option<nat>): Option<T> {
    if id.Some? && id.value in rows then Some(rows[id.value]) else None
  }

  /** A session with its successor. */
  function Rotated(db: Db, sid: nat): Db
    requires sid in db.sessions
  {
    var s := db.sessions[sid];
    Issue(db.(sessions := db.sessions[sid := s.(active := false)]), s.deviceId, s.credentialId, USER).(
      parent := db.parent[db.nextId := sid])
  }

  /** The transaction of `refresh`: revoke the session, check it again, issue its successor. */
  function RefreshSession(db: Db, sid: nat, user: User, branchActive: bool, unexpired: bool, rpId: Option<nat>): Db {
    if sid !in db.sessions || !db.sessions[sid].active || !unexpired then db
    else
      var s := db.sessions[sid];
      if !user.eligible || s.purpose == SMOKE
         || !SessionDeviceEligible(s, user, Lookup(db.devices, s.deviceId), branchActive,
                                   Lookup(db.credentials, s.credentialId), rpId, false)
      then db
      else
        Rotated(db, sid)
  }

  function Apply(db: Db, step: Step): Db {
    match step
    case CreateDevice(tenantId, branchId) =>
      db.(devices := db.devices[db.nextId := Device(tenantId, branchId, ACTIVE, UNPAIRED, None, false)], nextId := db.nextId + 1)
    case Pair(d, allowed, at) => PairDevice(db, d, allowed, at)
    case Reset(d, allowed) => ResetDevice(db, d, allowed)
    case Enrol(d, purpose, allowed, rpId, at) => EnrolDevice(db, d, purpose, allowed, rpId, at)
    case RevokeCredential(d, c) => RevokeDeviceCredential(db, d, c)
    case Update(d, seen, status, rotate) => UpdateDevice(db, d, seen, status, rotate)
    case CompleteLogin(d, c, user, branchActive, verified, rpId) => Login(db, d, c, user, branchActive, verified, rpId)
    case TokenLogin(d, t, user, branchActive) => LoginWithToken(db, d, t, user, branchActive)
    case PlainLogin(deviceId, purpose) => Issue(db, deviceId, None, purpose)
    case Refresh(sid, user, branchActive, unexpired, rpId) => RefreshSession(db, sid, user, branchActive, unexpired, rpId)
    case Logout(sid) => if sid in db.sessions then db.(sessions := db.sessions[sid := db.sessions[sid].(active := false)]) else db
  }

  function Run(db: Db, steps: seq<Step>): Db
    decreases steps
  {
    if steps == [] then db else Run(Apply(db, steps[0]), steps[1..])
  }

  // ----- binding

  function ActiveTokens(tokens: map<nat, Token>, d: nat): set<nat> {
    set t | t in tokens && tokens[t].deviceId == d && tokens[t].active
  }

  function ActiveCredentials(credentials: map<nat, Credential>, d: nat): set<nat> {
    set c | c in credentials && credentials[c].deviceId == d && credentials[c].status == CACTIVE
  }

  /**
   * DEVICE_TOKEN mode goes with exactly one active token, any other mode with none; a token-bound
   * device is ACTIVE; active WebAuthn credentials exist in WEBAUTHN mode only, one at most.
   */
  predicate BindingSound(device: Device, tokens: set<nat>, credentials: set<nat>) {
    && (device.mode == DEVICE_TOKEN ==> |tokens| == 1 && device.status == ACTIVE)
    && (device.mode != DEVICE_TOKEN ==> tokens == {})
    && |credentials| <= 1
    && (device.mode != WEBAUTHN ==> credentials == {})
  }

  ghost predicate Bound(db: Db, d: nat)
    requires d in db.devices
  {
    BindingSound(db.devices[d], ActiveTokens(db.tokens, d), ActiveCredentials(db.credentials, d))
  }

  ghost predicate IdsBelow(db: Db) {
    && (forall d :: d in db.devices ==> d < db.nextId)
    && (forall t :: t in db.tokens ==> t < db.nextId && db.tokens[t].deviceId in db.devices)
    && (forall c :: c in db.credentials ==> c < db.nextId && db.credentials[c].deviceId in db.devices)
    && (forall x :: x in db.sessions ==> x < db.nextId)
  }

  ghost predicate AllBound(db: Db) {
    IdsBelow(db) && forall d :: d in db.devices ==> Bound(db, d)
  }

  lemma FreshId(db: Db)
    requires AllBound(db)
    ensures db.nextId !in db.tokens && db.nextId !in db.credentials && db.nextId !in db.sessions
  {
  }

  lemma RevokeTokensSets(tokens: map<nat, Token>, d: nat, k: nat)
    ensures ActiveTokens(RevokeTokens(tokens, d), k) == if k == d then {} else ActiveTokens(tokens, k)
  {
  }

  lemma NewTokenSets(tokens: map<nat, Token>, d: nat, id: nat, k: nat)
    requires id !in tokens
    ensures ActiveTokens(tokens[id := Token(d, true)], k) == ActiveTokens(tokens, k) + if k == d then {id} else {}
  {
  }

  lemma EnrolSets(credentials: map<nat, Credential>, d: nat, id: nat, created: Credential, k: nat)
    requires id !in credentials && created.deviceId == d && created.status == CACTIVE
    ensures ActiveCredentials(Supersede(credentials[id := created], d, id), k)
         == if k == d then {id} else ActiveCredentials(credentials, k)
  {
  }

  lemma RevokeSets(credentials: map<nat, Credential>, c: nat, k: nat)
    requires c in credentials
    ensures ActiveCredentials(credentials[c := credentials[c].(status := CREVOKED)], k) == ActiveCredentials(credentials, k) - {c}
  {
  }

  lemma PairKeepsIds(db: Db, d: nat, allowed: bool, at: int)
    requires IdsBelow(db)
    ensures IdsBelow(PairDevice(db, d, allowed, at))
    ensures db.nextId !in RevokeTokens(db.tokens, d)
  {
  }

  lemma PairKeepsBound(db: Db, d: nat, allowed: bool, at: int)
    requires AllBound(db)
    ensures AllBound(PairDevice(db, d, allowed, at))
    ensures d in db.devices && allowed && Pairable(db.devices[d]) ==>
      ActiveTokens(PairDevice(db, d, allowed, at).tokens, d) == {db.nextId}
  {
    hide ActiveTokens, ActiveCredentials, RevokeTokens, RevokeSessions, IdsBelow;
    PairKeepsIds(db, d, allowed, at);
    RevokeTokensSets(db.tokens, d, d);
    NewTokenSets(RevokeTokens(db.tokens, d), d, db.nextId, d);
    var after := PairDevice(db, d, allowed, at);
    if after != db {
      forall k | k in after.devices ensures Bound(after, k) {
        assert Bound(db, k);
        RevokeTokensSets(db.tokens, d, k);
        NewTokenSets(RevokeTokens(db.tokens, d), d, db.nextId, k);
      }
    }
  }

  lemma ResetKeepsBound(db: Db, d: nat, allowed: bool)
    requires AllBound(db)
    ensures AllBound(ResetDevice(db, d, allowed))
  {
    assert IdsBelow(ResetDevice(db, d, allowed));
    hide ActiveTokens, ActiveCredentials, RevokeTokens, RevokeSessions, IdsBelow;
    var after := ResetDevice(db, d, allowed);
    if after != db {
      forall k | k in after.devices ensures Bound(after, k) {
        assert Bound(db, k);
        RevokeTokensSets(db.tokens, d, k);
      }
    }
  }

  lemma EnrolKeepsIds(db: Db, d: nat, purpose: EnrolmentPurpose, allowed: bool, rpId: nat, at: int)
    requires IdsBelow(db)
    ensures IdsBelow(EnrolDevice(db, d, purpose, allowed, rpId, at))
  {
  }

  lemma EnrolKeepsBound(db: Db, d: nat, purpose: EnrolmentPurpose, allowed: bool, rpId: nat, at: int)
    requires AllBound(db)
    ensures AllBound(EnrolDevice(db, d, purpose, allowed, rpId, at))
    ensures d in db.devices && allowed && EnrolmentAllowed(db.devices[d], purpose) ==>
      ActiveCredentials(EnrolDevice(db, d, purpose, allowed, rpId, at).credentials, d) == {db.nextId}
  {
    EnrolKeepsIds(db, d, purpose, allowed, rpId, at);
    hide ActiveTokens, ActiveCredentials, Supersede, RevokeSessions;
    var after := EnrolDevice(db, d, purpose, allowed, rpId, at);
    if d in db.devices && allowed && EnrolmentAllowed(db.devices[d], purpose) {
      var created := Credential(db.devices[d].tenantId, d, CACTIVE, true, true, false, rpId);
      EnrolSets(db.credentials, d, db.nextId, created, d);
      forall k | k in after.devices ensures Bound(after, k) {
        assert Bound(db, k);
        EnrolSets(db.credentials, d, db.nextId, created, k);
      }
    }
  }

  lemma RevokeKeepsBound(db: Db, d: nat, c: nat)
    requires AllBound(db)
    ensures AllBound(RevokeDeviceCredential(db, d, c))
  {
    hide ActiveTokens, ActiveCredentials, RevokeCredentialSessions, IdsBelow;
    RevokeKeepsIds(db, d, c);
    var after := RevokeDeviceCredential(db, d, c);
    if after != db {
      forall k | k in after.devices ensures Bound(after, k) {
        assert Bound(db, k);
        RevokeSets(db.credentials, c, k);
        SmallerSet(ActiveCredentials(db.credentials, k), c);
      }
    }
  }

  lemma RevokeKeepsIds(db: Db, d: nat, c: nat)
    requires IdsBelow(db)
    ensures IdsBelow(RevokeDeviceCredential(db, d, c))
  {
  }

  lemma SmallerSet(ids: set<nat>, c: nat)
    ensures |ids - {c}| <= |ids|
  {
  }

  /** A token-bound device is ACTIVE, so the only status change it can see is to INACTIVE. */
  lemma UpdateKeepsBound(db: Db, d: nat, seen: Device, status: Option<DeviceStatus>, rotate: bool)
    requires AllBound(db)
    ensures AllBound(UpdateDevice(db, d, seen, status, rotate))
    ensures d in db.devices ==> !TokenReactivation(db.devices[d], status)
  {
    UpdateKeepsIds(db, d, seen, status, rotate);
    hide ActiveTokens, ActiveCredentials, RevokeTokens, RevokeSessions, IdsBelow, UpdateRefused;
    var after := UpdateDevice(db, d, seen, status, rotate);
    if d in db.devices {
      assert Bound(db, d);
    }
    if after != db {
      forall k | k in after.devices ensures Bound(after, k) {
        assert Bound(db, k);
        RevokeTokensSets(db.tokens, d, k);
      }
    }
  }

  lemma UpdateKeepsIds(db: Db, d: nat, seen: Device, status: Option<DeviceStatus>, rotate: bool)
    requires IdsBelow(db)
    ensures IdsBelow(UpdateDevice(db, d, seen, status, rotate))
  {
  }

  lemma CreateKeepsBound(db: Db, step: Step)
    requires AllBound(db) && step.CreateDevice?
    ensures AllBound(Apply(db, step))
  {
  }

  lemma IssueKeepsBound(db: Db, deviceId: Option<nat>, credentialId: Option<nat>, purpose: Purpose)
    requires AllBound(db)
    ensures AllBound(Issue(db, deviceId, credentialId, purpose))
  {
    IdsOfSessions(db);
    hide AllBound;
    OtherRowsKeepBound(db, Issue(db, deviceId, credentialId, purpose));
  }

  lemma RefreshKeepsBound(db: Db, sid: nat, user: User, branchActive: bool, unexpired: bool, rpId: Option<nat>)
    requires AllBound(db)
    ensures AllBound(RefreshSession(db, sid, user, branchActive, unexpired, rpId))
  {
    IdsOfSessions(db);
    hide AllBound, SessionDeviceEligible, Lookup;
    OtherRowsKeepBound(db, RefreshSession(db, sid, user, branchActive, unexpired, rpId));
  }

  lemma LogoutKeepsBound(db: Db, sid: nat)
    requires AllBound(db) && sid in db.sessions
    ensures AllBound(db.(sessions := db.sessions[sid := db.sessions[sid].(active := false)]))
  {
    IdsOfSessions(db);
    hide AllBound;
    OtherRowsKeepBound(db, db.(sessions := db.sessions[sid := db.sessions[sid].(active := false)]));
  }

  /** Steps that only touch sessions. */
  lemma SessionsKeepBound(db: Db, step: Step)
    requires AllBound(db)
    requires step.CompleteLogin? || step.TokenLogin? || step.PlainLogin? || step.Refresh? || step.Logout?
    ensures AllBound(Apply(db, step))
  {
    hide AllBound, Issue, RefreshSession, PairDevice, ResetDevice, EnrolDevice, RevokeDeviceCredential, UpdateDevice;
    match step
    case CompleteLogin(d, c, _, _, _, _) => IssueKeepsBound(db, Some(d), Some(c), USER);
    case TokenLogin(d, _, _, _) => IssueKeepsBound(db, Some(d), None, USER);
    case PlainLogin(deviceId, purpose) => IssueKeepsBound(db, deviceId, None, purpose);
    case Refresh(sid, user, branchActive, unexpired, rpId) => RefreshKeepsBound(db, sid, user, branchActive, unexpired, rpId);
    case Logout(sid) =>
      if sid in db.sessions {
        LogoutKeepsBound(db, sid);
      }
  }

  lemma OtherRowsKeepBound(db: Db, after: Db)
    requires AllBound(db) && db.nextId <= after.nextId
    requires after.devices == db.devices && after.tokens == db.tokens && after.credentials == db.credentials
    requires forall x :: x in after.sessions ==> x < after.nextId
    ensures AllBound(after)
  {
  }

  lemma StepKeepsBound(db: Db, step: Step)
    requires AllBound(db)
    ensures AllBound(Apply(db, step))
  {
    hide AllBound;
    match step
    case CreateDevice(_, _) => CreateKeepsBound(db, step);
    case Pair(d, allowed, at) => PairKeepsBound(db, d, allowed, at);
    case Reset(d, allowed) => ResetKeepsBound(db, d, allowed);
    case Enrol(d, purpose, allowed, rpId, at) => EnrolKeepsBound(db, d, purpose, allowed, rpId, at);
    case RevokeCredential(d, c) => RevokeKeepsBound(db, d, c);
    case Update(d, seen, status, rotate) => UpdateKeepsBound(db, d, seen, status, rotate);
    case _ => SessionsKeepBound(db, step);
  }

  // ----- sessions

  /** An ACTIVE session that names a WebAuthn credential names an ACTIVE one of its own device. */
  ghost predicate CredentialLive(db: Db, x: nat)
    requires x in db.sessions
  {
    db.sessions[x].active && db.sessions[x].credentialId.Some? ==>
      && var c := db.sessions[x].credentialId.value;
      && c in db.credentials && db.credentials[c].status == CACTIVE
      && db.sessions[x].deviceId == Some(db.credentials[c].deviceId)
  }

  /** Every refreshed session replaced an earlier, now inactive one, and no two replaced the same. */
  ghost predicate LineageSound(db: Db) {
    && (forall x :: x in db.parent ==>
          && x in db.sessions && db.parent[x] in db.sessions && db.parent[x] < x
          && !db.sessions[db.parent[x]].active)
    && (forall x, y :: x in db.parent && y in db.parent && db.parent[x] == db.parent[y] ==> x == y)
  }

  ghost predicate SessionsSound(db: Db) {
    && (forall x :: x in db.sessions ==> CredentialLive(db, x))
    && LineageSound(db)
  }

  lemma EnrolKeepsSessions(db: Db, d: nat, purpose: EnrolmentPurpose, allowed: bool, rpId: nat, at: int)
    requires AllBound(db) && SessionsSound(db)
    ensures SessionsSound(EnrolDevice(db, d, purpose, allowed, rpId, at))
  {
    var after := EnrolDevice(db, d, purpose, allowed, rpId, at);
    if after != db {
      forall x | x in after.sessions ensures CredentialLive(after, x) {
        assert CredentialLive(db, x);
      }
    }
  }

  lemma RevokeKeepsSessions(db: Db, d: nat, c: nat)
    requires SessionsSound(db)
    ensures SessionsSound(RevokeDeviceCredential(db, d, c))
  {
  }

  lemma RefreshKeepsSessions(db: Db, sid: nat, user: User, branchActive: bool, unexpired: bool, rpId: Option<nat>)
    requires AllBound(db) && SessionsSound(db)
    ensures SessionsSound(RefreshSession(db, sid, user, branchActive, unexpired, rpId))
  {
    hide AllBound, SessionsSound, SessionDeviceEligible, Lookup;
    FreshId(db);
    IdsOfSessions(db);
    if RefreshSession(db, sid, user, branchActive, unexpired, rpId) != db {
      RotationKeepsSessions(db, sid);
    }
  }

  lemma RotationKeepsSessions(db: Db, sid: nat)
    requires SessionsSound(db) && sid in db.sessions && db.sessions[sid].active
    requires sid < db.nextId && db.nextId !in db.sessions
    ensures SessionsSound(Rotated(db, sid))
  {
    var after := Rotated(db, sid);
    RotationKeepsLineage(db, sid, after);
    hide LineageSound;
    assert CredentialLive(db, sid);
    forall x | x in after.sessions ensures CredentialLive(after, x) {
      if x in db.sessions {
        assert CredentialLive(db, x);
      }
    }
  }

  lemma IdsOfSessions(db: Db)
    requires AllBound(db)
    ensures forall x :: x in db.sessions ==> x < db.nextId
  {
    hide Bound;
  }

  /** A session that was still active has no successor yet, so giving it one keeps lineages simple paths. */
  lemma RotationKeepsLineage(db: Db, sid: nat, after: Db)
    requires LineageSound(db) && sid in db.sessions && db.sessions[sid].active && sid < db.nextId && db.nextId !in db.sessions
    requires after.parent == db.parent[db.nextId := sid] && db.nextId in after.sessions
    requires forall x :: x in db.sessions ==> x in after.sessions
    requires forall x :: x in db.sessions && !db.sessions[x].active ==> !after.sessions[x].active
    requires !after.sessions[sid].active
    ensures LineageSound(after)
  {
  }

  /** Ending sessions and issuing sound ones keeps the sessions sound, as long as credentials and lineage stay. */
  lemma EndingKeepsSessions(db: Db, after: Db)
    requires SessionsSound(db)
    requires after.credentials == db.credentials && after.parent == db.parent
    requires forall x :: x in db.sessions ==>
      x in after.sessions && (after.sessions[x] == db.sessions[x] || after.sessions[x] == db.sessions[x].(active := false))
    requires forall x :: x in after.sessions && x !in db.sessions ==> CredentialLive(after, x)
    ensures SessionsSound(after)
  {
  }

  lemma IssueKeepsSessions(db: Db, deviceId: Option<nat>, credentialId: Option<nat>, purpose: Purpose)
    requires SessionsSound(db) && db.nextId !in db.sessions
    requires credentialId.Some? ==>
      && credentialId.value in db.credentials && db.credentials[credentialId.value].status == CACTIVE
      && deviceId == Some(db.credentials[credentialId.value].deviceId)
    ensures SessionsSound(Issue(db, deviceId, credentialId, purpose))
  {
    hide SessionsSound;
    EndingKeepsSessions(db, Issue(db, deviceId, credentialId, purpose));
  }

  /** Ending the sessions of a device, whatever else happens to devices and tokens. */
  lemma RevokingKeepsSessions(db: Db, after: Db, d: nat)
    requires SessionsSound(db) && after.credentials == db.credentials && after.parent == db.parent
    requires after.sessions == RevokeSessions(db.sessions, d) || after.sessions == db.sessions
    ensures SessionsSound(after)
  {
    hide SessionsSound;
    EndingKeepsSessions(db, after);
  }

  lemma DeviceStepKeepsSessions(db: Db, step: Step)
    requires SessionsSound(db) && (step.CreateDevice? || step.Pair? || step.Reset? || step.Update?)
    ensures SessionsSound(Apply(db, step))
  {
    hide SessionsSound, RevokeSessions, RevokeTokens, UpdateRefused, Pairable, RefreshSession, EnrolDevice,
         RevokeDeviceCredential, Login, LoginWithToken;
    RevokingKeepsSessions(db, Apply(db, step), if step.CreateDevice? then 0 else step.d);
  }

  lemma LoginKeepsSessions(db: Db, step: Step)
    requires SessionsSound(db) && db.nextId !in db.sessions
    requires step.CompleteLogin? || step.TokenLogin? || step.PlainLogin?
    ensures SessionsSound(Apply(db, step))
  {
    hide SessionsSound, Issue, RefreshSession, EnrolDevice, RevokeDeviceCredential, PairDevice, ResetDevice, UpdateDevice;
    match step
    case CompleteLogin(d, c, user, branchActive, verified, rpId) =>
      if Login(db, d, c, user, branchActive, verified, rpId) != db {
        IssueKeepsSessions(db, Some(d), Some(c), USER);
      }
    case TokenLogin(d, t, user, branchActive) => IssueKeepsSessions(db, Some(d), None, USER);
    case PlainLogin(deviceId, purpose) => IssueKeepsSessions(db, deviceId, None, purpose);
  }

  lemma LogoutKeepsSessions(db: Db, sid: nat)
    requires SessionsSound(db) && sid in db.sessions
    ensures SessionsSound(db.(sessions := db.sessions[sid := db.sessions[sid].(active := false)]))
  {
    hide SessionsSound;
    EndingKeepsSessions(db, db.(sessions := db.sessions[sid := db.sessions[sid].(active := false)]));
  }

  lemma StepKeepsSessions(db: Db, step: Step)
    requires AllBound(db) && SessionsSound(db)
    ensures SessionsSound(Apply(db, step))
  {
    hide AllBound, SessionsSound, RefreshSession, EnrolDevice, RevokeDeviceCredential, PairDevice, ResetDevice,
         UpdateDevice, Login, LoginWithToken, Issue;
    FreshId(db);
    match step
    case Enrol(d, purpose, allowed, rpId, at) => EnrolKeepsSessions(db, d, purpose, allowed, rpId, at);
    case RevokeCredential(d, c) => RevokeKeepsSessions(db, d, c);
    case Refresh(sid, user, branchActive, unexpired, rpId) => RefreshKeepsSessions(db, sid, user, branchActive, unexpired, rpId);
    case CompleteLogin(_, _, _, _, _, _) => LoginKeepsSessions(db, step);
    case TokenLogin(_, _, _, _) => LoginKeepsSessions(db, step);
    case PlainLogin(_, _) => LoginKeepsSessions(db, step);
    case Logout(sid) =>
      if sid in db.sessions {
        LogoutKeepsSessions(db, sid);
      }
    case _ => DeviceStepKeepsSessions(db, step);
  }

  // ----- runs

  lemma {:induction false} RunKeeps(db: Db, steps: seq<Step>)
    requires AllBound(db) && SessionsSound(db)
    ensures AllBound(Run(db, steps)) && SessionsSound(Run(db, steps))
    decreases steps
  {
    hide AllBound, SessionsSound, Apply;
    if steps != [] {
      StepKeepsBound(db, steps[0]);
      StepKeepsSessions(db, steps[0]);
      RunKeeps(Apply(db, steps[0]), steps[1..]);
    }
  }

  /** Rows from before these services: devices with legacy secrets or none, no credentials and no sessions. */
  ghost predicate Legacy(db: Db) {
    && db.tokens == map[] && db.credentials == map[] && db.sessions == map[] && db.parent == map[]
    && forall d :: d in db.devices ==> d < db.nextId && (db.devices[d].mode == UNPAIRED || db.devices[d].mode == HMAC_LEGACY)
  }

  lemma LegacyIsSound(db: Db)
    requires Legacy(db)
    ensures AllBound(db) && SessionsSound(db)
  {
  }

  /** In every reachable state every device is bound as its mode says, and no update can reach the token-reactivation branch. */
  lemma DevicesStayBound(start: Db, steps: seq<Step>, d: nat, status: Option<DeviceStatus>)
    requires Legacy(start)
    ensures var db := Run(start, steps);
      d in db.devices ==>
        && (db.devices[d].mode == DEVICE_TOKEN <==> |ActiveTokens(db.tokens, d)| == 1)
        && (db.devices[d].mode != DEVICE_TOKEN <==> ActiveTokens(db.tokens, d) == {})
        && (db.devices[d].mode == DEVICE_TOKEN ==> db.devices[d].status == ACTIVE)
        && |ActiveCredentials(db.credentials, d)| <= 1
        && (ActiveCredentials(db.credentials, d) != {} ==> db.devices[d].mode == WEBAUTHN)
        && !TokenReactivation(db.devices[d], status)
  {
    LegacyIsSound(start);
    RunKeeps(start, steps);
    var db := Run(start, steps);
    if d in db.devices {
      assert Bound(db, d);
    }
  }

  lemma WebAuthnKept(db: Db, step: Step, d: nat)
    requires AllBound(db) && d in db.devices && db.devices[d].mode == WEBAUTHN
    ensures d in Apply(db, step).devices && Apply(db, step).devices[d].mode == WEBAUTHN
  {
  }

  /** WEBAUTHN mode is never left. */
  lemma {:induction false} WebAuthnIsForGood(db: Db, steps: seq<Step>, d: nat)
    requires AllBound(db) && d in db.devices && db.devices[d].mode == WEBAUTHN
    ensures d in Run(db, steps).devices && Run(db, steps).devices[d].mode == WEBAUTHN
    decreases steps
  {
    if steps != [] {
      hide AllBound, Apply;
      WebAuthnKept(db, steps[0], d);
      StepKeepsBound(db, steps[0]);
      WebAuthnIsForGood(Apply(db, steps[0]), steps[1..], d);
    }
  }

  /** The ancestors of a session, nearest first. */
  function Lineage(db: Db, x: nat): seq<nat>
    requires LineageSound(db)
    decreases x
  {
    if x in db.parent then [db.parent[x]] + Lineage(db, db.parent[x]) else []
  }

  lemma {:induction false} LineageDescends(db: Db, x: nat)
    requires LineageSound(db)
    ensures forall i :: 0 <= i < |Lineage(db, x)| ==> Lineage(db, x)[i] < x
    ensures forall i, j :: 0 <= i < j < |Lineage(db, x)| ==> Lineage(db, x)[i] > Lineage(db, x)[j]
    decreases x
  {
    if x in db.parent {
      LineageDescends(db, db.parent[x]);
    }
  }

  /**
   * In every reachable state an active session never outlives its credential, each session was rotated at most once,
   * and following a session back through the ones it replaced never meets the same session twice.
   */
  lemma SessionsStaySound(start: Db, steps: seq<Step>, x: nat)
    requires Legacy(start)
    ensures var db := Run(start, steps);
      && (forall s :: s in db.sessions ==> CredentialLive(db, s))
      && (forall y, z :: y in db.parent && z in db.parent && db.parent[y] == db.parent[z] ==> y == z)
      && LineageSound(db)
      && (forall i, j :: 0 <= i < j < |Lineage(db, x)| ==> Lineage(db, x)[i] != Lineage(db, x)[j])
      && x !in Lineage(db, x)
  {
    LegacyIsSound(start);
    RunKeeps(start, steps);
    LineageDescends(Run(start, steps), x);
  }

  /** A successful refresh hands on exactly the binding of the session it replaces, and revokes that session. */
  lemma RefreshHandsOn(db: Db, sid: nat, user: User, branchActive: bool, unexpired: bool, rpId: Option<nat>)
    requires AllBound(db) && SessionsSound(db)
    ensures var after := RefreshSession(db, sid, user, branchActive, unexpired, rpId);
      after != db ==>
        && sid in db.sessions && db.sessions[sid].active && !after.sessions[sid].active
        && after.sessions[db.nextId] == db.sessions[sid].(active := true, purpose := USER)
        && (forall x :: x in db.sessions && x != sid ==> after.sessions[x] == db.sessions[x])
        && RefreshSession(after, sid, user, branchActive, unexpired, rpId) == after
  {
  }
}
