/**
 What every operation on accounts leaves: exactly when it is accepted, what it then makes and changes, and that everything
 else stays as it was.
 */
module AccountCalls {
  import opened Accounts
  import opened Graphs
  import opened Wrappers

  // ---------------------------------------------------------------- who is let in

  /** A session that counts: of the present epoch, not revoked and not over, of an active account that may be here. */
  ghost predicate Counts(s: State, id: Id, now: int) {
    && s.control.initialized && id in s.sessions
    && var session := s.sessions[id];
       && !session.revoked && session.epoch == s.control.epoch && session.phase == AUTHENTICATED
       && now < session.expiresAt && now < session.lastActivity + session.idleMs
       && session.account in s.accounts && s.accounts[session.account].status == ACTIVE
       && (s.control.recovery ==> s.accounts[session.account].recoveryAdmin)
  }

  /** Its holder has proved who it is in the last ten minutes. */
  ghost predicate IsFresh(session: Session, now: int) {
    now <= session.verifiedAt + 600000
  }

  ghost predicate LetsIn(s: State, id: Id, now: int, recent: bool, admin: bool) {
    && Counts(s, id, now) && (recent ==> IsFresh(s.sessions[id], now))
    && (admin ==> s.accounts[s.sessions[id].account].admin)
  }

  /**
   A session is accepted exactly if it counts and meets what is demanded; of a session that counts, the proof of identity
   is asked for first; and what is said of one that does not count never depends on the demands.
   */
  lemma AcceptedExactly(s: State, id: Id, now: int, recent: bool, admin: bool)
    ensures Check(s, id, now, recent, admin) == ACCEPTED <==> LetsIn(s, id, now, recent, admin)
    ensures Check(s, id, now, recent, admin) == REAUTH_REQUIRED <==> Counts(s, id, now) && recent && !IsFresh(s.sessions[id], now)
    ensures Check(s, id, now, recent, admin) == ADMIN_REQUIRED <==>
            LetsIn(s, id, now, recent, false) && admin && !s.accounts[s.sessions[id].account].admin
    ensures !Counts(s, id, now) ==> Check(s, id, now, recent, admin) == Check(s, id, now, false, false)
  {
  }

  /** Why a session does not count, the first reason that applies. */
  lemma RefusedExactly(s: State, id: Id, now: int)
    ensures var verdict, known := Check(s, id, now, false, false), s.control.initialized && id in s.sessions;
      && (verdict == NOT_INITIALIZED <==> !s.control.initialized)
      && (verdict == AUTH_REQUIRED <==> s.control.initialized && id !in s.sessions)
      && (known && (s.sessions[id].revoked || s.sessions[id].epoch != s.control.epoch) ==> verdict == SESSION_REVOKED)
      && (verdict == ACCOUNT_DISABLED <==>
            known && !s.sessions[id].revoked && s.sessions[id].epoch == s.control.epoch && !IsActive(s, s.sessions[id].account))
      && (verdict == SESSION_EXPIRED ==> known && IsExpired(s.sessions[id], now) && IsActive(s, s.sessions[id].account))
      && (verdict == RECOVERY_REQUIRED ==> known && s.control.recovery && !IsExpired(s.sessions[id], now))
  {
  }

  // ---------------------------------------------------------------- what stays, and what is made

  ghost predicate SameBut<V(!new)>(a: map<Id, V>, b: map<Id, V>, ids: set<Id>) {
    forall id :: id !in ids ==> (id in a <==> id in b) && (id in a && id in b ==> a[id] == b[id])
  }

  /** Nothing changes but these accounts, sessions and credentials. */
  ghost predicate ChangesOnly(s: State, r: State, accounts: set<Id>, sessions: set<Id>, credentials: set<Id>) {
    && r.control == s.control && SameBut(s.accounts, r.accounts, accounts)
    && SameBut(s.sessions, r.sessions, sessions) && SameBut(s.credentials, r.credentials, credentials)
  }

  /** Thirty days and seven idle ones if it is to be remembered, twelve hours and two otherwise. */
  ghost predicate IsNewSession(s: State, x: Session, account: Id, device: string, remember: bool, now: int) {
    && x.account == account && x.device == device && x.phase == AUTHENTICATED
    && x.createdAt == now && x.lastActivity == now && x.verifiedAt == now
    && x.expiresAt == now + (if remember then 2592000000 else 43200000)
    && x.idleMs == (if remember then 604800000 else 7200000)
    && x.epoch == s.control.epoch && !x.revoked && x.failedReauth == 0
  }

  ghost predicate SessionsOf(sessions: map<Id, Session>, account: Id, ids: set<Id>) {
    forall id :: id in ids <==> id in sessions && sessions[id].account == account
  }

  /** All of these sessions are revoked, and otherwise as they were. */
  ghost predicate AreRevoked(s: State, r: State, ids: set<Id>) {
    forall id :: id in ids && id in s.sessions ==> id in r.sessions && r.sessions[id] == s.sessions[id].(revoked := true)
  }

  // ---------------------------------------------------------------- sessions

  ghost predicate MayLogIn(s: State, op: Op, id: Id)
    requires op.Login?
  {
    && s.control.initialized && op.admitted && op.correct && id in s.accounts
    && s.accounts[id].login == op.login && s.accounts[id].kind != PROGRAM && s.accounts[id].status == ACTIVE
    && (s.control.recovery ==> s.accounts[id].recoveryAdmin)
  }

  /** What a login makes: a session, and the administrator that had been asked for. */
  ghost predicate HasLoggedIn(s: State, r: State, op: Op, id: Id, now: int)
    requires op.Login? && id in s.accounts
  {
    var a := s.accounts[id];
    && ChangesOnly(s, r, {id}, {op.token}, {}) && id in r.accounts && op.token in r.sessions
    && IsNewSession(s, r.sessions[op.token], id, op.device, op.remember, now)
    && r.accounts[id] == Account(a.login, a.displayName, a.password, a.status, a.admin || a.adminRequested, a.globalConfig,
                                 a.kind, false, a.recoveryAdmin)
  }

  lemma LoginIsExact(s: State, op: Op, now: int, id: Id)
    requires LoginsAreDistinct(s) && op.Login? && op.token !in s.sessions
    ensures var r := Step(s, op, now, now);
      && (MayLogIn(s, op, id) ==> HasLoggedIn(s, r, op, id, now))
      && ((forall x :: !MayLogIn(s, op, x)) ==> r == s)
  {
    var found := FindLogin(s, op.login);
    if MayLogIn(s, op, id) {
      assert IsLoginOf(s.accounts[id], op.login);
    }
    assert found.Some? && !MayLogIn(s, op, found.value) ==> Step(s, op, now, now) == s;
  }

  /** What the calls of a session demand of it. */
  ghost predicate IsAllowed(s: State, op: Op, now: int) {
    match op
    case Logout(session) => LetsIn(s, session, now, false, false)
    case Activity(session) => LetsIn(s, session, now, false, false)
    case RevokeSession(session, _) => LetsIn(s, session, now, false, false)
    case Reauthenticate(session, _, _) => LetsIn(s, session, now, false, false)
    case ChangePassword(session, _, _) => LetsIn(s, session, now, true, false)
    case CreateAccount(session, _, _, _, _) => LetsIn(s, session, now, true, true)
    case RecoverAccount(session, _, _) => LetsIn(s, session, now, true, true)
    case UpdateAccount(session, _, _) => LetsIn(s, session, now, true, true)
    case _ => true
  }

  lemma RefusedCallChangesNothing(s: State, op: Op, now: int, later: int)
    requires !IsAllowed(s, op, now)
    ensures Step(s, op, now, later) == s
  {
    match op
    case Logout(session) => AcceptedExactly(s, session, now, false, false);
    case Activity(session) => AcceptedExactly(s, session, now, false, false);
    case RevokeSession(session, _) => AcceptedExactly(s, session, now, false, false);
    case Reauthenticate(session, _, _) => AcceptedExactly(s, session, now, false, false);
    case ChangePassword(session, _, _) => AcceptedExactly(s, session, now, true, false);
    case CreateAccount(session, _, _, _, _) => AcceptedExactly(s, session, now, true, true);
    case RecoverAccount(session, _, _) => AcceptedExactly(s, session, now, true, true);
    case UpdateAccount(session, _, _) => AcceptedExactly(s, session, now, true, true);
    case _ =>
  }

  lemma LogoutIsExact(s: State, session: Id, now: int, later: int)
    requires LetsIn(s, session, now, false, false)
    ensures var r := Step(s, Logout(session), now, later); ChangesOnly(s, r, {}, {session}, {}) && AreRevoked(s, r, {session})
  {
    AcceptedExactly(s, session, now, false, false);
  }

  lemma ActivityIsExact(s: State, session: Id, now: int, later: int)
    requires LetsIn(s, session, now, false, false)
    ensures var r := Step(s, Activity(session), now, later);
      && ChangesOnly(s, r, {}, {session}, {}) && session in r.sessions
      && r.sessions[session] == s.sessions[session].(lastActivity := later)
  {
    AcceptedExactly(s, session, now, false, false);
  }

  /** The sessions of the caller's account that it means: one, or all but its own. */
  lemma RevocationIsExact(s: State, session: Id, which: RevokeTarget, now: int, later: int, ids: set<Id>)
    requires LetsIn(s, session, now, false, false)
    requires forall id :: id in ids <==>
               id in s.sessions && s.sessions[id].account == s.sessions[session].account
               && match which case OTHERS => id != session case ONE(x) => id == x
    ensures var r := Step(s, RevokeSession(session, which), now, later); ChangesOnly(s, r, {}, ids, {}) && AreRevoked(s, r, ids)
  {
    AcceptedExactly(s, session, now, false, false);
  }

  /** At most ten tries: each is counted, one too many ends the session, and a right one replaces it. */
  lemma VerificationIsExact(s: State, session: Id, correct: bool, token: Id, now: int, later: int)
    requires token !in s.sessions && LetsIn(s, session, now, false, false)
    ensures var r, was := Step(s, Reauthenticate(session, correct, token), now, later), s.sessions[session];
      && ChangesOnly(s, r, {}, {session, token}, {}) && session in r.sessions
      && r.sessions[session] == was.(failedReauth := was.failedReauth + 1,
                                     revoked := (was.failedReauth >= 10 || correct))
      && (token in r.sessions <==> was.failedReauth < 10 && correct)
      && (token in r.sessions ==>
            IsNewSession(s, r.sessions[token], was.account, was.device, was.idleMs > 7200000, later))
  {
    AcceptedExactly(s, session, now, false, false);
  }

  lemma NewPasswordIsExact(s: State, session: Id, record: Secret, token: Id, now: int, later: int, ids: set<Id>)
    requires token !in s.sessions && LetsIn(s, session, now, true, false)
    requires SessionsOf(s.sessions, s.sessions[session].account, ids)
    ensures var r, was := Step(s, ChangePassword(session, record, token), now, later), s.sessions[session];
      && ChangesOnly(s, r, {was.account}, ids + {token}, {}) && AreRevoked(s, r, ids)
      && was.account in r.accounts && r.accounts[was.account] == s.accounts[was.account].(password := Some(record))
      && token in r.sessions && IsNewSession(s, r.sessions[token], was.account, was.device, was.idleMs > 7200000, later)
  {
    AcceptedExactly(s, session, now, true, false);
  }

  // ---------------------------------------------------------------- accounts

  lemma InitializationIsExact(s: State, op: Op, now: int, later: int)
    requires op.Initialize?
    ensures var r := Step(s, op, now, later);
      if s.control.initialized || s.control.recovery then r == s
      else
        && r.control == Control(true, false, s.control.epoch) && r.sessions == s.sessions && r.credentials == s.credentials
        && SameBut(s.accounts, r.accounts, {op.id}) && op.id in r.accounts
        && r.accounts[op.id] == Account(op.login, op.displayName, Some(op.record), ACTIVE, true, false, HUMAN, false, false)
  {
  }

  /** An administrator who has just proved who it is can create an account for a new login, with a day to set its password. */
  lemma CreationIsExact(s: State, op: Op, now: int, later: int)
    requires op.CreateAccount?
    ensures var r := Step(s, op, now, later);
      if LetsIn(s, op.session, now, true, true) && (forall id :: id in s.accounts ==> s.accounts[id].login != op.login) then
        && ChangesOnly(s, r, {op.id}, {}, {op.credential}) && op.id in r.accounts && op.credential in r.credentials
        && r.accounts[op.id] == Account(op.login, op.displayName, None, PENDING, false, false, HUMAN, false, false)
        && r.credentials[op.credential] == Credential(op.id, SET_PASSWORD, later + 86400000, false)
      else r == s
  {
    AcceptedExactly(s, op.session, now, true, true);
  }

  /** The credentials of an account. */
  ghost predicate CredentialsOf(credentials: map<Id, Credential>, account: Id, ids: set<Id>) {
    forall id :: id in ids <==> id in credentials && credentials[id].account == account
  }

  ghost predicate AreSpent(s: State, r: State, ids: set<Id>) {
    forall id :: id in ids && id in s.credentials ==> id in r.credentials && r.credentials[id] == s.credentials[id].(used := true)
  }

  /** A credential is good once, until it expires, for an account that is not disabled. */
  lemma RedemptionIsExact(s: State, credential: Id, record: Secret, now: int, later: int, account: Id, sessions: set<Id>, spent: set<Id>)
    requires SessionsOf(s.sessions, account, sessions) && CredentialsOf(s.credentials, account, spent)
    requires credential in s.credentials ==> s.credentials[credential].account == account
    ensures var r := Step(s, SetPassword(credential, record), now, later);
      if credential in s.credentials && !s.credentials[credential].used && now < s.credentials[credential].expiresAt
         && account in s.accounts && s.accounts[account].status != DISABLED then
        && ChangesOnly(s, r, {account}, sessions, spent) && AreRevoked(s, r, sessions) && AreSpent(s, r, spent)
        && account in r.accounts && r.accounts[account] == s.accounts[account].(password := Some(record), status := ACTIVE)
      else r == s
  {
  }

  /** A recovery of an account gives it a quarter of an hour to set its password. */
  lemma AccountRecoveryIsExact(
      s: State, session: Id, target: Id, credential: Id, now: int, later: int, sessions: set<Id>, spent: set<Id>)
    requires SessionsOf(s.sessions, target, sessions) && CredentialsOf(s.credentials, target, spent) && credential !in s.credentials
    ensures var r := Step(s, RecoverAccount(session, target, credential), now, later);
      if LetsIn(s, session, now, true, true) && target in s.accounts && s.accounts[target].kind == HUMAN then
        && ChangesOnly(s, r, {}, sessions, spent + {credential}) && AreRevoked(s, r, sessions) && AreSpent(s, r, spent)
        && credential in r.credentials && r.credentials[credential] == Credential(target, RECOVERY, later + 900000, false)
      else r == s
  {
    AcceptedExactly(s, session, now, true, true);
  }

  /** Whether the change would take the last effective administrator away. */
  ghost predicate TakesLastAdmin(s: State, target: Id, patch: Patch)
    requires target in s.accounts
  {
    && s.accounts[target].admin && s.accounts[target].status == ACTIVE
    && (patch.status == Some(DISABLED) || patch.admin == Some(false))
    && forall id :: id in s.accounts && id != target ==>
         !(s.accounts[id].admin && s.accounts[id].status == ACTIVE && s.accounts[id].kind == HUMAN)
  }

  ghost predicate IsPatched(a: Account, b: Account, patch: Patch) {
    && b.login == a.login && b.password == a.password && b.kind == a.kind && b.recoveryAdmin == a.recoveryAdmin
    && (if patch.admin.Some? then b.admin == patch.admin.value && !b.adminRequested
        else b.admin == a.admin && b.adminRequested == a.adminRequested)
    && b.status == (match patch.status case Some(x) => x case None => a.status)
    && b.globalConfig == (match patch.globalConfig case Some(x) => x case None => a.globalConfig)
    && b.displayName == (match patch.displayName case Some(x) => x case None => a.displayName)
  }

  lemma ChangeIsExact(s: State, session: Id, target: Id, patch: Patch, now: int, later: int, sessions: set<Id>)
    requires SessionsOf(s.sessions, target, sessions)
    ensures var r := Step(s, UpdateAccount(session, target, patch), now, later);
      if LetsIn(s, session, now, true, true) && target in s.accounts && s.accounts[target].kind == HUMAN
         && (patch.status.Some? ==> patch.status.value != PENDING && s.accounts[target].password.Some?)
         && !TakesLastAdmin(s, target, patch) then
        && ChangesOnly(s, r, {target}, sessions, {}) && target in r.accounts
        && IsPatched(s.accounts[target], r.accounts[target], patch)
        && if patch.status == Some(DISABLED) || patch.admin.Some? then AreRevoked(s, r, sessions) else r.sessions == s.sessions
      else r == s
  {
    AcceptedExactly(s, session, now, true, true);
  }

  // ---------------------------------------------------------------- at the terminal

  lemma MigrationIsExact(s: State, now: int, later: int)
    ensures var r := Step(s, AtTerminal(ConfirmMigration), now, later);
      r == if s.control.initialized then State(Control(true, s.control.recovery, s.control.epoch + 1), s.accounts, s.sessions, s.credentials)
           else s
  {
  }

  ghost predicate NobodyIsTrusted(before: map<Id, Account>, after: map<Id, Account>) {
    after.Keys == before.Keys && forall id :: id in before ==> after[id] == before[id].(recoveryAdmin := false)
  }

  lemma RecoveryIsExact(s: State, now: int, later: int)
    ensures var r := Step(s, AtTerminal(EnterRecovery), now, later);
      && r.control == Control(true, true, s.control.epoch + 1) && r.sessions == s.sessions
      && NobodyIsTrusted(s.accounts, r.accounts)
      && SameBut(s.credentials, r.credentials, s.credentials.Keys) && AreSpent(s, r, s.credentials.Keys)
  {
  }

  /** Only in a recovery: an account that is no program's, or a new one for a new login. */
  ghost predicate MayBeTrusted(s: State, op: Command)
    requires op.TrustRecoveryAdmin?
  {
    && s.control.recovery
    && (op.account.Some? ==> op.account.value in s.accounts && s.accounts[op.account.value].kind != PROGRAM)
    && (op.account.None? ==> forall id :: id in s.accounts ==> s.accounts[id].login != op.login)
  }

  lemma TrustIsExact(s: State, op: Command, now: int, later: int, id: Id, sessions: set<Id>)
    requires op.TrustRecoveryAdmin? && id == (if op.account.Some? then op.account.value else op.id)
    requires SessionsOf(s.sessions, id, sessions)
    ensures var r := Step(s, AtTerminal(op), now, later);
      if MayBeTrusted(s, op) then
        && ChangesOnly(s, r, {id}, sessions, {}) && AreRevoked(s, r, sessions) && id in r.accounts
        && var a := r.accounts[id];
           && a.status == ACTIVE && a.password == Some(op.record) && a.recoveryAdmin && a.admin && !a.adminRequested
           && (if op.account.Some? then a.login == s.accounts[id].login && a.displayName == s.accounts[id].displayName
                                        && a.globalConfig == s.accounts[id].globalConfig && a.kind == s.accounts[id].kind
               else a.login == op.login && a.displayName == op.displayName && !a.globalConfig && a.kind == HUMAN)
      else r == s
  {
  }

  /** A recovery ends once confirmed, with its sources ready and somebody trusted who can get in; nobody is trusted after it. */
  lemma EndOfRecoveryIsExact(s: State, confirmed: bool, sourcesReady: bool, now: int, later: int)
    ensures var r := Step(s, AtTerminal(FinishRecovery(confirmed, sourcesReady)), now, later);
      if s.control.recovery && confirmed && sourcesReady
         && exists id :: id in s.accounts && s.accounts[id].recoveryAdmin && s.accounts[id].admin
                         && s.accounts[id].status == ACTIVE && s.accounts[id].password.Some? then
        && r.control == Control(s.control.initialized, false, s.control.epoch) && r.sessions == s.sessions
        && r.credentials == s.credentials && NobodyIsTrusted(s.accounts, r.accounts)
      else r == s
  {
    assert (exists id :: id in s.accounts && IsTrusted(s.accounts[id])) <==>
        exists id :: id in s.accounts && s.accounts[id].recoveryAdmin && s.accounts[id].admin
                     && s.accounts[id].status == ACTIVE && s.accounts[id].password.Some?;
  }
}
