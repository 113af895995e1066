/**
 Accounts, sessions and one-time credentials: the operations of the account service as steps on its state, each of them
 one transaction.
 */
module Accounts {
  import opened Graphs
  import opened Wrappers

  datatype AccountStatus = ACTIVE | PENDING | DISABLED

  datatype AccountKind = HUMAN | PROGRAM

  datatype Secret = Secret(record: string)

  datatype Account = Account(
    login: string, displayName: string, password: Option<Secret>, status: AccountStatus, admin: bool, globalConfig: bool,
    kind: AccountKind, adminRequested: bool, recoveryAdmin: bool)

  datatype Phase = AUTHENTICATED | OTHER_PHASE

  datatype Session = Session(
    account: Id, phase: Phase, device: string, createdAt: int, lastActivity: int, verifiedAt: int, expiresAt: int, idleMs: int,
    epoch: nat, revoked: bool, failedReauth: nat)

  datatype Purpose = SET_PASSWORD | RECOVERY

  datatype Credential = Credential(account: Id, purpose: Purpose, expiresAt: int, used: bool)

  datatype Control = Control(initialized: bool, recovery: bool, epoch: nat)

  /** Sessions and credentials are kept under the digests of their tokens. */
  datatype State = State(
    control: Control, accounts: map<Id, Account>, sessions: map<Id, Session>, credentials: map<Id, Credential>)

  const HOUR: int := 3600000
  const DAY: int := 24 * HOUR
  const RECENT: int := 600000
  const REAUTH_LIMIT: nat := 10

  /** Before initialization there is nobody. */
  function EmptyState(): State {
    State(Control(false, false, 0), map[], map[], map[])
  }

  // ---------------------------------------------------------------- sessions

  datatype Verdict =
    | ACCEPTED | NOT_INITIALIZED | AUTH_REQUIRED | SESSION_REVOKED | ACCOUNT_DISABLED | SESSION_EXPIRED | RECOVERY_REQUIRED
    | REAUTH_REQUIRED | ADMIN_REQUIRED

  predicate IsActive(s: State, account: Id) {
    account in s.accounts && s.accounts[account].status == ACTIVE
  }

  predicate IsExpired(session: Session, now: int) {
    now >= session.expiresAt || now - session.lastActivity >= session.idleMs
  }

  function Check(s: State, id: Id, now: int, recent: bool, admin: bool): Verdict {
    if !s.control.initialized then NOT_INITIALIZED
    else if id !in s.sessions then AUTH_REQUIRED
    else
      var session := s.sessions[id];
      if session.revoked || session.epoch != s.control.epoch then SESSION_REVOKED
      else if !IsActive(s, session.account) then ACCOUNT_DISABLED
      else if IsExpired(session, now) then SESSION_EXPIRED
      else if s.control.recovery && !s.accounts[session.account].recoveryAdmin then RECOVERY_REQUIRED
      else if session.phase != AUTHENTICATED then SESSION_REVOKED
      else if recent && now - session.verifiedAt > RECENT then REAUTH_REQUIRED
      else if admin && !s.accounts[session.account].admin then ADMIN_REQUIRED
      else ACCEPTED
  }

  function NewSession(s: State, account: Id, now: int, remember: bool, device: string): Session {
    Session(account, AUTHENTICATED, device, now, now, now, now + (if remember then 30 * DAY else 12 * HOUR),
            if remember then 7 * DAY else 2 * HOUR, s.control.epoch, false, 0)
  }

  function Revoked(session: Session): Session {
    session.(revoked := true)
  }

  /** Revokes the sessions that `which` selects. */
  function RevokeWhere(sessions: map<Id, Session>, which: (Id, Session) -> bool): (r: map<Id, Session>)
    ensures r.Keys == sessions.Keys
    ensures forall id :: id in sessions ==> r[id] == if which(id, sessions[id]) then Revoked(sessions[id]) else sessions[id]
  {
    map id | id in sessions :: if which(id, sessions[id]) then Revoked(sessions[id]) else sessions[id]
  }

  function RevokeAccount(sessions: map<Id, Session>, account: Id): map<Id, Session> {
    RevokeWhere(sessions, (id, session: Session) => session.account == account)
  }

  function SpendCredentials(credentials: map<Id, Credential>, account: Id): (r: map<Id, Credential>)
    ensures r.Keys == credentials.Keys
    ensures forall id :: id in credentials ==>
              r[id] == if credentials[id].account == account then credentials[id].(used := true) else credentials[id]
  {
    map id | id in credentials :: if credentials[id].account == account then credentials[id].(used := true) else credentials[id]
  }

  /** The session is revoked, and another one for the same account and device takes its place. */
  function Rotate(s: State, id: Id, now: int, token: Id): State
    requires id in s.sessions
  {
    var session := s.sessions[id];
    s.(sessions := s.sessions[id := Revoked(session)][token :=
        NewSession(s, session.account, now, session.idleMs > 2 * HOUR, session.device)])
  }

  // ---------------------------------------------------------------- operations

  datatype RevokeTarget = OTHERS | ONE(id: Id)

  datatype Patch = Patch(
    status: Option<AccountStatus>, admin: Option<bool>, globalConfig: Option<bool>, displayName: Option<string>)

  /**
   * The calls, with what they get from outside: identifiers and tokens drawn at random, whether a password is the right
   * one for its record, and whether the login limiter lets a login through.
   */
  datatype Op =
    | Initialize(id: Id, login: string, displayName: string, record: Secret)
    | Login(login: string, admitted: bool, correct: bool, remember: bool, device: string, token: Id)
    | Authenticate(session: Id, recent: bool, admin: bool)
    | Logout(session: Id)
    | Activity(session: Id)
    | RevokeSession(session: Id, which: RevokeTarget)
    | Reauthenticate(session: Id, correct: bool, token: Id)
    | ChangePassword(session: Id, record: Secret, token: Id)
    | CreateAccount(session: Id, login: string, displayName: string, id: Id, credential: Id)
    | SetPassword(credential: Id, record: Secret)
    | RecoverAccount(session: Id, target: Id, credential: Id)
    | UpdateAccount(session: Id, target: Id, patch: Patch)
    | AtTerminal(command: Command)

  /** The operations of the deployment's terminal. */
  datatype Command =
    | ConfirmMigration
    | EnterRecovery
    | TrustRecoveryAdmin(account: Option<Id>, id: Id, login: string, displayName: string, record: Secret)
    | FinishRecovery(confirmed: bool, sourcesReady: bool)

  predicate IsAdmin(a: Account) {
    a.admin && a.status == ACTIVE && a.kind == HUMAN
  }

  /** Whether the last effective administrator would be lost. */
  predicate ProtectsLastAdmin(s: State, target: Id, patch: Patch)
    requires target in s.accounts
  {
    var a := s.accounts[target];
    !a.admin || a.status != ACTIVE || !(patch.status == Some(DISABLED) || patch.admin == Some(false))
    || exists id :: id in s.accounts && id != target && IsAdmin(s.accounts[id])
  }

  function Patched(a: Account, patch: Patch): Account {
    a.(admin := if patch.admin.Some? then patch.admin.value else a.admin,
       adminRequested := a.adminRequested && patch.admin.None?,
       status := if patch.status.Some? then patch.status.value else a.status,
       globalConfig := if patch.globalConfig.Some? then patch.globalConfig.value else a.globalConfig,
       displayName := if patch.displayName.Some? then patch.displayName.value else a.displayName)
  }

  predicate IsLoginOf(a: Account, login: string) {
    a.login == login && a.kind != PROGRAM
  }

  function AfterInitialize(s: State, op: Op): State
    requires op.Initialize?
  {
    if s.control.initialized || s.control.recovery then s
    else
      s.(accounts := s.accounts[op.id := Account(
             op.login, op.displayName, Some(op.record), ACTIVE, true, false, HUMAN, false, false)],
         control := s.control.(initialized := true))
  }

  /** `account` is the account that the login finds, if any. */
  function AfterLogin(s: State, op: Op, account: Option<Id>, now: int): State
    requires op.Login? && (account.Some? ==> account.value in s.accounts)
  {
    if !s.control.initialized || !op.admitted || account.None? then s
    else
      var a := s.accounts[account.value];
      if !op.correct || a.status != ACTIVE || (s.control.recovery && !a.recoveryAdmin) then s
      else
        s.(accounts := s.accounts[account.value := a.(admin := a.admin || a.adminRequested, adminRequested := false)],
           sessions := s.sessions[op.token := NewSession(s, account.value, now, op.remember, op.device)])
  }

  /** Whether the holder of `session` means session `id`. */
  predicate IsMeant(id: Id, session: Id, target: RevokeTarget) {
    if target.OTHERS? then id != session else id == target.id
  }

  function AfterRevokeSession(s: State, session: Id, target: RevokeTarget, now: int): State {
    if Check(s, session, now, false, false) != ACCEPTED then s
    else
      var account := s.sessions[session].account;
      s.(sessions := RevokeWhere(s.sessions, (id, other: Session) =>
             other.account == account && IsMeant(id, session, target)))
  }

  function AfterReauthenticate(s: State, session: Id, correct: bool, token: Id, now: int, later: int): State {
    if Check(s, session, now, false, false) != ACCEPTED then s
    else
      var counted := s.sessions[session].(failedReauth := s.sessions[session].failedReauth + 1);
      if counted.failedReauth > REAUTH_LIMIT then s.(sessions := s.sessions[session := Revoked(counted)])
      else
        var t := s.(sessions := s.sessions[session := counted]);
        if !correct then t else Rotate(t, session, later, token)
  }

  function AfterChangePassword(s: State, session: Id, record: Secret, token: Id, now: int, later: int): State {
    if Check(s, session, now, true, false) != ACCEPTED then s
    else
      var account := s.sessions[session].account;
      var t := s.(accounts := s.accounts[account := s.accounts[account].(password := Some(record))],
                  sessions := RevokeAccount(s.sessions, account));
      Rotate(t, session, later, token)
  }

  function AfterCreateAccount(s: State, op: Op, now: int, later: int): State
    requires op.CreateAccount?
  {
    if Check(s, op.session, now, true, true) != ACCEPTED then s
    else if exists id :: id in s.accounts && s.accounts[id].login == op.login then s
    else
      s.(accounts := s.accounts[op.id := Account(
             op.login, op.displayName, None, PENDING, false, false, HUMAN, false, false)],
         credentials := s.credentials[op.credential := Credential(op.id, SET_PASSWORD, later + DAY, false)])
  }

  predicate CredentialAccepted(s: State, credential: Id, now: int) {
    && credential in s.credentials && !s.credentials[credential].used && now < s.credentials[credential].expiresAt
    && s.credentials[credential].account in s.accounts
    && s.accounts[s.credentials[credential].account].status != DISABLED
  }

  function AfterSetPassword(s: State, credential: Id, record: Secret, now: int): State {
    if !CredentialAccepted(s, credential, now) then s
    else
      var account := s.credentials[credential].account;
      s.(accounts := s.accounts[account := s.accounts[account].(password := Some(record), status := ACTIVE)],
         sessions := RevokeAccount(s.sessions, account),
         credentials := SpendCredentials(s.credentials, account))
  }

  function AfterRecoverAccount(s: State, session: Id, target: Id, credential: Id, now: int, later: int): State {
    if Check(s, session, now, true, true) != ACCEPTED || target !in s.accounts || s.accounts[target].kind != HUMAN then s
    else
      s.(sessions := RevokeAccount(s.sessions, target),
         credentials := SpendCredentials(s.credentials, target)[credential := Credential(target, RECOVERY, later + HOUR / 4, false)])
  }

  function AfterUpdateAccount(s: State, session: Id, target: Id, patch: Patch, now: int): State {
    if Check(s, session, now, true, true) != ACCEPTED || target !in s.accounts || s.accounts[target].kind != HUMAN then s
    else if patch.status.Some? && (patch.status.value == PENDING || s.accounts[target].password.None?) then s
    else if !ProtectsLastAdmin(s, target, patch) then s
    else
      s.(accounts := s.accounts[target := Patched(s.accounts[target], patch)],
         sessions := if patch.status == Some(DISABLED) || patch.admin.Some? then RevokeAccount(s.sessions, target) else s.sessions)
  }

  function WithoutRecoveryAdmins(accounts: map<Id, Account>): (r: map<Id, Account>)
    ensures r.Keys == accounts.Keys && forall id :: id in accounts ==> r[id] == accounts[id].(recoveryAdmin := false)
  {
    map id | id in accounts :: accounts[id].(recoveryAdmin := false)
  }

  /** Entered from the terminal, and by every restored archive: nobody gets in any more but whom the terminal trusts. */
  function AfterEnterRecovery(s: State): State {
    s.(control := Control(true, true, s.control.epoch + 1),
       accounts := WithoutRecoveryAdmins(s.accounts),
       credentials := map c | c in s.credentials :: s.credentials[c].(used := true))
  }

  /** Whether the terminal can trust the account that it names, or make one with a login of its own. */
  predicate TrustAccepted(s: State, op: Command)
    requires op.TrustRecoveryAdmin?
  {
    s.control.recovery
    && match op.account
       case Some(id) => id in s.accounts && s.accounts[id].kind != PROGRAM
       case None => forall id :: id in s.accounts ==> s.accounts[id].login != op.login
  }

  function AfterTrustRecoveryAdmin(s: State, op: Command): State
    requires op.TrustRecoveryAdmin?
  {
    if !TrustAccepted(s, op) then s
    else
      var id := if op.account.Some? then op.account.value else op.id;
      var a := if op.account.Some? then s.accounts[id]
               else Account(op.login, op.displayName, None, PENDING, false, false, HUMAN, false, false);
      s.(accounts := s.accounts[id := a.(status := ACTIVE, password := Some(op.record), recoveryAdmin := true, admin := true,
                                          adminRequested := false)],
         sessions := RevokeAccount(s.sessions, id))
  }

  predicate CanFinishRecovery(s: State, confirmed: bool) {
    s.control.recovery && confirmed
    && exists id :: id in s.accounts && IsTrusted(s.accounts[id])
  }

  predicate IsTrusted(a: Account) {
    a.recoveryAdmin && a.admin && a.status == ACTIVE && a.password.Some?
  }

  function AfterRecovery(s: State): State {
    s.(control := s.control.(recovery := false), accounts := WithoutRecoveryAdmins(s.accounts))
  }

  function AfterCommand(s: State, command: Command): State {
    match command
    case ConfirmMigration => if s.control.initialized then s.(control := s.control.(epoch := s.control.epoch + 1)) else s
    case EnterRecovery => AfterEnterRecovery(s)
    case TrustRecoveryAdmin(_, _, _, _, _) => AfterTrustRecoveryAdmin(s, command)
    case FinishRecovery(confirmed, sourcesReady) => if CanFinishRecovery(s, confirmed && sourcesReady) then AfterRecovery(s) else s
  }

  /** The account of a login name that is not a program's. */
  ghost function FindLogin(s: State, login: string): (found: Option<Id>)
    ensures found.Some? ==> found.value in s.accounts && IsLoginOf(s.accounts[found.value], login)
    ensures found.None? ==> forall id :: id in s.accounts ==> !IsLoginOf(s.accounts[id], login)
  {
    if exists id :: id in s.accounts && IsLoginOf(s.accounts[id], login) then
      var id :| id in s.accounts && IsLoginOf(s.accounts[id], login);
      Some(id)
    else None
  }

  /** One transaction, at a time between `now` and `later`. A refused call changes nothing. */
  ghost function Step(s: State, op: Op, now: int, later: int): State {
    match op
    case Initialize(_, _, _, _) => AfterInitialize(s, op)
    case Login(login, _, _, _, _, _) => AfterLogin(s, op, FindLogin(s, login), now)
    case Authenticate(_, _, _) => s
    case Logout(session) =>
      if Check(s, session, now, false, false) != ACCEPTED then s
      else s.(sessions := s.sessions[session := Revoked(s.sessions[session])])
    case Activity(session) =>
      if Check(s, session, now, false, false) != ACCEPTED then s
      else s.(sessions := s.sessions[session := s.sessions[session].(lastActivity := later)])
    case RevokeSession(session, target) => AfterRevokeSession(s, session, target, now)
    case Reauthenticate(session, correct, token) => AfterReauthenticate(s, session, correct, token, now, later)
    case ChangePassword(session, record, token) => AfterChangePassword(s, session, record, token, now, later)
    case CreateAccount(_, _, _, _, _) => AfterCreateAccount(s, op, now, later)
    case SetPassword(credential, record) => AfterSetPassword(s, credential, record, now)
    case RecoverAccount(session, target, credential) => AfterRecoverAccount(s, session, target, credential, now, later)
    case UpdateAccount(session, target, patch) => AfterUpdateAccount(s, session, target, patch, now)
    case AtTerminal(command) => AfterCommand(s, command)
  }

  // ---------------------------------------------------------------- what no run undoes

  /** Revoked, of a past epoch, or expired by `t`, absolutely or from idleness. */
  ghost predicate IsDead(s: State, id: Id, t: int) {
    && id in s.sessions
    && (s.sessions[id].revoked || s.sessions[id].epoch < s.control.epoch || IsExpired(s.sessions[id], t))
  }

  lemma DeadIsNotAccepted(s: State, id: Id, t: int, now: int, recent: bool, admin: bool)
    requires IsDead(s, id, t) && t <= now
    ensures Check(s, id, now, recent, admin) != ACCEPTED
  {
  }

  /** A session that an operation leaves as it was, or revokes, or, if it was accepted, marks as active. */
  ghost predicate SessionCarriesOver(s: State, r: State, id: Id, now: int) {
    && id in s.sessions && id in r.sessions
    && r.sessions[id].account == s.sessions[id].account && r.sessions[id].expiresAt == s.sessions[id].expiresAt
    && r.sessions[id].idleMs == s.sessions[id].idleMs && r.sessions[id].epoch == s.sessions[id].epoch
    && (s.sessions[id].revoked ==> r.sessions[id].revoked) && s.sessions[id].failedReauth <= r.sessions[id].failedReauth
    && (r.sessions[id].lastActivity == s.sessions[id].lastActivity || Check(s, id, now, false, false) == ACCEPTED)
    && s.control.epoch <= r.control.epoch
  }

  /** Tokens and identifiers drawn at random have not been used before. */
  ghost predicate DrawsUnused(s: State, op: Op) {
    match op
    case Initialize(id, _, _, _) => id !in s.accounts
    case Login(_, _, _, _, _, token) => token !in s.sessions
    case Reauthenticate(_, _, token) => token !in s.sessions
    case ChangePassword(_, _, token) => token !in s.sessions
    case CreateAccount(_, _, _, id, credential) => id !in s.accounts && credential !in s.credentials
    case RecoverAccount(_, _, credential) => credential !in s.credentials
    case AtTerminal(command) => command.TrustRecoveryAdmin? ==> command.id !in s.accounts
    case _ => true
  }

  lemma RotationCarriesSessionsOver(s: State, op: Op, now: int, later: int, id: Id)
    requires DrawsUnused(s, op) && id in s.sessions && (op.Reauthenticate? || op.ChangePassword?)
    ensures SessionCarriesOver(s, Step(s, op, now, later), id, now)
  {
  }

  lemma TerminalCarriesSessionsOver(s: State, op: Op, now: int, later: int, id: Id)
    requires id in s.sessions && op.AtTerminal?
    ensures SessionCarriesOver(s, Step(s, op, now, later), id, now)
  {
  }

  lemma OthersCarrySessionsOver(s: State, op: Op, now: int, later: int, id: Id)
    requires DrawsUnused(s, op) && id in s.sessions && !op.Reauthenticate? && !op.ChangePassword? && !op.AtTerminal?
    ensures SessionCarriesOver(s, Step(s, op, now, later), id, now)
  {
  }

  lemma StepCarriesSessionsOver(s: State, op: Op, now: int, later: int, id: Id)
    requires DrawsUnused(s, op) && id in s.sessions
    ensures SessionCarriesOver(s, Step(s, op, now, later), id, now)
  {
    if op.Reauthenticate? || op.ChangePassword? {
      RotationCarriesSessionsOver(s, op, now, later, id);
    } else if op.AtTerminal? {
      TerminalCarriesSessionsOver(s, op, now, later, id);
    } else {
      OthersCarrySessionsOver(s, op, now, later, id);
    }
  }

  lemma StepKeepsDead(s: State, op: Op, now: int, later: int, id: Id, t: int)
    requires DrawsUnused(s, op) && t <= now && IsDead(s, id, t)
    ensures IsDead(Step(s, op, now, later), id, t)
  {
    StepCarriesSessionsOver(s, op, now, later, id);
    DeadIsNotAccepted(s, id, t, now, false, false);
  }

  /** An operation and the time it takes. */
  datatype Timed = Timed(op: Op, now: int, later: int)

  ghost function AfterAll(s: State, run: seq<Timed>): State {
    if run == [] then s
    else
      var last := run[|run| - 1];
      Step(AfterAll(s, run[..|run| - 1]), last.op, last.now, last.later)
  }

  /** The clock does not go back. */
  ghost predicate ClockRuns(start: int, run: seq<Timed>) {
    && (forall k :: 0 <= k < |run| ==> start <= run[k].now <= run[k].later)
    && forall j, k :: 0 <= j < k < |run| ==> run[j].later <= run[k].now
  }

  ghost predicate AllDrawUnused(s: State, run: seq<Timed>) {
    run == [] || (AllDrawUnused(s, run[..|run| - 1]) && DrawsUnused(AfterAll(s, run[..|run| - 1]), run[|run| - 1].op))
  }

  /**
   * A session that is revoked, of a past epoch or expired at some time is never accepted again: not for any call, in any
   * run of operations from then on.
   */
  lemma {:induction false} DeadStaysDead(s: State, id: Id, t: int, run: seq<Timed>, now: int, recent: bool, admin: bool)
    requires IsDead(s, id, t) && ClockRuns(t, run) && AllDrawUnused(s, run) && t <= now
    ensures IsDead(AfterAll(s, run), id, t) && Check(AfterAll(s, run), id, now, recent, admin) != ACCEPTED
  {
    if run != [] {
      var init, last := run[..|run| - 1], run[|run| - 1];
      DeadStaysDead(s, id, t, init, now, recent, admin);
      StepKeepsDead(AfterAll(s, init), last.op, last.now, last.later, id, t);
    }
    DeadIsNotAccepted(AfterAll(s, run), id, t, now, recent, admin);
  }

  // ---------------------------------------------------------------- what every run keeps

  ghost predicate HasAdmin(s: State) {
    exists id :: id in s.accounts && IsAdmin(s.accounts[id])
  }

  ghost predicate LoginsAreDistinct(s: State) {
    forall a, b :: a in s.accounts && b in s.accounts && s.accounts[a].login == s.accounts[b].login ==> a == b
  }

  /** Where there is anybody there is an effective administrator, and outside a recovery there is one once initialized. */
  ghost predicate IsSound(s: State) {
    && LoginsAreDistinct(s)
    && (s.accounts == map[] || HasAdmin(s))
    && ControlHolds(s)
    && forall c :: c in s.credentials ==> s.credentials[c].account in s.accounts
  }

  lemma UpdateKeepsAdmin(s: State, session: Id, target: Id, patch: Patch, now: int, w: Id)
    requires w in s.accounts && IsAdmin(s.accounts[w])
    ensures HasAdmin(AfterUpdateAccount(s, session, target, patch, now))
  {
    var r := AfterUpdateAccount(s, session, target, patch, now);
    if target == w && (patch.status == Some(DISABLED) || patch.admin == Some(false)) {
      if ProtectsLastAdmin(s, w, patch) {
        var other :| other in s.accounts && other != w && IsAdmin(s.accounts[other]);
        assert r.accounts[other] == s.accounts[other];
      } else {
        assert r == s;
      }
    } else {
      assert w in r.accounts && IsAdmin(r.accounts[w]);
    }
  }

  lemma CommandKeepsAdmin(s: State, command: Command, w: Id)
    requires w in s.accounts && IsAdmin(s.accounts[w])
    ensures w in AfterCommand(s, command).accounts && IsAdmin(AfterCommand(s, command).accounts[w])
  {
  }

  lemma OthersKeepAdmin(s: State, op: Op, now: int, later: int, w: Id)
    requires w in s.accounts && IsAdmin(s.accounts[w]) && DrawsUnused(s, op) && !op.UpdateAccount? && !op.AtTerminal?
    ensures w in Step(s, op, now, later).accounts && IsAdmin(Step(s, op, now, later).accounts[w])
  {
  }

  lemma StepKeepsAdmin(s: State, op: Op, now: int, later: int)
    requires HasAdmin(s) && DrawsUnused(s, op)
    ensures HasAdmin(Step(s, op, now, later))
  {
    var w :| w in s.accounts && IsAdmin(s.accounts[w]);
    if op.UpdateAccount? {
      UpdateKeepsAdmin(s, op.session, op.target, op.patch, now, w);
    } else if op.AtTerminal? {
      CommandKeepsAdmin(s, op.command, w);
    } else {
      OthersKeepAdmin(s, op, now, later, w);
    }
  }

  lemma CommandKeepsLogins(s: State, command: Command)
    requires LoginsAreDistinct(s) && (command.TrustRecoveryAdmin? ==> command.id !in s.accounts)
    ensures LoginsAreDistinct(AfterCommand(s, command))
  {
    var r := AfterCommand(s, command);
    if command.TrustRecoveryAdmin? && command.account.None? && TrustAccepted(s, command) {
      assert forall a :: a in s.accounts ==> r.accounts[a].login == s.accounts[a].login != command.login;
    } else {
      assert r.accounts.Keys == s.accounts.Keys && forall a :: a in s.accounts ==> r.accounts[a].login == s.accounts[a].login;
    }
  }

  lemma OthersKeepLogins(s: State, op: Op, now: int, later: int)
    requires IsSound(s) && DrawsUnused(s, op) && !op.AtTerminal?
    ensures LoginsAreDistinct(Step(s, op, now, later))
  {
  }

  lemma StepKeepsLogins(s: State, op: Op, now: int, later: int)
    requires IsSound(s) && DrawsUnused(s, op)
    ensures LoginsAreDistinct(Step(s, op, now, later))
  {
    if op.AtTerminal? {
      CommandKeepsLogins(s, op.command);
    } else {
      OthersKeepLogins(s, op, now, later);
    }
  }

  lemma StepKeepsCredentials(s: State, op: Op, now: int, later: int)
    requires IsSound(s) && DrawsUnused(s, op)
    ensures var r := Step(s, op, now, later); forall c :: c in r.credentials ==> r.credentials[c].account in r.accounts
  {
  }

  /** The first account of an instance: that of its initialization, or the one that the terminal trusts in a recovery. */
  ghost predicate MakesFirstAdmin(s: State, op: Op) {
    || (op.Initialize? && !s.control.initialized && !s.control.recovery)
    || (op.AtTerminal? && op.command.TrustRecoveryAdmin? && op.command.account == None && TrustAccepted(s, op.command))
  }

  lemma StepOnNobody(s: State, op: Op, now: int, later: int)
    requires s.accounts == map[] && DrawsUnused(s, op)
    ensures var r := Step(s, op, now, later);
      if MakesFirstAdmin(s, op) then HasAdmin(r) else r.accounts == map[]
  {
    var r := Step(s, op, now, later);
    if MakesFirstAdmin(s, op) {
      var id := if op.Initialize? then op.id else op.command.id;
      assert id in r.accounts && IsAdmin(r.accounts[id]);
    }
  }

  ghost predicate ControlHolds(s: State) {
    && (s.accounts == map[] ==> s.control.recovery || !s.control.initialized)
    && (!s.control.initialized ==> s.accounts == map[] && !s.control.recovery)
  }

  lemma StepKeepsControl(s: State, op: Op, now: int, later: int)
    requires IsSound(s) && DrawsUnused(s, op)
    ensures ControlHolds(Step(s, op, now, later))
    ensures s.control.initialized ==> Step(s, op, now, later).control.initialized
  {
    if op.AtTerminal? {
      CommandKeepsControl(s, op.command);
    } else {
      OthersKeepControl(s, op, now, later);
    }
  }

  lemma CommandKeepsControl(s: State, command: Command)
    requires ControlHolds(s)
    ensures ControlHolds(AfterCommand(s, command)) && (s.control.initialized ==> AfterCommand(s, command).control.initialized)
  {
    if command.FinishRecovery? && s.accounts == map[] {
      assert !CanFinishRecovery(s, command.confirmed && command.sourcesReady);
    }
  }

  lemma OthersKeepControl(s: State, op: Op, now: int, later: int)
    requires ControlHolds(s) && DrawsUnused(s, op) && !op.AtTerminal?
    requires forall c :: c in s.credentials ==> s.credentials[c].account in s.accounts
    ensures ControlHolds(Step(s, op, now, later)) && (s.control.initialized ==> Step(s, op, now, later).control.initialized)
  {
  }

  lemma StepKeepsSound(s: State, op: Op, now: int, later: int)
    requires IsSound(s) && DrawsUnused(s, op)
    ensures IsSound(Step(s, op, now, later))
    ensures s.control.initialized ==> Step(s, op, now, later).control.initialized
  {
    StepKeepsLogins(s, op, now, later);
    StepKeepsCredentials(s, op, now, later);
    StepKeepsControl(s, op, now, later);
    if s.accounts == map[] {
      StepOnNobody(s, op, now, later);
    } else {
      StepKeepsAdmin(s, op, now, later);
    }
  }

  ghost predicate MakesFirstAdminAt(run: seq<Timed>, k: nat)
    requires k < |run|
  {
    MakesFirstAdmin(AfterAll(EmptyState(), run[..k]), run[k].op)
  }

  /**
   In every run from the empty state there is always an active human administrator once the instance is initialized and
   not in recovery; and in recovery as well, unless nobody was made administrator before it and nobody has been trusted.
   */
  lemma {:induction false} AlwaysAnAdmin(run: seq<Timed>)
    requires AllDrawUnused(EmptyState(), run)
    ensures var s := AfterAll(EmptyState(), run);
      && IsSound(s) && (s.control.initialized && !s.control.recovery ==> HasAdmin(s))
      && (HasAdmin(s) <==> exists k :: 0 <= k < |run| && MakesFirstAdminAt(run, k))
  {
    if run == [] {
      assert AfterAll(EmptyState(), run) == EmptyState();
    } else {
      var init, last := run[..|run| - 1], run[|run| - 1];
      var before := AfterAll(EmptyState(), init);
      AlwaysAnAdmin(init);
      StepKeepsSound(before, last.op, last.now, last.later);
      OneMoreStep(init, last);
      assert run == init + [last];
      if before.accounts == map[] {
        StepOnNobody(before, last.op, last.now, last.later);
      } else {
        StepKeepsAdmin(before, last.op, last.now, last.later);
      }
    }
  }

  lemma OneMoreStep(init: seq<Timed>, last: Timed)
    ensures var run := init + [last];
      (exists k :: 0 <= k < |run| && MakesFirstAdminAt(run, k)) <==>
      (exists k :: 0 <= k < |init| && MakesFirstAdminAt(init, k)) || MakesFirstAdmin(AfterAll(EmptyState(), init), last.op)
  {
    var run := init + [last];
    forall k: nat | k < |init|
      ensures MakesFirstAdminAt(run, k) <==> MakesFirstAdminAt(init, k)
    {
      assert run[..k] == init[..k];
    }
    assert run[..|init|] == init;
    assert MakesFirstAdminAt(run, |init|) <==> MakesFirstAdmin(AfterAll(EmptyState(), init), last.op);
  }

  /** The input: a recovery of an instance that was never initialized leaves it initialized, and nobody in it. */
  lemma RecoveryOfNobody(now: int, later: int)
    ensures var s := Step(EmptyState(), AtTerminal(EnterRecovery), now, later);
      s.control.initialized && s.accounts == map[] && !HasAdmin(s)
  {
  }

  /** Entering a recovery ends every session and spends every credential. */
  lemma RecoveryCutsOffEveryone(s: State, id: Id, credential: Id, now: int, later: int, t: int)
    requires id in s.sessions ==> s.sessions[id].epoch <= s.control.epoch
    ensures var r := Step(s, AtTerminal(EnterRecovery), now, later);
      && (id in s.sessions ==> IsDead(r, id, t)) && (credential in s.credentials ==> IsSpent(r, credential, t))
  {
  }

  /** In a recovery only those get in whom the terminal has trusted since it was entered, and with their new password. */
  lemma OnlyTheTrustedGetIn(s: State, op: Op, now: int, later: int, id: Id)
    requires s.control.recovery && op.Login? && op.token !in s.sessions
    ensures var r := Step(s, op, now, later);
      op.token in r.sessions ==> r.accounts[r.sessions[op.token].account].recoveryAdmin
    ensures Step(s, AtTerminal(EnterRecovery), now, later).accounts.Keys == s.accounts.Keys
    ensures id in s.accounts ==> !Step(s, AtTerminal(EnterRecovery), now, later).accounts[id].recoveryAdmin
  {
  }

  /** The last effective administrator can be neither disabled nor demoted, by anyone. */
  lemma LastAdminStays(s: State, session: Id, target: Id, patch: Patch, now: int)
    requires target in s.accounts && IsAdmin(s.accounts[target])
    requires forall id :: id in s.accounts && IsAdmin(s.accounts[id]) ==> id == target
    ensures IsAdmin(AfterUpdateAccount(s, session, target, patch, now).accounts[target])
    ensures patch.status == Some(DISABLED) || patch.admin == Some(false) ==> AfterUpdateAccount(s, session, target, patch, now) == s
  {
  }

  // ---------------------------------------------------------------- what revokes what

  /** A login that passes every check has made a session that is accepted. */
  lemma LoginIsAccepted(s: State, op: Op, now: int)
    requires op.Login? && op.token !in s.sessions
    ensures var r := Step(s, op, now, now);
      op.token in r.sessions ==> Check(r, op.token, now, true, false) == ACCEPTED
  {
  }

  /** After an accepted change of password, the only session of the account that is not revoked is the new one. */
  lemma ChangePasswordRevokesTheOthers(s: State, session: Id, record: Secret, token: Id, now: int, later: int, id: Id)
    requires Check(s, session, now, true, false) == ACCEPTED && token !in s.sessions
    ensures var r := AfterChangePassword(s, session, record, token, now, later);
      var account := s.sessions[session].account;
      && r.accounts[account].password == Some(record)
      && (id in r.sessions && r.sessions[id].account == account ==> (r.sessions[id].revoked <==> id != token))
      && (id in s.sessions && s.sessions[id].account != account ==> r.sessions[id] == s.sessions[id])
  {
  }

  lemma OnlyNewSessionIsLeft(s: State, session: Id, record: Secret, token: Id, now: int, later: int)
    requires Check(s, session, now, true, false) == ACCEPTED
    ensures var r := AfterChangePassword(s, session, record, token, now, later);
      && token in r.sessions && r.sessions[token].account == s.sessions[session].account
      && forall id :: id in r.sessions && r.sessions[id].account == r.sessions[token].account ==>
           (r.sessions[id].revoked <==> id != token)
  {
  }

  /** The new session is accepted as one whose holder has just proved who it is. */
  lemma ChangedPasswordIsAccepted(s: State, session: Id, record: Secret, token: Id, now: int, later: int)
    requires Check(s, session, now, true, false) == ACCEPTED
    ensures Check(AfterChangePassword(s, session, record, token, now, later), token, later, true, false) == ACCEPTED
  {
  }

  /** A password verified again has a session of its own take the place of the old one, for the same account. */
  lemma VerifiedSessionTakesPlace(s: State, session: Id, correct: bool, token: Id, now: int, later: int)
    requires token !in s.sessions
    ensures var r := AfterReauthenticate(s, session, correct, token, now, later);
      token in r.sessions ==>
        && IsDead(r, session, now) && Check(r, token, later, true, false) == ACCEPTED
        && r.sessions[token].account == s.sessions[session].account && r.sessions[token].failedReauth == 0
  {
  }

  /** Revoking one session ends it if it is the account's own, and otherwise changes nothing. */
  lemma OneIsRevoked(s: State, session: Id, id: Id, now: int)
    requires Check(s, session, now, false, false) == ACCEPTED
    ensures var r := AfterRevokeSession(s, session, ONE(id), now);
      if id in s.sessions && s.sessions[id].account == s.sessions[session].account then IsDead(r, id, now) else r == s
  {
    var r := AfterRevokeSession(s, session, ONE(id), now);
    if id !in s.sessions || s.sessions[id].account != s.sessions[session].account {
      assert r.sessions == s.sessions;
    }
  }

  /** What a revocation leaves: the caller's session alone, or all but one of its account's. */
  lemma MeantAreRevoked(s: State, session: Id, which: RevokeTarget, now: int, account: Id, r: State)
    requires Check(s, session, now, false, false) == ACCEPTED && account == s.sessions[session].account
    requires r == AfterRevokeSession(s, session, which, now)
    ensures which == OTHERS ==> Check(r, session, now, false, false) == ACCEPTED
    ensures forall id :: id in r.sessions && r.sessions[id].account == account && IsMeant(id, session, which) ==> IsDead(r, id, now)
  {
  }

  /** Whether a change of an account goes through. */
  ghost predicate UpdateAccepted(s: State, session: Id, target: Id, patch: Patch, now: int) {
    && Check(s, session, now, true, true) == ACCEPTED && target in s.accounts && s.accounts[target].kind == HUMAN
    && (patch.status.Some? ==> patch.status.value != PENDING && s.accounts[target].password.Some?)
    && ProtectsLastAdmin(s, target, patch)
  }

  lemma UpdateIsExact(s: State, session: Id, target: Id, patch: Patch, now: int)
    ensures var r := AfterUpdateAccount(s, session, target, patch, now);
      if !UpdateAccepted(s, session, target, patch, now) then r == s
      else
        && r.control == s.control && r.credentials == s.credentials
        && r.accounts == s.accounts[target := Patched(s.accounts[target], patch)]
        && r.sessions == if patch.status == Some(DISABLED) || patch.admin.Some? then RevokeAccount(s.sessions, target) else s.sessions
  {
  }

  /** Made to be remembered, or not: how long a session lasts, and how long it may be idle. */
  ghost predicate HasDuration(session: Session, remember: bool) {
    && session.expiresAt == session.createdAt + (if remember then 30 * DAY else 12 * HOUR)
    && session.idleMs == if remember then 7 * DAY else 2 * HOUR
  }

  ghost predicate DurationsHold(s: State) {
    forall id :: id in s.sessions ==> HasDuration(s.sessions[id], true) || HasDuration(s.sessions[id], false)
  }

  lemma StepKeepsDurations(s: State, op: Op, now: int, later: int)
    requires DurationsHold(s)
    ensures DurationsHold(Step(s, op, now, later))
  {
    if op.Reauthenticate? || op.ChangePassword? {
      RotationKeepsDurations(s, op, now, later);
    } else if op.AtTerminal? {
      CommandKeepsDurations(s, op.command);
    } else {
      OthersKeepDurations(s, op, now, later);
    }
  }

  /** In every run from the empty state each session has the times of one of the two kinds, however often rotated. */
  lemma {:induction false} DurationsAreKept(run: seq<Timed>)
    ensures DurationsHold(AfterAll(EmptyState(), run))
  {
    if run != [] {
      var init, last := run[..|run| - 1], run[|run| - 1];
      DurationsAreKept(init);
      StepKeepsDurations(AfterAll(EmptyState(), init), last.op, last.now, last.later);
    }
  }

  lemma RotationKeepsDurations(s: State, op: Op, now: int, later: int)
    requires DurationsHold(s) && (op.Reauthenticate? || op.ChangePassword?)
    ensures DurationsHold(Step(s, op, now, later))
  {
  }

  lemma CommandKeepsDurations(s: State, command: Command)
    requires DurationsHold(s)
    ensures DurationsHold(AfterCommand(s, command))
  {
  }

  lemma OthersKeepDurations(s: State, op: Op, now: int, later: int)
    requires DurationsHold(s) && !op.Reauthenticate? && !op.ChangePassword? && !op.AtTerminal?
    ensures DurationsHold(Step(s, op, now, later))
  {
  }

  /** A new account is not usable before the holder of its credential has set a password. */
  lemma NewAccountIsPending(s: State, op: Op, now: int, later: int)
    requires op.CreateAccount? && op.id !in s.accounts
    ensures var r := AfterCreateAccount(s, op, now, later);
      op.id in r.accounts ==> !IsActive(r, op.id) && !IsAdmin(r.accounts[op.id]) && CredentialAccepted(r, op.credential, later)
  {
  }

  /** A recovery replaces every credential of the account by one, which a disabled account cannot use. */
  lemma RecoveryReplacesCredentials(s: State, session: Id, target: Id, credential: Id, now: int, later: int, other: Id, t: int)
    requires Check(s, session, now, true, true) == ACCEPTED && target in s.accounts && s.accounts[target].kind == HUMAN
    ensures var r := AfterRecoverAccount(s, session, target, credential, now, later);
      && (CredentialAccepted(r, credential, later) <==> s.accounts[target].status != DISABLED)
      && (other in s.credentials && other != credential && s.credentials[other].account == target ==> IsSpent(r, other, t))
  {
  }

  /** A password set, a recovery and a disabling leave no session of the account usable. */
  lemma AccountIsCutOff(s: State, op: Op, now: int, later: int, account: Id, id: Id, t: int)
    requires IsSound(s) && DrawsUnused(s, op) && account in s.accounts && Step(s, op, now, later) != s
    requires || (op.SetPassword? && op.credential in s.credentials && s.credentials[op.credential].account == account)
             || (op.RecoverAccount? && op.target == account)
             || (op.UpdateAccount? && op.target == account && (op.patch.status == Some(DISABLED) || op.patch.admin.Some?))
    ensures var r := Step(s, op, now, later);
      id in r.sessions && r.sessions[id].account == account ==> r.sessions[id].revoked && IsDead(r, id, t)
  {
  }

  ghost predicate IsSpent(s: State, credential: Id, t: int) {
    credential in s.credentials && (s.credentials[credential].used || t >= s.credentials[credential].expiresAt)
  }

  /** A credential that has been used, replaced or has expired is never accepted again. */
  lemma {:induction false} SpentStaysSpent(s: State, credential: Id, t: int, run: seq<Timed>, now: int)
    requires IsSpent(s, credential, t) && ClockRuns(t, run) && AllDrawUnused(s, run) && t <= now
    ensures IsSpent(AfterAll(s, run), credential, t) && !CredentialAccepted(AfterAll(s, run), credential, now)
  {
    if run != [] {
      var init, last := run[..|run| - 1], run[|run| - 1];
      SpentStaysSpent(s, credential, t, init, now);
      StepKeepsSpent(AfterAll(s, init), last.op, last.now, last.later, credential, t);
    }
  }

  lemma StepKeepsSpent(s: State, op: Op, now: int, later: int, credential: Id, t: int)
    requires DrawsUnused(s, op) && IsSpent(s, credential, t)
    ensures IsSpent(Step(s, op, now, later), credential, t)
  {
  }

  // ---------------------------------------------------------------- passwords tried to verify an identity again

  /** Whether the operation has a password checked on behalf of session `id`. */
  ghost predicate ChecksPassword(s: State, op: Op, now: int, id: Id) {
    && op.Reauthenticate? && op.session == id && Check(s, id, now, false, false) == ACCEPTED
    && s.sessions[id].failedReauth < REAUTH_LIMIT
  }

  ghost function CountChecks(s: State, run: seq<Timed>, id: Id): nat {
    if run == [] then 0
    else
      var init, last := run[..|run| - 1], run[|run| - 1];
      CountChecks(s, init, id) + if ChecksPassword(AfterAll(s, init), last.op, last.now, id) then 1 else 0
  }

  /** One session can try at most ten passwords, in any run. */
  lemma {:induction false} TriesAreBounded(s: State, run: seq<Timed>, id: Id)
    requires id in s.sessions && AllDrawUnused(s, run)
    ensures id in AfterAll(s, run).sessions
    ensures CountChecks(s, run, id) + s.sessions[id].failedReauth <= AfterAll(s, run).sessions[id].failedReauth
    ensures CountChecks(s, run, id) <= REAUTH_LIMIT
  {
    if run != [] {
      var init, last := run[..|run| - 1], run[|run| - 1];
      TriesAreBounded(s, init, id);
      StepCarriesSessionsOver(AfterAll(s, init), last.op, last.now, last.later, id);
      if ChecksPassword(AfterAll(s, init), last.op, last.now, id) {
        CheckIsCounted(AfterAll(s, init), last.op, last.now, last.later, id);
      }
    }
  }

  lemma CheckIsCounted(s: State, op: Op, now: int, later: int, id: Id)
    requires DrawsUnused(s, op) && ChecksPassword(s, op, now, id)
    ensures id in Step(s, op, now, later).sessions
    ensures Step(s, op, now, later).sessions[id].failedReauth == s.sessions[id].failedReauth + 1 <= REAUTH_LIMIT
  {
  }

  /** Setting a password spends every credential of the account, the one that was used included. */
  lemma SetPasswordSpends(s: State, credential: Id, record: Secret, now: int, other: Id, t: int)
    requires CredentialAccepted(s, credential, now)
    ensures var r := AfterSetPassword(s, credential, record, now);
      && r.accounts[s.credentials[credential].account].status == ACTIVE
      && (other in s.credentials && s.credentials[other].account == s.credentials[credential].account ==> IsSpent(r, other, t))
      && IsSpent(r, credential, t)
  {
  }
}
