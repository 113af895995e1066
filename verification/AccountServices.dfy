/**
 The account service as an object: each method is one transaction on its tables, and has the effect that the step of the
 same name describes.
 */
module AccountServices {
  import opened Graphs
  import opened Accounts
  import opened Wrappers

  class AccountService {
    var control: Control
    var accounts: map<Id, Account>
    var sessions: map<Id, Session>
    var credentials: map<Id, Credential>

    ghost function Tables(): State
      reads this
    {
      State(control, accounts, sessions, credentials)
    }

    constructor ()
      ensures Tables() == EmptyState() && IsSound(Tables())
    {
      control, accounts, sessions, credentials := Control(false, false, 0), map[], map[], map[];
    }

    /** Whether the session lets its holder in. */
    method CheckSession(session: Id, now: int, recent: bool, admin: bool) returns (accepted: bool)
      ensures accepted <==> Check(Tables(), session, now, recent, admin) == ACCEPTED
    {
      accepted := Check(State(control, accounts, sessions, credentials), session, now, recent, admin) == ACCEPTED;
    }

    method RevokeAccountSessions(account: Id)
      modifies this`sessions
      ensures sessions == RevokeAccount(old(sessions), account)
    {
      var todo := sessions.Keys;
      while todo != {}
        invariant todo <= sessions.Keys == old(sessions).Keys
        invariant forall id :: id in todo ==> sessions[id] == old(sessions)[id]
        invariant forall id :: id in sessions && id !in todo ==> sessions[id] == RevokeAccount(old(sessions), account)[id]
        decreases todo
      {
        var id :| id in todo;
        if sessions[id].account == account {
          sessions := sessions[id := Revoked(sessions[id])];
        }
        todo := todo - {id};
      }
    }

    method SpendAccountCredentials(account: Id)
      modifies this`credentials
      ensures credentials == SpendCredentials(old(credentials), account)
    {
      var todo := credentials.Keys;
      while todo != {}
        invariant todo <= credentials.Keys == old(credentials).Keys
        invariant forall id :: id in todo ==> credentials[id] == old(credentials)[id]
        invariant forall id :: id in credentials && id !in todo ==>
                    credentials[id] == SpendCredentials(old(credentials), account)[id]
        decreases todo
      {
        var id :| id in todo;
        if credentials[id].account == account {
          credentials := credentials[id := credentials[id].(used := true)];
        }
        todo := todo - {id};
      }
    }

    method CreateSession(account: Id, now: int, remember: bool, device: string, token: Id)
      modifies this`sessions
      ensures sessions == old(sessions)[token := NewSession(old(Tables()), account, now, remember, device)]
    {
      sessions := sessions[token := Session(
        account, AUTHENTICATED, device, now, now, now, now + (if remember then 30 * DAY else 12 * HOUR),
        if remember then 7 * DAY else 2 * HOUR, control.epoch, false, 0)];
    }

    method RotateSession(session: Id, now: int, token: Id)
      requires session in sessions
      modifies this`sessions
      ensures Tables() == Rotate(old(Tables()), session, now, token)
      ensures token != session ==> sessions[session].revoked
      ensures sessions[token].account == old(sessions)[session].account && sessions[token].device == old(sessions)[session].device
      ensures forall remember :: HasDuration(old(sessions)[session], remember) ==> HasDuration(sessions[token], remember)
    {
      var was := sessions[session];
      sessions := sessions[session := Revoked(was)];
      CreateSession(was.account, now, was.idleMs > 2 * HOUR, was.device, token);
    }

    method InitializeInstance(id: Id, login: string, displayName: string, record: Secret) returns (ok: bool)
      requires IsSound(Tables()) && id !in accounts
      modifies this
      ensures Tables() == Step(old(Tables()), Initialize(id, login, displayName, record), 0, 0) && IsSound(Tables())
      ensures ok <==> !old(control).initialized && !old(control).recovery
    {
      StepKeepsSound(Tables(), Initialize(id, login, displayName, record), 0, 0);
      if control.initialized || control.recovery {
        return false;
      }
      accounts := accounts[id := Account(login, displayName, Some(record), ACTIVE, true, false, HUMAN, false, false)];
      control := control.(initialized := true);
      ok := true;
    }

    /** The account of a login name, searched for among all accounts. */
    method SearchLogin(login: string) returns (found: Option<Id>)
      requires LoginsAreDistinct(Tables())
      ensures found == FindLogin(Tables(), login)
    {
      var todo := accounts.Keys;
      while todo != {}
        invariant todo <= accounts.Keys
        invariant forall id :: id in accounts && id !in todo ==> !IsLoginOf(accounts[id], login)
        decreases todo
      {
        var id :| id in todo;
        if accounts[id].login == login && accounts[id].kind != PROGRAM {
          return Some(id);
        }
        todo := todo - {id};
      }
      found := None;
    }

    method LogIn(login: string, admitted: bool, correct: bool, remember: bool, device: string, token: Id, now: int)
      returns (ok: bool)
      requires IsSound(Tables()) && token !in sessions
      modifies this
      ensures Tables() == Step(old(Tables()), Login(login, admitted, correct, remember, device, token), now, now)
      ensures IsSound(Tables()) && (ok <==> token in sessions)
      ensures ok ==> Check(Tables(), token, now, true, false) == ACCEPTED
    {
      StepKeepsSound(Tables(), Login(login, admitted, correct, remember, device, token), now, now);
      LoginIsAccepted(Tables(), Login(login, admitted, correct, remember, device, token), now);
      if !control.initialized || !admitted {
        return false;
      }
      var found := SearchLogin(login);
      if found == None || !correct || accounts[found.value].status != ACTIVE {
        return false;
      }
      if control.recovery && !accounts[found.value].recoveryAdmin {
        return false;
      }
      var account := accounts[found.value];
      if account.adminRequested {
        account := account.(admin := true);
      }
      account := account.(adminRequested := false);
      accounts := accounts[found.value := account];
      CreateSession(found.value, now, remember, device, token);
      ok := true;
    }

    method LogOut(session: Id, now: int) returns (ok: bool)
      modifies this`sessions
      ensures Tables() == Step(old(Tables()), Logout(session), now, now)
      ensures ok <==> Check(old(Tables()), session, now, false, false) == ACCEPTED
      ensures ok ==> IsDead(Tables(), session, now)
    {
      ok := CheckSession(session, now, false, false);
      if ok {
        sessions := sessions[session := Revoked(sessions[session])];
      }
    }

    method MarkActive(session: Id, now: int, later: int) returns (ok: bool)
      modifies this`sessions
      ensures Tables() == Step(old(Tables()), Activity(session), now, later)
      ensures ok <==> Check(old(Tables()), session, now, false, false) == ACCEPTED
      // what is left of its time starts again, up to its end
      ensures ok ==>
                forall t :: later <= t < sessions[session].expiresAt && t - later < sessions[session].idleMs ==>
                  Check(Tables(), session, t, false, false) == ACCEPTED
    {
      ok := CheckSession(session, now, false, false);
      if ok {
        sessions := sessions[session := sessions[session].(lastActivity := later)];
      }
    }

    /** Revokes the sessions of `account` that are meant, one after the other; `revoked` is the table to arrive at. */
    method RevokeMeant(session: Id, account: Id, which: RevokeTarget, ghost revoked: map<Id, Session>)
      requires revoked.Keys == sessions.Keys
      requires forall id :: id in sessions ==>
                 revoked[id] == if sessions[id].account == account && IsMeant(id, session, which)
                                then Revoked(sessions[id]) else sessions[id]
      modifies this`sessions
      ensures sessions == revoked
    {
      var todo := sessions.Keys;
      while todo != {}
        invariant todo <= sessions.Keys == revoked.Keys
        invariant forall id :: id in todo ==> sessions[id] == old(sessions)[id]
        invariant forall id :: id in sessions && id !in todo ==> sessions[id] == revoked[id]
        decreases todo
      {
        var id :| id in todo;
        if sessions[id].account == account && IsMeant(id, session, which) {
          sessions := sessions[id := Revoked(sessions[id])];
        }
        todo := todo - {id};
      }
    }

    method RevokeSessions(session: Id, which: RevokeTarget, now: int) returns (ok: bool)
      modifies this`sessions
      ensures Tables() == Step(old(Tables()), RevokeSession(session, which), now, now)
      ensures ok <==> Check(old(Tables()), session, now, false, false) == ACCEPTED
      ensures ok && which == OTHERS ==> Check(Tables(), session, now, false, false) == ACCEPTED
      ensures ok ==>
                forall id :: id in sessions && sessions[id].account == sessions[session].account && IsMeant(id, session, which) ==>
                  IsDead(Tables(), id, now)
    {
      ok := CheckSession(session, now, false, false);
      if ok {
        MeantAreRevoked(Tables(), session, which, now, sessions[session].account, AfterRevokeSession(Tables(), session, which, now));
        RevokeMeant(session, sessions[session].account, which, AfterRevokeSession(Tables(), session, which, now).sessions);
      }
    }

    method VerifyIdentity(session: Id, correct: bool, token: Id, now: int, later: int) returns (ok: bool)
      requires token !in sessions
      modifies this`sessions
      ensures Tables() == Step(old(Tables()), Reauthenticate(session, correct, token), now, later)
      ensures ok <==> token in sessions
      ensures ok ==> IsDead(Tables(), session, now) && Check(Tables(), token, later, true, false) == ACCEPTED
    {
      VerifiedSessionTakesPlace(Tables(), session, correct, token, now, later);
      ok := CheckSession(session, now, false, false);
      if !ok {
        return;
      }
      var counted := sessions[session].(failedReauth := sessions[session].failedReauth + 1);
      sessions := sessions[session := counted];
      if counted.failedReauth > REAUTH_LIMIT {
        sessions := sessions[session := Revoked(counted)];
        return false;
      }
      if !correct {
        return false;
      }
      RotateSession(session, later, token);
    }

    method SetNewPassword(session: Id, record: Secret, token: Id, now: int, later: int) returns (ok: bool)
      modifies this
      ensures Tables() == Step(old(Tables()), ChangePassword(session, record, token), now, later)
      ensures ok <==> Check(old(Tables()), session, now, true, false) == ACCEPTED
      ensures ok ==>
                && Check(Tables(), token, later, true, false) == ACCEPTED
                && forall id :: id in sessions && sessions[id].account == sessions[token].account ==>
                     (sessions[id].revoked <==> id != token)
    {
      ok := CheckSession(session, now, true, false);
      if !ok {
        return;
      }
      OnlyNewSessionIsLeft(Tables(), session, record, token, now, later);
      ChangedPasswordIsAccepted(Tables(), session, record, token, now, later);
      var account := sessions[session].account;
      accounts := accounts[account := accounts[account].(password := Some(record))];
      RevokeAccountSessions(account);
      RotateSession(session, later, token);
    }

    method AddAccount(session: Id, login: string, displayName: string, id: Id, credential: Id, now: int, later: int)
      returns (ok: bool)
      requires IsSound(Tables()) && id !in accounts && credential !in credentials
      modifies this
      ensures Tables() == Step(old(Tables()), CreateAccount(session, login, displayName, id, credential), now, later)
      ensures IsSound(Tables()) && (ok <==> id in accounts)
      ensures ok ==> !IsActive(Tables(), id) && CredentialAccepted(Tables(), credential, later)
    {
      NewAccountIsPending(Tables(), CreateAccount(session, login, displayName, id, credential), now, later);
      StepKeepsSound(Tables(), CreateAccount(session, login, displayName, id, credential), now, later);
      ok := CheckSession(session, now, true, true);
      if !ok || exists a :: a in accounts && accounts[a].login == login {
        return false;
      }
      accounts := accounts[id := Account(login, displayName, None, PENDING, false, false, HUMAN, false, false)];
      credentials := credentials[credential := Credential(id, SET_PASSWORD, later + DAY, false)];
    }

    method RedeemCredential(credential: Id, record: Secret, now: int) returns (ok: bool)
      modifies this
      ensures Tables() == Step(old(Tables()), SetPassword(credential, record), now, now)
      ensures ok <==> CredentialAccepted(old(Tables()), credential, now)
      ensures ok ==> IsSpent(Tables(), credential, now) && IsActive(Tables(), credentials[credential].account)
      ensures ok ==> forall id :: id in sessions && sessions[id].account == credentials[credential].account ==> sessions[id].revoked
    {
      if credential !in credentials || credentials[credential].used || now >= credentials[credential].expiresAt {
        return false;
      }
      var account := credentials[credential].account;
      if account !in accounts || accounts[account].status == DISABLED {
        return false;
      }
      accounts := accounts[account := accounts[account].(password := Some(record), status := ACTIVE)];
      RevokeAccountSessions(account);
      SpendAccountCredentials(account);
      ok := true;
    }

    method IssueRecovery(session: Id, target: Id, credential: Id, now: int, later: int) returns (ok: bool)
      modifies this
      ensures Tables() == Step(old(Tables()), RecoverAccount(session, target, credential), now, later)
      ensures ok <==> Check(old(Tables()), session, now, true, true) == ACCEPTED
                      && target in accounts && accounts[target].kind == HUMAN
      ensures ok ==> (CredentialAccepted(Tables(), credential, later) <==> accounts[target].status != DISABLED)
      ensures ok ==> forall c :: c in credentials && c != credential && credentials[c].account == target ==> credentials[c].used
      ensures ok ==> forall id :: id in sessions && sessions[id].account == target ==> sessions[id].revoked
    {
      ok := CheckSession(session, now, true, true);
      if !ok || target !in accounts || accounts[target].kind != HUMAN {
        return false;
      }
      RevokeAccountSessions(target);
      SpendAccountCredentials(target);
      credentials := credentials[credential := Credential(target, RECOVERY, later + HOUR / 4, false)];
    }

    static method ApplyPatch(a: Account, patch: Patch) returns (account: Account)
      ensures account == Patched(a, patch)
    {
      account := a;
      if patch.admin.Some? {
        account := account.(admin := patch.admin.value, adminRequested := false);
      }
      if patch.status.Some? {
        account := account.(status := patch.status.value);
      }
      if patch.globalConfig.Some? {
        account := account.(globalConfig := patch.globalConfig.value);
      }
      if patch.displayName.Some? {
        account := account.(displayName := patch.displayName.value);
      }
    }

    /** Whether the change goes through. */
    method AllowsUpdate(session: Id, target: Id, patch: Patch, now: int) returns (ok: bool)
      ensures ok <==> UpdateAccepted(Tables(), session, target, patch, now)
    {
      ok := CheckSession(session, now, true, true);
      if !ok || target !in accounts || accounts[target].kind != HUMAN {
        return false;
      }
      if patch.status.Some? && (patch.status.value == PENDING || accounts[target].password.None?) {
        return false;
      }
      if accounts[target].admin && accounts[target].status == ACTIVE
         && (patch.status == Some(DISABLED) || patch.admin == Some(false))
         && !exists a :: a in accounts && a != target && IsAdmin(accounts[a]) {
        return false;
      }
    }

    method ChangeAccount(session: Id, target: Id, patch: Patch, now: int) returns (ok: bool)
      requires IsSound(Tables())
      modifies this
      ensures Tables() == Step(old(Tables()), UpdateAccount(session, target, patch), now, now) && IsSound(Tables())
      ensures ok <==> UpdateAccepted(old(Tables()), session, target, patch, now)
      ensures ok && (patch.status == Some(DISABLED) || patch.admin.Some?) ==>
                forall id :: id in sessions && sessions[id].account == target ==> IsDead(Tables(), id, now)
    {
      StepKeepsSound(Tables(), UpdateAccount(session, target, patch), now, now);
      UpdateIsExact(Tables(), session, target, patch, now);
      ok := AllowsUpdate(session, target, patch, now);
      if !ok {
        return;
      }
      var account := ApplyPatch(accounts[target], patch);
      accounts := accounts[target := account];
      if patch.status == Some(DISABLED) || patch.admin.Some? {
        RevokeAccountSessions(target);
      }
    }
  }
}
