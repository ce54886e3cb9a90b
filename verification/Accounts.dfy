/** Accounts, their sessions and their lock-out rules: users are created, invited, updated and
    deleted; tokens are minted by logging in, by a second factor and by refreshing; and every
    change to how an account is protected raises its token version. */
module Accounts {
  import opened Text
  import Totp

  type Id = nat

  datatype Role = Admin | Member
  /** `factor.version` is the account's token version. */
  datatype Account = Account(role: Role, active: bool, invited: bool, factor: Totp.Factor)
  type Users = map<Id, Account>

  // ----- lock-out -----

  function Admins(users: Users): set<Id> { set u | u in users && users[u].role.Admin? && users[u].active }

  datatype Protection = OwnAccount | OwnRole | OwnActivity | LastAdmin

  /** What a change to `target` is asked to be: a new role, a new active flag, or deletion. */
  datatype Change = Edit(role: Option<Role>, active: Option<bool>) | Remove

  function Lockout(users: Users, actor: Id, target: Id, c: Change): Option<Protection>
    requires target in users
  {
    if target == actor && c.Remove? then Some(OwnAccount)
    else if target == actor && c.Edit? && c.role.Some? && c.role.value != users[target].role then Some(OwnRole)
    else if target == actor && c.Edit? && c.active == Some(false) then Some(OwnActivity)
    else
      var isActiveAdmin := users[target].role.Admin? && users[target].active;
      var losesAdmin := c.Remove? || (c.role.Some? && !c.role.value.Admin?) || c.active == Some(false);
      if isActiveAdmin && losesAdmin && |Admins(users)| <= 1 then Some(LastAdmin) else None
  }

  /** The users with the change made, checked by nothing. */
  function Changed(users: Users, target: Id, c: Change): Users
    requires target in users
  {
    match c
    case Remove => users - {target}
    case Edit(role, active) =>
      var u := users[target];
      users[target := u.(role := if role.Some? then role.value else u.role,
                         active := if active.Some? then active.value else u.active)]
  }

  function Protected(users: Users, actor: Id, target: Id, c: Change): Users {
    if target in users && Lockout(users, actor, target, c).None? then Changed(users, target, c) else users
  }

  /** With an active admin to begin with, another user's change is refused exactly when it would
      leave none. */
  lemma RefusedIffNoAdminLeft(users: Users, actor: Id, target: Id, c: Change)
    requires target in users && actor != target && Admins(users) != {}
    ensures Lockout(users, actor, target, c).Some? <==> Admins(Changed(users, target, c)) == {}
    ensures Lockout(users, actor, target, c).Some? ==> Lockout(users, actor, target, c) == Some(LastAdmin)
  {
    var before, after := Admins(users), Admins(Changed(users, target, c));
    var lost := c.Remove? || (c.role.Some? && !c.role.value.Admin?) || c.active == Some(false);
    if target in before && lost {
      assert after == before - {target};
      assert |after| == |before| - 1;
    } else if target in before {
      assert target in after;
    } else {
      var other :| other in before;
      assert other in after;
    }
  }

  lemma ProtectedKeepsAdmin(users: Users, actor: Id, target: Id, c: Change)
    requires Admins(users) != {}
    ensures Admins(Protected(users, actor, target, c)) != {}
  {
    hide Admins, Changed;
    if target in users {
      if actor != target {
        RefusedIffNoAdminLeft(users, actor, target, c);
      } else if Lockout(users, actor, target, c).None? {
        OwnChangeKeepsAdmins(users, target, c);
      }
    }
  }

  lemma OwnChangeKeepsAdmins(users: Users, target: Id, c: Change)
    requires target in users && Lockout(users, target, target, c).None?
    ensures Admins(users) <= Admins(Changed(users, target, c))
  {
  }

  /** Nobody changes their own role, switches themselves off or deletes themselves. */
  lemma NoSelfHarm(users: Users, actor: Id, c: Change)
    requires actor in users
    ensures var after := Protected(users, actor, actor, c);
            && actor in after && after[actor].role == users[actor].role
            && (users[actor].active ==> after[actor].active)
  {
  }

  /** To oneself exactly deletion, another role and switching off are refused, each for its own reason. */
  lemma OwnRefusals(users: Users, self: Id, c: Change)
    requires self in users
    ensures Lockout(users, self, self, c) == Some(OwnAccount) <==> c.Remove?
    ensures Lockout(users, self, self, c) == Some(OwnRole)
       <==> c.Edit? && c.role.Some? && c.role.value != users[self].role
    ensures Lockout(users, self, self, c) == Some(OwnActivity)
       <==> c.Edit? && (c.role.None? || c.role.value == users[self].role) && c.active == Some(false)
    ensures Lockout(users, self, self, c) != Some(LastAdmin)
  {
  }

  // ----- tokens -----

  datatype Kind = RefreshToken | MfaToken | LiveTicket

  /** A code challenge lives five minutes and a live ticket thirty seconds. */
  const MFA_SECONDS := 300
  const LIVE_SECONDS := 30

  /** The second factor's foreign parts, and how long a refresh token lives here. */
  datatype Deployment = Deployment(totp: Totp.Foreign, refreshSeconds: int)

  function Lifetime(d: Deployment, kind: Kind): int {
    match kind
    case RefreshToken => d.refreshSeconds
    case MfaToken => MFA_SECONDS
    case LiveTicket => LIVE_SECONDS
  }

  /** `second` records that a second factor was accepted on the way to this token. */
  datatype Token = Token(kind: Kind, user: Id, version: nat, expires: int, second: bool)

  datatype State = State(users: Users, nextId: Id, minted: seq<Token>)

  const Empty := State(map[], 0, [])

  /** Whether the account still stands behind a token. */
  predicate Accepts(users: Users, t: Token) {
    && t.user in users && users[t.user].active && users[t.user].factor.version == t.version
    && (t.kind.LiveTicket? ==> users[t.user].role.Admin?)
  }

  /** Whether a token presented now is honoured. */
  predicate Honoured(users: Users, t: Token, now: int) { now < t.expires && Accepts(users, t) }

  /** Tokens are presented by their place among those minted: signatures are not forged. */
  datatype Action =
    | Seed
    | Create(role: Role, active: bool)
    | Invite(role: Role)
    | AcceptInvitation(id: Id)
    | ChangeUser(actor: Id, target: Id, change: Change)
    | SetPassword(id: Id)
    | ChangeOwnPassword(id: Id)
    | EndSessions(id: Id)
    | SecondFactor(id: Id, step: Totp.Step)
    | Login(id: Id, passwordOk: bool, now: int)
    | MfaVerify(token: nat, now: int, code: string)
    | PasskeyVerify(token: nat, now: int, asserted: bool)
    | Refresh(token: nat, now: int)
    | Ticket(id: Id, now: int)

  function NewAccount(role: Role, active: bool, invited: bool): Account { Account(role, active, invited, Totp.Fresh) }

  function Added(s: State, a: Account): State { s.(users := s.users[s.nextId := a], nextId := s.nextId + 1) }

  function WithFactor(users: Users, id: Id, factor: Totp.Factor): Users
    requires id in users
  {
    users[id := users[id].(factor := factor)]
  }

  function Bumped(users: Users, id: Id): Users {
    if id in users then WithFactor(users, id, users[id].factor.(version := users[id].factor.version + 1)) else users
  }

  /** Accepting an invitation. */
  function Joined(users: Users, id: Id): Users {
    if id in users && users[id].invited
    then Bumped(users[id := users[id].(invited := false, active := true)], id)
    else users
  }

  function Mint(d: Deployment, s: State, kind: Kind, user: Id, now: int, second: bool): State
    requires user in s.users
  {
    s.(minted := s.minted + [Token(kind, user, s.users[user].factor.version, now + Lifetime(d, kind), second)])
  }

  /** A presented token of the right kind that is honoured. */
  predicate Presents(s: State, i: nat, kind: Kind, now: int) {
    i < |s.minted| && s.minted[i].kind == kind && Honoured(s.users, s.minted[i], now)
  }

  /** The second factor was accepted, for the account it answers for. */
  predicate Passed(d: Deployment, s: State, a: Action, user: Id) {
    match a
    case MfaVerify(i, now, code) =>
      && Presents(s, i, MfaToken, now) && s.minted[i].user == user
      && Totp.Outcome(d.totp, s.users[user].factor, Totp.Verify(now, code)).Some?
    case PasskeyVerify(i, now, asserted) => Presents(s, i, MfaToken, now) && s.minted[i].user == user && asserted
    case _ => false
  }

  function Next(d: Deployment, s: State, a: Action): State {
    match a
    case Seed => if s.users == map[] then Added(s, NewAccount(Admin, true, false)) else s
    case Create(role, active) => Added(s, NewAccount(role, active, false))
    case Invite(role) => Added(s, NewAccount(role, false, true))
    case AcceptInvitation(id) => s.(users := Joined(s.users, id))
    case ChangeUser(actor, target, c) => s.(users := Protected(s.users, actor, target, c))
    case SetPassword(id) => s.(users := Bumped(s.users, id))
    case ChangeOwnPassword(id) => s.(users := Bumped(s.users, id))
    case EndSessions(id) => s.(users := Bumped(s.users, id))
    case SecondFactor(id, step) =>
      if id in s.users then s.(users := WithFactor(s.users, id, Totp.Next(d.totp, s.users[id].factor, step))) else s
    case Login(id, passwordOk, now) =>
      if id !in s.users || !s.users[id].active || !passwordOk then s
      else if s.users[id].factor.enabled then Mint(d, s, MfaToken, id, now, false)
      else Mint(d, s, RefreshToken, id, now, false)
    case MfaVerify(i, now, code) =>
      if !Presents(s, i, MfaToken, now) || !Passed(d, s, a, s.minted[i].user) then s
      else
        var user := s.minted[i].user;
        var factor := Totp.Next(d.totp, s.users[user].factor, Totp.Verify(now, code));
        Mint(d, s.(users := WithFactor(s.users, user, factor)), RefreshToken, user, now, true)
    case PasskeyVerify(i, now, asserted) =>
      if !Presents(s, i, MfaToken, now) || !Passed(d, s, a, s.minted[i].user) then s
      else Mint(d, s, RefreshToken, s.minted[i].user, now, true)
    case Refresh(i, now) =>
      if !Presents(s, i, RefreshToken, now) then s
      else Mint(d, s, RefreshToken, s.minted[i].user, now, s.minted[i].second)
    case Ticket(id, now) =>
      if id in s.users && s.users[id].active && s.users[id].role.Admin? then Mint(d, s, LiveTicket, id, now, false)
      else s
  }

  function Run(d: Deployment, s: State, actions: seq<Action>): State {
    if actions == [] then s else Next(d, Run(d, s, actions[..|actions| - 1]), actions[|actions| - 1])
  }

  // ----- one action, in plain terms -----

  /** The row an edit leaves, and that nothing else moves. */
  lemma ChangedMeans(users: Users, target: Id, c: Change, other: Id)
    requires target in users
    ensures c.Remove? ==> Changed(users, target, c).Keys == users.Keys - {target}
    ensures c.Edit? ==>
              && Changed(users, target, c).Keys == users.Keys
              && (var u, v := users[target], Changed(users, target, c)[target];
                  && v.role == (match c.role case Some(role) => role case None => u.role)
                  && v.active == (match c.active case Some(active) => active case None => u.active)
                  && v.invited == u.invited && v.factor == u.factor)
    ensures other in users && other != target ==> Changed(users, target, c)[other] == users[other]
  {
  }

  /** A new row stands under an id never given out, and every other row stays. */
  ghost predicate Joins(s: State, after: State, role: Role, active: bool, invited: bool) {
    && after.users == s.users[s.nextId := Account(role, active, invited, Totp.Factor(None, false, None, 0, [], 0))]
    && after.nextId == s.nextId + 1 && after.minted == s.minted
  }

  lemma NewRowsMean(d: Deployment, s: State, role: Role, active: bool)
    ensures Joins(s, Next(d, s, Create(role, active)), role, active, false)
    ensures Joins(s, Next(d, s, Invite(role)), role, false, true)
    ensures if s.users == map[] then Joins(s, Next(d, s, Seed), Admin, true, false) else Next(d, s, Seed) == s
  {
  }

  /** Setting a password or ending sessions raises one account's version and changes nothing else;
      accepting an invitation also activates an invited row, and no other. */
  lemma RowsMean(d: Deployment, s: State, id: Id)
    ensures var raised := if id !in s.users then s
                          else var u := s.users[id];
                               s.(users := s.users[id := u.(factor := u.factor.(version := u.factor.version + 1))]);
            && Next(d, s, SetPassword(id)) == raised && Next(d, s, ChangeOwnPassword(id)) == raised
            && Next(d, s, EndSessions(id)) == raised
    ensures var joined := if id !in s.users || !s.users[id].invited then s
                          else var u := s.users[id];
                               s.(users := s.users[id := Account(u.role, true, false,
                                                                 u.factor.(version := u.factor.version + 1))]);
            Next(d, s, AcceptInvitation(id)) == joined
  {
    var after := Next(d, s, AcceptInvitation(id)).users;
    if id in s.users && s.users[id].invited {
      var u := s.users[id];
      assert after == s.users[id := Account(u.role, true, false, u.factor.(version := u.factor.version + 1))];
    }
  }

  /** Logging in mints something exactly for an active account and its password: a challenge with
      two-factor on, a refresh token otherwise, never one that counts as two-factor. */
  lemma LoginMints(d: Deployment, s: State, id: Id, passwordOk: bool, now: int)
    ensures var after := Next(d, s, Login(id, passwordOk, now));
            if id in s.users && s.users[id].active && passwordOk
            then var u := s.users[id];
                 after == s.(minted := s.minted
                   + [if u.factor.enabled then Token(MfaToken, id, u.factor.version, now + 300, false)
                      else Token(RefreshToken, id, u.factor.version, now + d.refreshSeconds, false)])
            else after == s
  {
  }

  /** The token was minted as this kind, has not expired, and its account is active at its version. */
  ghost predicate Live(s: State, i: nat, kind: Kind, now: int) {
    && i < |s.minted| && s.minted[i].kind == kind && now < s.minted[i].expires
    && s.minted[i].user in s.users && s.users[s.minted[i].user].active
    && s.users[s.minted[i].user].factor.version == s.minted[i].version
    && (kind.LiveTicket? ==> s.users[s.minted[i].user].role.Admin?)
  }

  /** The code answers for the account: a one-time code of an admissible step, or an unused recovery
      code, and two-factor is on. */
  ghost predicate Answers(f: Totp.Foreign, u: Totp.Factor, now: int, code: string) {
    && u.enabled && u.secret.Some?
    && if f.shape(code).Some?
       then exists k ::
              && now / 30 - 1 <= k <= now / 30 + 1 && (u.lastStep.Some? ==> k > u.lastStep.value)
              && f.codeAt(u.secret.value, k * 30) == f.shape(code).value
       else exists i :: 0 <= i < |u.rows| && !u.rows[i].used && f.verifies(f.normal(code), u.rows[i].hash)
  }

  lemma AnswersIff(f: Totp.Foreign, u: Totp.Factor, now: int, code: string)
    ensures Totp.Outcome(f, u, Totp.Verify(now, code)).Some? <==> Answers(f, u, now, code)
  {
    Totp.VerifyMeans(f, u, now, code);
    hide Totp.Outcome, Totp.Next, Totp.FirstMatch;
    if u.enabled && u.secret.Some? && f.shape(code).Some? {
      var m := Totp.Matched(f, u.secret.value, code, u.lastStep, now);
      if m.Some? { Totp.AcceptedCode(f, u.secret.value, code, u.lastStep, now); }
      if k :| now / 30 - 1 <= k <= now / 30 + 1 && (u.lastStep.Some? ==> k > u.lastStep.value)
              && f.codeAt(u.secret.value, k * 30) == f.shape(code).value {
        assert Totp.Admissible(f, u.secret.value, f.shape(code).value, u.lastStep, now, k);
      }
    }
    if f.shape(code).None? {
      forall i | 0 <= i < |u.rows|
        ensures Totp.Opens(f, u.rows[i], code) <==> !u.rows[i].used && f.verifies(f.normal(code), u.rows[i].hash)
      {}
    }
  }

  /** A challenge mints a refresh token exactly when it is live and the code answers for the account
      it names; the token then counts as two-factor. Otherwise nothing changes. */
  lemma MfaMints(d: Deployment, s: State, i: nat, now: int, code: string)
    ensures var after := Next(d, s, MfaVerify(i, now, code));
            if Live(s, i, MfaToken, now) && Answers(d.totp, s.users[s.minted[i].user].factor, now, code)
            then var id := s.minted[i].user;
                 && after.minted == s.minted
                      + [Token(RefreshToken, id, s.users[id].factor.version, now + d.refreshSeconds, true)]
                 && OnlyFactor(s, after.(minted := s.minted), id)
                 && after.users[id].factor == Totp.Next(d.totp, s.users[id].factor, Totp.Verify(now, code))
            else after == s
  {
    hide Totp.Outcome, Totp.Next, Answers;
    if Live(s, i, MfaToken, now) {
      AnswersIff(d.totp, s.users[s.minted[i].user].factor, now, code);
      FactorVersion(d, s.users[s.minted[i].user].factor, Totp.Verify(now, code));
    }
  }

  /** Nothing differs but one account's second factor. */
  ghost predicate OnlyFactor(s: State, after: State, id: Id) {
    && id in s.users && after.nextId == s.nextId && after.minted == s.minted && after.users.Keys == s.users.Keys
    && (forall u <- s.users :: u != id ==> after.users[u] == s.users[u])
    && after.users[id].role == s.users[id].role && after.users[id].active == s.users[id].active
    && after.users[id].invited == s.users[id].invited
  }

  /** A step of the second factor happens to the account it is for. */
  lemma FactorSteps(d: Deployment, s: State, id: Id, step: Totp.Step)
    ensures var after := Next(d, s, SecondFactor(id, step));
            if id in s.users
            then OnlyFactor(s, after, id) && after.users[id].factor == Totp.Next(d.totp, s.users[id].factor, step)
            else after == s
  {
    hide Totp.Next;
  }

  /** A good passkey assertion does the same; a refresh token hands on its standing; a live ticket is
      for an active admin. */
  lemma OthersMint(d: Deployment, s: State, i: nat, now: int, asserted: bool, id: Id)
    ensures Next(d, s, PasskeyVerify(i, now, asserted))
         == if Live(s, i, MfaToken, now) && asserted
            then s.(minted := s.minted + [Token(RefreshToken, s.minted[i].user, s.minted[i].version,
                                                now + d.refreshSeconds, true)])
            else s
    ensures Next(d, s, Refresh(i, now))
         == if Live(s, i, RefreshToken, now)
            then s.(minted := s.minted + [Token(RefreshToken, s.minted[i].user, s.minted[i].version,
                                                now + d.refreshSeconds, s.minted[i].second)])
            else s
    ensures Next(d, s, Ticket(id, now))
         == if id in s.users && s.users[id].active && s.users[id].role.Admin?
            then s.(minted := s.minted + [Token(LiveTicket, id, s.users[id].factor.version, now + 30, false)])
            else s
  {
  }

  // ----- an admin always remains -----

  lemma StepKeepsAdmin(d: Deployment, s: State, a: Action)
    requires Numbered(s) && Admins(s.users) != {}
    ensures Admins(Next(d, s, a).users) != {}
  {
    hide Admins, Protected, Totp.Next, Totp.Outcome;
    match a
    case ChangeUser(actor, target, c) => ProtectedKeepsAdmin(s.users, actor, target, c);
    case _ => OthersKeepAdmins(d, s, a);
  }

  lemma OthersKeepAdmins(d: Deployment, s: State, a: Action)
    requires Numbered(s) && !a.ChangeUser?
    ensures Admins(s.users) <= Admins(Next(d, s, a).users)
  {
    hide Totp.Next, Totp.Outcome, Protected;
    var after := Next(d, s, a);
    forall u <- s.users
      ensures u in after.users && after.users[u].role == s.users[u].role
      ensures s.users[u].active ==> after.users[u].active
    {
    }
  }

  ghost predicate Numbered(s: State) { forall u <- s.users :: u < s.nextId }

  lemma StepKeepsNumbered(d: Deployment, s: State, a: Action)
    requires Numbered(s)
    ensures Numbered(Next(d, s, a)) && s.nextId <= Next(d, s, a).nextId
    ensures forall u <- Next(d, s, a).users :: u in s.users || s.nextId <= u
  {
    hide Totp.Next, Totp.Outcome, Lockout;
  }

  lemma {:induction false} RunKeepsNumbered(d: Deployment, s: State, actions: seq<Action>)
    requires Numbered(s)
    ensures Numbered(Run(d, s, actions)) && s.nextId <= Run(d, s, actions).nextId
    ensures forall u <- Run(d, s, actions).users :: u in s.users || s.nextId <= u
  {
    hide Next;
    if actions != [] {
      var before := actions[..|actions| - 1];
      RunKeepsNumbered(d, s, before);
      StepKeepsNumbered(d, Run(d, s, before), actions[|actions| - 1]);
    }
  }

  /** From any state with an active admin, every run ends with an active admin. */
  lemma {:induction false} AdminAlwaysRemains(d: Deployment, s: State, actions: seq<Action>)
    requires Numbered(s) && Admins(s.users) != {}
    ensures Admins(Run(d, s, actions).users) != {}
  {
    hide Next, Admins;
    if actions != [] {
      var before := actions[..|actions| - 1];
      AdminAlwaysRemains(d, s, before);
      RunKeepsNumbered(d, s, before);
      StepKeepsAdmin(d, Run(d, s, before), actions[|actions| - 1]);
    }
  }

  /** Whatever happens, an account that only its own user changes stays, in its role, and active
      if it was. */
  lemma {:induction false} NobodyHarmsThemselves(d: Deployment, s: State, actions: seq<Action>, user: Id)
    requires Numbered(s) && user in s.users
    requires forall a <- actions :: a.ChangeUser? && a.target == user ==> a.actor == user
    ensures var users := Run(d, s, actions).users;
            && user in users && users[user].role == s.users[user].role
            && (s.users[user].active ==> users[user].active)
  {
    hide Next;
    if actions != [] {
      var before, a := actions[..|actions| - 1], actions[|actions| - 1];
      assert a in actions && forall x <- before :: x in actions;
      NobodyHarmsThemselves(d, s, before, user);
      RunKeepsNumbered(d, s, before);
      StepIsHarmless(d, Run(d, s, before), a, user);
    }
  }

  lemma StepIsHarmless(d: Deployment, s: State, a: Action, user: Id)
    requires Numbered(s) && user in s.users
    requires a.ChangeUser? && a.target == user ==> a.actor == user
    ensures var users := Next(d, s, a).users;
            && user in users && users[user].role == s.users[user].role
            && (s.users[user].active ==> users[user].active)
  {
    hide Totp.Next, Totp.Outcome, Admins;
    if a.ChangeUser? && a.target == user { NoSelfHarm(s.users, user, a.change); }
  }

  // ----- revocation -----

  /** The step changes a password or how the account is protected. */
  predicate Revokes(d: Deployment, s: State, a: Action, user: Id)
    requires user in s.users
  {
    match a
    case SetPassword(id) => id == user
    case ChangeOwnPassword(id) => id == user
    case EndSessions(id) => id == user
    case AcceptInvitation(id) => id == user && s.users[user].invited
    case SecondFactor(id, step) =>
      && id == user && (step.Confirm? || step.Mint? || step.Disable?)
      && Totp.Outcome(d.totp, s.users[user].factor, step).Some?
    case _ => false
  }

  lemma FactorVersion(d: Deployment, u: Totp.Factor, step: Totp.Step)
    ensures var t := Totp.Next(d.totp, u, step);
            var changes := (step.Confirm? || step.Mint? || step.Disable?) && Totp.Outcome(d.totp, u, step).Some?;
            t.version == u.version + (if changes then 1 else 0) && (!changes ==> t.enabled == u.enabled)
  {
    hide Totp.Matched, Totp.FirstMatch;
  }

  lemma VersionStep(d: Deployment, s: State, a: Action, user: Id)
    requires user in s.users && user in Next(d, s, a).users && Numbered(s)
    ensures Next(d, s, a).users[user].factor.version
         == s.users[user].factor.version + (if Revokes(d, s, a, user) then 1 else 0)
    ensures !Revokes(d, s, a, user) ==> Next(d, s, a).users[user].factor.enabled == s.users[user].factor.enabled
  {
    hide Totp.Next, Totp.Outcome, Lockout;
    match a
    case SecondFactor(id, step) => if id in s.users { FactorVersion(d, s.users[id].factor, step); }
    case MfaVerify(i, now, code) =>
      if Presents(s, i, MfaToken, now) { FactorVersion(d, s.users[s.minted[i].user].factor, Totp.Verify(now, code)); }
    case _ =>
  }

  /** How often a run changed a password of, or the protection of, an account. */
  function Revocations(d: Deployment, s: State, actions: seq<Action>, user: Id): nat {
    if actions == [] then 0
    else
      var before := Run(d, s, actions[..|actions| - 1]);
      Revocations(d, s, actions[..|actions| - 1], user)
      + (if user in before.users && Revokes(d, before, actions[|actions| - 1], user) then 1 else 0)
  }

  /** The token version counts them, however the run goes on. */
  lemma {:induction false} VersionCounts(d: Deployment, s: State, actions: seq<Action>, user: Id)
    requires Numbered(s) && user in s.users && user in Run(d, s, actions).users
    ensures Run(d, s, actions).users[user].factor.version
         == s.users[user].factor.version + Revocations(d, s, actions, user)
  {
    hide Next, Revokes;
    if actions != [] {
      var before := actions[..|actions| - 1];
      RunKeepsNumbered(d, s, before);
      StepKeepsNumbered(d, Run(d, s, before), actions[|actions| - 1]);
      VersionCounts(d, s, before, user);
      VersionStep(d, Run(d, s, before), actions[|actions| - 1], user);
    }
  }

  /** A token minted now is honoured at any time after any further run exactly when it has not
      expired, its account still exists and is active (and, for live logs, an admin) and nothing
      revoked it in between. */
  lemma HonouredIff(d: Deployment, s: State, t: Token, actions: seq<Action>, now: int)
    requires Numbered(s) && t.user in s.users && t.version == s.users[t.user].factor.version
    ensures var users := Run(d, s, actions).users;
            && (Honoured(users, t, now)
                <==> now < t.expires && t.user in users && users[t.user].active
                     && (t.kind.LiveTicket? ==> users[t.user].role.Admin?)
                     && Revocations(d, s, actions, t.user) == 0)
  {
    hide Run, Revocations;
    if t.user in Run(d, s, actions).users { VersionCounts(d, s, actions, t.user); }
  }

  // ----- what is known about every minted token -----

  ghost predicate TokenOk(s: State, t: Token) {
    && t.user < s.nextId
    && (t.user in s.users ==>
          && t.version <= s.users[t.user].factor.version
          && (t.version == s.users[t.user].factor.version ==>
                && (t.kind.MfaToken? ==> s.users[t.user].factor.enabled)
                && (t.kind.RefreshToken? && s.users[t.user].factor.enabled ==> t.second)))
  }

  ghost predicate Inv(s: State) { Numbered(s) && forall t <- s.minted :: TokenOk(s, t) }

  lemma OldTokenStaysOk(d: Deployment, s: State, a: Action, t: Token)
    requires Numbered(s) && TokenOk(s, t)
    ensures TokenOk(Next(d, s, a), t)
  {
    hide Next, Revokes;
    StepKeepsNumbered(d, s, a);
    if t.user in Next(d, s, a).users { VersionStep(d, s, a, t.user); }
  }

  /** A step mints at most one token, at the end. */
  lemma MintedOk(d: Deployment, s: State, a: Action)
    requires Inv(s)
    ensures var after := Next(d, s, a);
            || after.minted == s.minted
            || exists t :: after.minted == s.minted + [t] && TokenOk(after, t)
  {
    hide Totp.Next, Totp.Outcome, Lockout;
    var after := Next(d, s, a);
    if after.minted != s.minted {
      var t := after.minted[|s.minted|];
      if a.MfaVerify? { FactorVersion(d, s.users[t.user].factor, Totp.Verify(a.now, a.code)); }
      if a.Refresh? { assert s.minted[a.token] in s.minted; }
      assert after.minted == s.minted + [t] && TokenOk(after, t);
    }
  }

  lemma StepKeepsInv(d: Deployment, s: State, a: Action)
    requires Inv(s)
    ensures Inv(Next(d, s, a))
  {
    hide Next, TokenOk;
    StepKeepsNumbered(d, s, a);
    MintedOk(d, s, a);
    forall t <- s.minted ensures TokenOk(Next(d, s, a), t) { OldTokenStaysOk(d, s, a, t); }
  }

  lemma {:induction false} RunKeepsInv(d: Deployment, actions: seq<Action>)
    ensures Inv(Run(d, Empty, actions))
  {
    hide Next, TokenOk;
    if actions != [] {
      RunKeepsInv(d, actions[..|actions| - 1]);
      StepKeepsInv(d, Run(d, Empty, actions[..|actions| - 1]), actions[|actions| - 1]);
    }
  }

  /** Once a revoking step has happened, no refresh token, challenge or ticket minted before it is
      ever honoured again. */
  lemma RevokedForGood(d: Deployment, before: seq<Action>, a: Action, after: seq<Action>, t: Token)
    requires t in Run(d, Empty, before).minted && t.user in Run(d, Empty, before).users
    requires Revokes(d, Run(d, Empty, before), a, t.user)
    ensures !Accepts(Run(d, Next(d, Run(d, Empty, before), a), after).users, t)
  {
    hide Run, Next, Revokes;
    var s := Run(d, Empty, before);
    RunKeepsInv(d, before);
    assert TokenOk(s, t);
    var s' := Next(d, s, a);
    StepKeepsNumbered(d, s, a);
    RunKeepsNumbered(d, s', after);
    if t.user in Run(d, s', after).users {
      VersionStep(d, s, a, t.user);
      VersionCounts(d, s', after, t.user);
    }
  }

  /** With two-factor sign-in on, every refresh token that is still honoured was reached through
      an accepted second factor. */
  lemma SecondFactorHolds(d: Deployment, actions: seq<Action>, t: Token)
    requires t in Run(d, Empty, actions).minted && t.kind.RefreshToken?
    requires Accepts(Run(d, Empty, actions).users, t)
    requires Run(d, Empty, actions).users[t.user].factor.enabled
    ensures t.second
  {
    hide Run;
    RunKeepsInv(d, actions);
    assert TokenOk(Run(d, Empty, actions), t);
  }

  /** A live challenge of the account, at this version, was answered by its code or by a passkey. */
  ghost predicate Earned(d: Deployment, s: State, a: Action, user: Id, version: nat) {
    && (a.MfaVerify? || a.PasskeyVerify?)
    && Live(s, a.token, MfaToken, a.now) && s.minted[a.token].user == user && s.minted[a.token].version == version
    && (if a.MfaVerify? then Answers(d.totp, s.users[user].factor, a.now, a.code) else a.asserted)
  }

  /** Such a token goes back, through any number of refreshes, to a step of its own era at which
      that account's second factor was accepted. */
  lemma {:induction false} SecondIsEarned(d: Deployment, actions: seq<Action>, t: Token)
    requires t in Run(d, Empty, actions).minted && t.second
    ensures exists i :: 0 <= i < |actions| && Earned(d, Run(d, Empty, actions[..i]), actions[i], t.user, t.version)
  {
    hide Next, Earned;
    var before, a := actions[..|actions| - 1], actions[|actions| - 1];
    var s := Run(d, Empty, before);
    assert before == actions[..|actions| - 1];
    if t in s.minted {
      SecondIsEarned(d, before, t);
      EarnedEarlier(d, actions, t.user, t.version);
    } else {
      MintedSecond(d, s, a, t);
      if !Earned(d, s, a, t.user, t.version) {
        var parent :| parent in s.minted && parent.second && parent.user == t.user && parent.version == t.version;
        SecondIsEarned(d, before, parent);
        EarnedEarlier(d, actions, t.user, t.version);
      }
    }
  }

  lemma EarnedEarlier(d: Deployment, actions: seq<Action>, user: Id, version: nat)
    requires actions != []
    requires var before := actions[..|actions| - 1];
             exists i :: 0 <= i < |before| && Earned(d, Run(d, Empty, before[..i]), before[i], user, version)
    ensures exists i :: 0 <= i < |actions| && Earned(d, Run(d, Empty, actions[..i]), actions[i], user, version)
  {
    hide Run, Earned;
    var before := actions[..|actions| - 1];
    var i :| 0 <= i < |before| && Earned(d, Run(d, Empty, before[..i]), before[i], user, version);
    assert before[..i] == actions[..i] && before[i] == actions[i];
  }

  /** A refresh hands a token's standing on to one of the same account and version; otherwise only
      an accepted factor gives it. */
  lemma MintedSecond(d: Deployment, s: State, a: Action, t: Token)
    requires t in Next(d, s, a).minted && t !in s.minted && t.second
    ensures Earned(d, s, a, t.user, t.version)
            || exists parent <- s.minted :: parent.second && parent.user == t.user && parent.version == t.version
  {
    hide Totp.Next, Totp.Outcome, Lockout, Answers;
    if a.Refresh? { assert s.minted[a.token] in s.minted; }
    if a.MfaVerify? {
      FactorVersion(d, s.users[t.user].factor, Totp.Verify(a.now, a.code));
      AnswersIff(d.totp, s.users[t.user].factor, a.now, a.code);
    }
  }

  // ----- no code twice -----

  /** The time-step at which logging in with a code was accepted for this account. */
  ghost predicate LoggedInAt(d: Deployment, s: State, a: Action, user: Id, step: int) {
    && a.MfaVerify? && Live(s, a.token, MfaToken, a.now) && s.minted[a.token].user == user
    && var u := s.users[user].factor;
       && u.enabled && u.secret.Some? && Totp.Matched(d.totp, u.secret.value, a.code, u.lastStep, a.now) == Some(step)
  }

  /** Only these forget which step was accepted last. */
  predicate Forgets(a: Action, user: Id) {
    a.SecondFactor? && a.id == user && (a.step.Start? || a.step.Confirm? || a.step.Disable?)
  }

  ghost predicate Remembers(s: State, user: Id, step: int) {
    && user < s.nextId
    && (user in s.users ==> s.users[user].factor.lastStep.Some? && step <= s.users[user].factor.lastStep.value)
  }

  lemma VerifyRemembers(f: Totp.Foreign, u: Totp.Factor, now: int, code: string)
    ensures var v := Totp.Next(f, u, Totp.Verify(now, code));
            && (u.lastStep.Some? ==> v.lastStep.Some? && u.lastStep.value <= v.lastStep.value)
            && (u.enabled && u.secret.Some? && Totp.Matched(f, u.secret.value, code, u.lastStep, now).Some? ==>
                  v.lastStep == Totp.Matched(f, u.secret.value, code, u.lastStep, now))
  {
    Totp.VerifyMeans(f, u, now, code);
    hide Totp.Next, Totp.Outcome;
    if u.enabled && u.secret.Some? && Totp.Matched(f, u.secret.value, code, u.lastStep, now).Some? {
      Totp.AcceptedCode(f, u.secret.value, code, u.lastStep, now);
    }
  }

  lemma StepRemembers(d: Deployment, s: State, a: Action, user: Id, step: int)
    requires Numbered(s) && Remembers(s, user, step) && !Forgets(a, user)
    ensures Remembers(Next(d, s, a), user, step)
  {
    hide Totp.Outcome, Totp.Next, Lockout;
    StepKeepsNumbered(d, s, a);
    if user in s.users {
      var u := s.users[user].factor;
      if a.MfaVerify? { VerifyRemembers(d.totp, u, a.now, a.code); }
      if a.SecondFactor? && a.id == user {
        if a.step.Verify? { VerifyRemembers(d.totp, u, a.step.now, a.step.code); }
        if a.step.Mint? { Totp.MintMeans(d.totp, u, a.step.hashes); }
      }
    }
  }

  lemma LoginRemembers(d: Deployment, s: State, a: Action, user: Id, step: int)
    requires Numbered(s) && LoggedInAt(d, s, a, user, step)
    ensures Remembers(Next(d, s, a), user, step)
  {
    var u := s.users[user].factor;
    VerifyRemembers(d.totp, u, a.now, a.code);
    Totp.VerifyMeans(d.totp, u, a.now, a.code);
    Totp.AcceptedCode(d.totp, u.secret.value, a.code, u.lastStep, a.now);
    hide Totp.Outcome, Totp.Next;
  }

  lemma {:induction false} RunRemembers(d: Deployment, actions: seq<Action>, i: nat, user: Id, step: int)
    requires i < |actions| && LoggedInAt(d, Run(d, Empty, actions[..i]), actions[i], user, step)
    requires forall k :: i < k < |actions| ==> !Forgets(actions[k], user)
    ensures Remembers(Run(d, Empty, actions), user, step)
  {
    hide Next, Remembers, LoggedInAt, Forgets;
    var n := |actions| - 1;
    var before := actions[..n];
    RunKeepsNumbered(d, Empty, before);
    if i == n {
      LoginRemembers(d, Run(d, Empty, before), actions[n], user, step);
    } else {
      assert before[..i] == actions[..i];
      RunRemembers(d, before, i, user, step);
      StepRemembers(d, Run(d, Empty, before), actions[n], user, step);
    }
  }

  /** Over every run of accounts and sessions, the time-steps an account logs in with strictly
      increase until its second factor is set up anew or disabled, so no code logs in twice, however
      many challenges it is tried on and however the clock moves. */
  lemma NoCodeTwice(d: Deployment, actions: seq<Action>, i: nat, j: nat, user: Id, first: int, second: int)
    requires i < j < |actions|
    requires LoggedInAt(d, Run(d, Empty, actions[..i]), actions[i], user, first)
    requires LoggedInAt(d, Run(d, Empty, actions[..j]), actions[j], user, second)
    requires forall k :: i < k < j ==> !Forgets(actions[k], user)
    ensures first < second
  {
    hide Run, Forgets;
    var s := Run(d, Empty, actions[..j]);
    assert actions[..j][..i] == actions[..i];
    RunRemembers(d, actions[..j], i, user, first);
    var u := s.users[user].factor;
    Totp.AcceptedCode(d.totp, u.secret.value, actions[j].code, u.lastStep, actions[j].now);
  }

  // ----- the user table, updated in place -----

  class UserTable {
    var users: Users
    var nextId: Id

    ghost predicate Valid() reads this { forall u <- users :: u < nextId }

    constructor ()
      ensures Valid() && users == map[] && nextId == 0
    {
      users, nextId := map[], 0;
    }

    /** Seeds the first admin only into an empty table. */
    method EnsureFirstAdmin(haveCredentials: bool) returns (seeded: bool)
      requires Valid()
      modifies this
      ensures Valid()
      ensures seeded <==> haveCredentials && old(users) == map[]
      ensures users == if seeded then old(users)[old(nextId) := NewAccount(Admin, true, false)] else old(users)
      ensures seeded ==> Admins(users) != {}
    {
      if !haveCredentials { return false; }
      if users != map[] { return false; }
      users := users[nextId := NewAccount(Admin, true, false)];
      assert nextId in Admins(users);
      nextId := nextId + 1;
      return true;
    }

    method AcceptInvitation(id: Id) returns (ok: bool)
      requires Valid()
      modifies this`users
      ensures Valid() && users == Joined(old(users), id)
      ensures ok <==> id in old(users) && old(users)[id].invited
    {
      if id !in users || !users[id].invited { return false; }
      users := users[id := users[id].(invited := false)];
      users := users[id := users[id].(active := true)];
      users := users[id := users[id].(factor := users[id].factor.(version := users[id].factor.version + 1))];
      return true;
    }

    method CheckLockout(actor: Id, target: Id, c: Change) returns (r: Option<Protection>)
      requires target in users
      ensures r == Lockout(users, actor, target, c)
    {
      if target == actor {
        if c.Remove? { return Some(OwnAccount); }
        if c.role.Some? && c.role.value != users[target].role { return Some(OwnRole); }
        if c.active == Some(false) { return Some(OwnActivity); }
      }
      var isActiveAdmin := users[target].role.Admin? && users[target].active;
      var losesAdmin := c.Remove? || (c.role.Some? && !c.role.value.Admin?) || c.active == Some(false);
      if isActiveAdmin && losesAdmin && |Admins(users)| <= 1 { return Some(LastAdmin); }
      return None;
    }

    /** Returns, for each field that really changed, its value before and after. */
    method UpdateUser(actor: Id, target: Id, role: Option<Role>, active: Option<bool>)
      returns (r: Option<Protection>, roleChange: Option<(Role, Role)>, activeChange: Option<(bool, bool)>)
      requires Valid() && target in users
      modifies this`users
      ensures Valid() && users == Protected(old(users), actor, target, Edit(role, active))
      ensures r == Lockout(old(users), actor, target, Edit(role, active))
      ensures target in users
      ensures roleChange == if users[target].role == old(users)[target].role then None
                            else Some((old(users)[target].role, users[target].role))
      ensures activeChange == if users[target].active == old(users)[target].active then None
                              else Some((old(users)[target].active, users[target].active))
    {
      hide Lockout;
      roleChange, activeChange := None, None;
      r := CheckLockout(actor, target, Edit(role, active));
      if r.Some? { return; }
      if role.Some? && role.value != users[target].role {
        roleChange := Some((users[target].role, role.value));
        users := users[target := users[target].(role := role.value)];
      }
      if active.Some? && active.value != users[target].active {
        activeChange := Some((users[target].active, active.value));
        users := users[target := users[target].(active := active.value)];
      }
      assert users == Changed(old(users), target, Edit(role, active));
    }

    method DeleteUser(actor: Id, target: Id) returns (r: Option<Protection>)
      requires Valid() && target in users
      modifies this`users
      ensures Valid() && users == Protected(old(users), actor, target, Remove)
      ensures r == Lockout(old(users), actor, target, Remove)
    {
      r := CheckLockout(actor, target, Remove);
      if r.Some? { return; }
      users := users - {target};
    }

    /** An admin's reset and the user's own change: a new password ends the open sessions. */
    method SetPassword(id: Id)
      requires Valid() && id in users
      modifies this`users
      ensures Valid() && users == Bumped(old(users), id)
    {
      users := users[id := users[id].(factor := users[id].factor.(version := users[id].factor.version + 1))];
    }
  }
}
