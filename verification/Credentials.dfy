/** Accounts, web sessions and app passwords: what each transaction does to the
    credential generations, and what an accepted session proves over any
    interleaving of transactions. */
module Credentials {
  import opened Common
  import opened Times

  type Id = nat

  const MAX_ACTIVE_SESSIONS := 20

  datatype Role = Admin | Ordinary
  datatype Status = Active | Suspended

  datatype User = User(email: string, hash: string, role: Role, status: Status, auth: nat, protocol: nat)
  datatype Session = Session(user: Id, token: string, auth: nat, createdAt: Time, expiresAt: Time, lastSeen: Time)
  datatype AppPassword = AppPassword(user: Id, secret: string, revoked: bool)

  datatype Accounts = Accounts(
    users: map<Id, User>,
    sessions: map<Id, Session>,
    appPasswords: map<Id, AppPassword>,
    nextId: Id,
    now: Time)

  const NoAccounts := Accounts(map[], map[], map[], 0, 0)

  /** What an administrator or the owner changes; absent parts stay. */
  datatype Update = Update(status: Option<Status>, role: Option<Role>, hash: Option<string>)

  datatype Op =
    | CreateUser(email: string, hash: string, role: Role)
    | UpdateUser(id: Id, update: Update)
    | CreateSession(user: Id, expected: nat, token: string, expiresAt: Time)
    | Visit(token: string)
    | DeleteSession(token: string)
    | DeleteExpired
    | CreateAppPassword(user: Id, name: string, secret: string)
    | RevokeAppPassword(user: Id, id: Id)
    | Tick(elapsed: nat)

  // ----------------------------------------------------------- transactions

  predicate IsActiveAdmin(u: User) {
    u.role == Admin && u.status == Active
  }

  function ActiveAdmins(users: map<Id, User>): set<Id> {
    set u | u in users && IsActiveAdmin(users[u])
  }

  /** A new password or status starts a new generation of all credentials. */
  predicate Bumps(update: Update) {
    update.hash.Some? || update.status.Some?
  }

  function Revised(u: User, update: Update): User {
    u.(role := if update.role.Some? then update.role.value else u.role,
       status := if update.status.Some? then update.status.value else u.status,
       hash := if update.hash.Some? then update.hash.value else u.hash,
       auth := if Bumps(update) then u.auth + 1 else u.auth,
       protocol := if Bumps(update) then u.protocol + 1 else u.protocol)
  }

  /** The new row has what the update gives and keeps the rest; a new password or
      status raises both versions. */
  predicate RowUpdated(before: User, after: User, update: Update) {
    && after.email == before.email
    && after.hash == (if update.hash.Some? then update.hash.value else before.hash)
    && after.role == (if update.role.Some? then update.role.value else before.role)
    && after.status == (if update.status.Some? then update.status.value else before.status)
    && after.auth == before.auth + (if update.hash.Some? || update.status.Some? then 1 else 0)
    && after.protocol == before.protocol + (if update.hash.Some? || update.status.Some? then 1 else 0)
  }

  lemma RevisedIsUpdated(u: User, update: Update)
    ensures RowUpdated(u, Revised(u, update), update)
  {
  }

  /** A new password or a suspension also ends sessions and app passwords. */
  predicate Ends(update: Update) {
    update.hash.Some? || update.status == Some(Suspended)
  }

  function SessionsWithout(sessions: map<Id, Session>, user: Id): map<Id, Session> {
    map s | s in sessions && sessions[s].user != user :: sessions[s]
  }

  function RevokedFor(p: AppPassword, user: Id): AppPassword {
    if p.user == user then p.(revoked := true) else p
  }

  function AllRevoked(appPasswords: map<Id, AppPassword>, user: Id): map<Id, AppPassword> {
    map p | p in appPasswords :: RevokedFor(appPasswords[p], user)
  }

  /** The update would take the last active administrator away. */
  predicate LosesLastAdmin(users: map<Id, User>, id: Id, update: Update)
    requires id in users
  {
    IsActiveAdmin(users[id]) && !IsActiveAdmin(Revised(users[id], update)) && |ActiveAdmins(users)| <= 1
  }

  /** An update is refused exactly when it takes the only active administrator
      away. */
  lemma LosesLastAdminIs(users: map<Id, User>, id: Id, update: Update)
    requires id in users
    ensures LosesLastAdmin(users, id, update) <==>
              && users[id].role == Admin && users[id].status == Active
              && (update.role == Some(Ordinary) || update.status == Some(Suspended))
              && forall u :: u in users && u != id ==> !(users[u].role == Admin && users[u].status == Active)
  {
    var admins := ActiveAdmins(users);
    if IsActiveAdmin(users[id]) {
      assert id in admins;
      assert |admins - {id}| == |admins| - 1;
      if |admins| <= 1 {
        assert admins - {id} == {};
        forall u | u in users && u != id ensures !IsActiveAdmin(users[u]) {
          assert u !in admins - {id};
        }
      } else {
        assert admins - {id} != {};
        var u :| u in admins - {id};
        assert IsActiveAdmin(users[u]);
      }
    }
  }

  function Updated(a: Accounts, id: Id, update: Update): Option<Accounts> {
    if id !in a.users || LosesLastAdmin(a.users, id, update) then None
    else
      Some(a.(users := a.users[id := Revised(a.users[id], update)],
              sessions := if Ends(update) then SessionsWithout(a.sessions, id) else a.sessions,
              appPasswords := if Ends(update) then AllRevoked(a.appPasswords, id) else a.appPasswords))
  }

  function Unexpired(sessions: map<Id, Session>, now: Time): map<Id, Session> {
    map s | s in sessions && sessions[s].expiresAt > now :: sessions[s]
  }

  /** The order of eviction: last seen, then created, then the id. */
  predicate Newer(sessions: map<Id, Session>, r: Id, s: Id)
    requires r in sessions && s in sessions
  {
    var a, b := sessions[r], sessions[s];
    a.lastSeen > b.lastSeen || (a.lastSeen == b.lastSeen
      && (a.createdAt > b.createdAt || (a.createdAt == b.createdAt && r > s)))
  }

  /** The user's sessions that are newer than one. */
  function Rivals(sessions: map<Id, Session>, user: Id, s: Id): set<Id>
    requires s in sessions
  {
    set r | r in sessions && sessions[r].user == user && Newer(sessions, r, s)
  }

  /** The user's newest n sessions, and everybody else's. */
  function Newest(sessions: map<Id, Session>, user: Id, n: nat): map<Id, Session> {
    map s | s in sessions && (sessions[s].user != user || |Rivals(sessions, user, s)| < n) :: sessions[s]
  }

  predicate TokenTaken(sessions: map<Id, Session>, token: string) {
    exists s :: s in sessions && sessions[s].token == token
  }

  /** The new session, if the user is active and still of the expected
      generation. */
  function Opened(a: Accounts, user: Id, expected: nat, token: string, expiresAt: Time): Option<Accounts> {
    var kept := Newest(Unexpired(a.sessions, a.now), user, MAX_ACTIVE_SESSIONS - 1);
    if user !in a.users || a.users[user].status != Active || a.users[user].auth != expected
      || TokenTaken(kept, token) then None
    else Some(a.(sessions := kept[a.nextId := Session(user, token, expected, a.now, expiresAt, a.now)],
      nextId := a.nextId + 1))
  }

  /** The session lets its user in: not expired, the user active, and of the
      user's current generation. */
  predicate Lets(a: Accounts, s: Id) {
    && s in a.sessions && a.sessions[s].expiresAt > a.now && a.sessions[s].user in a.users
    && a.users[a.sessions[s].user].status == Active && a.sessions[s].auth == a.users[a.sessions[s].user].auth
  }

  function Seen(s: Session, token: string, now: Time): Session {
    if s.token == token then s.(lastSeen := now) else s
  }

  function Visited(a: Accounts, token: string): Accounts {
    if exists s :: s in a.sessions && Lets(a, s) && a.sessions[s].token == token
    then a.(sessions := map s | s in a.sessions :: Seen(a.sessions[s], token, a.now))
    else a
  }

  predicate EmailTaken(users: map<Id, User>, email: string) {
    exists u :: u in users && users[u].email == email
  }

  function Apply(a: Accounts, op: Op): Option<Accounts> {
    match op
    case CreateUser(email, hash, role) =>
      if EmailTaken(a.users, email) then None
      else Some(a.(users := a.users[a.nextId := User(email, hash, role, Active, 1, 1)], nextId := a.nextId + 1))
    case UpdateUser(id, update) => Updated(a, id, update)
    case CreateSession(user, expected, token, expiresAt) => Opened(a, user, expected, token, expiresAt)
    case Visit(token) => Some(Visited(a, token))
    case DeleteSession(token) => Some(a.(sessions := map s | s in a.sessions
      && a.sessions[s].token != token :: a.sessions[s]))
    case DeleteExpired => Some(a.(sessions := Unexpired(a.sessions, a.now)))
    case CreateAppPassword(user, name, secret) =>
      if Trim(name) == [] || user !in a.users then None
      else Some(a.(appPasswords := a.appPasswords[a.nextId := AppPassword(user, secret, false)],
        nextId := a.nextId + 1))
    case RevokeAppPassword(user, id) =>
      if id !in a.appPasswords || a.appPasswords[id].user != user || a.appPasswords[id].revoked
        || user !in a.users then None
      else Some(a.(appPasswords := a.appPasswords[id := a.appPasswords[id].(revoked := true)],
                   users := a.users[user := a.users[user].(protocol := a.users[user].protocol + 1)]))
    case Tick(elapsed) => Some(a.(now := a.now + elapsed))
  }

  /** An error leaves the accounts as they were. */
  function Next(a: Accounts, op: Op): Accounts {
    match Apply(a, op)
    case None => a
    case Some(b) => b
  }

  predicate Run(states: seq<Accounts>, ops: seq<Op>) {
    && |states| == |ops| + 1 && states[0] == NoAccounts
    && forall i :: 0 <= i < |ops| ==> states[i + 1] == Next(states[i], ops[i])
  }

  // -------------------------------------------------------------- invariant

  function SessionsOf(sessions: map<Id, Session>, user: Id): set<Id> {
    set s | s in sessions && sessions[s].user == user
  }

  /** Ids are below the counter, rows belong to existing users. */
  predicate Numbered(a: Accounts) {
    && (forall u :: u in a.users ==> u < a.nextId)
    && (forall s :: s in a.sessions ==> s < a.nextId && a.sessions[s].user in a.users)
    && (forall p :: p in a.appPasswords ==> p < a.nextId && a.appPasswords[p].user in a.users)
  }

  /** No session is ahead of its user's generation. */
  predicate NotAhead(a: Accounts) {
    forall s :: s in a.sessions && a.sessions[s].user in a.users ==>
      a.sessions[s].auth <= a.users[a.sessions[s].user].auth
  }

  predicate TokensDistinct(sessions: map<Id, Session>) {
    forall r, s :: r in sessions && s in sessions && sessions[r].token == sessions[s].token ==> r == s
  }

  predicate EmailsDistinct(users: map<Id, User>) {
    forall u, v :: u in users && v in users && users[u].email == users[v].email ==> u == v
  }

  ghost predicate FewSessions(sessions: map<Id, Session>) {
    forall u :: |SessionsOf(sessions, u)| <= MAX_ACTIVE_SESSIONS
  }

  ghost predicate Inv(a: Accounts) {
    Numbered(a) && NotAhead(a) && EmailsDistinct(a.users) && TokensDistinct(a.sessions) && FewSessions(a.sessions)
  }

  lemma {:induction false} Oldest(sessions: map<Id, Session>, among: set<Id>) returns (o: Id)
    requires among != {} && among <= sessions.Keys
    ensures o in among && forall s :: s in among && s != o ==> Newer(sessions, s, o)
    decreases |among|
  {
    var x :| x in among;
    if among == {x} {
      o := x;
    } else {
      var rest := Oldest(sessions, among - {x});
      assert rest in among;
      o := if Newer(sessions, rest, x) then x else rest;
      forall s | s in among && s != o ensures Newer(sessions, s, o) {
        if s != x && s != rest {
          assert s in among - {x};
        }
      }
    }
  }

  /** The newest n sessions of a user are at most n. */
  lemma NewestAreFew(sessions: map<Id, Session>, user: Id, n: nat)
    ensures |SessionsOf(Newest(sessions, user, n), user)| <= n
  {
    var mine := SessionsOf(Newest(sessions, user, n), user);
    if mine != {} {
      var o := Oldest(sessions, mine);
      assert mine - {o} <= Rivals(sessions, user, o);
      SubsetSize(mine - {o}, Rivals(sessions, user, o));
    }
  }

  lemma RivalsGrow(sessions: map<Id, Session>, user: Id, r: Id, s: Id)
    requires r in sessions && s in sessions && Newer(sessions, s, r)
    ensures |Rivals(sessions, user, s)| <= |Rivals(sessions, user, r)|
  {
    SubsetSize(Rivals(sessions, user, s), Rivals(sessions, user, r));
  }

  /** An evicted session is older than every session its user keeps, and nothing
      is evicted from a user with no more than n. */
  lemma EvictionTakesTheOldest(sessions: map<Id, Session>, user: Id, n: nat, r: Id, s: Id)
    requires r in Newest(sessions, user, n) && sessions[r].user == user
    requires s in sessions && s !in Newest(sessions, user, n)
    ensures Newer(sessions, r, s) && |SessionsOf(sessions, user)| > n
  {
    if Newer(sessions, s, r) {
      RivalsGrow(sessions, user, r, s);
    }
    assert Rivals(sessions, user, s) <= SessionsOf(sessions, user) - {s};
    SubsetSize(Rivals(sessions, user, s), SessionsOf(sessions, user) - {s});
  }

  /** Fewer sessions, or the same with later visits. */
  predicate Shrinks(before: map<Id, Session>, after: map<Id, Session>) {
    forall s :: s in after ==> s in before && after[s].(lastSeen := before[s].lastSeen) == before[s]
  }

  lemma FewerStayFew(before: map<Id, Session>, after: map<Id, Session>)
    requires FewSessions(before) && Shrinks(before, after)
    ensures FewSessions(after)
  {
    forall u ensures |SessionsOf(after, u)| <= MAX_ACTIVE_SESSIONS {
      assert |SessionsOf(before, u)| <= MAX_ACTIVE_SESSIONS;
      SubsetSize(SessionsOf(after, u), SessionsOf(before, u));
    }
  }

  lemma SessionsWithOneMore(sessions: map<Id, Session>, id: Id, s: Session, u: Id)
    requires id !in sessions
    ensures |SessionsOf(sessions[id := s], u)| == |SessionsOf(sessions, u)| + if u == s.user then 1 else 0
  {
    var more := sessions[id := s];
    assert SessionsOf(more, u) == SessionsOf(sessions, u) + if u == s.user then {id} else {};
  }

  lemma NewestShrinks(sessions: map<Id, Session>, user: Id, n: nat)
    ensures Shrinks(sessions, Newest(sessions, user, n))
  {
    hide Rivals;
  }

  lemma OneMoreIsFew(sessions: map<Id, Session>, user: Id, id: Id, s: Session)
    requires FewSessions(sessions) && s.user == user && id !in sessions
    ensures FewSessions(Newest(sessions, user, MAX_ACTIVE_SESSIONS - 1)[id := s])
  {
    var kept := Newest(sessions, user, MAX_ACTIVE_SESSIONS - 1);
    assert id !in kept by {
      NewestShrinks(sessions, user, MAX_ACTIVE_SESSIONS - 1);
    }
    hide Newest;
    NewestShrinks(sessions, user, MAX_ACTIVE_SESSIONS - 1);
    FewerStayFew(sessions, kept);
    NewestAreFew(sessions, user, MAX_ACTIVE_SESSIONS - 1);
    hide SessionsOf, Shrinks;
    var more := kept[id := s];
    forall u ensures |SessionsOf(more, u)| <= MAX_ACTIVE_SESSIONS {
      assert |SessionsOf(kept, u)| <= MAX_ACTIVE_SESSIONS;
      SessionsWithOneMore(kept, id, s, u);
    }
  }

  lemma OpenedFew(a: Accounts, user: Id, expected: nat, token: string, expiresAt: Time)
    requires Numbered(a) && FewSessions(a.sessions) && Opened(a, user, expected, token, expiresAt).Some?
    ensures FewSessions(Opened(a, user, expected, token, expiresAt).value.sessions)
  {
    var live := Unexpired(a.sessions, a.now);
    FewerStayFew(a.sessions, live);
    OneMoreIsFew(live, user, a.nextId, Session(user, token, expected, a.now, expiresAt, a.now));
  }

  lemma OthersShrink(a: Accounts, op: Op)
    requires !op.CreateSession?
    ensures Shrinks(a.sessions, Next(a, op).sessions)
  {
  }

  lemma StepFew(a: Accounts, op: Op)
    requires Numbered(a) && FewSessions(a.sessions)
    ensures FewSessions(Next(a, op).sessions)
  {
    hide FewSessions, Shrinks, Newest, Unexpired;
    if op.CreateSession? {
      if Apply(a, op).Some? {
        OpenedFew(a, op.user, op.expected, op.token, op.expiresAt);
      }
    } else {
      OthersShrink(a, op);
      hide Next;
      FewerStayFew(a.sessions, Next(a, op).sessions);
    }
  }

  lemma StepNumbered(a: Accounts, op: Op)
    requires Numbered(a)
    ensures Numbered(Next(a, op))
  {
    hide Rivals, LosesLastAdmin;
  }

  lemma StepNotAhead(a: Accounts, op: Op)
    requires Numbered(a) && NotAhead(a)
    ensures NotAhead(Next(a, op))
  {
    hide Rivals, LosesLastAdmin;
  }

  lemma StepTokens(a: Accounts, op: Op)
    requires TokensDistinct(a.sessions)
    ensures TokensDistinct(Next(a, op).sessions)
  {
    hide Rivals, LosesLastAdmin;
  }

  lemma StepEmails(a: Accounts, op: Op)
    requires EmailsDistinct(a.users)
    ensures EmailsDistinct(Next(a, op).users)
  {
    hide Rivals, LosesLastAdmin;
  }

  lemma StepKeeps(a: Accounts, op: Op)
    requires Inv(a)
    ensures Inv(Next(a, op))
  {
    StepFew(a, op);
    StepNumbered(a, op);
    StepNotAhead(a, op);
    StepTokens(a, op);
    StepEmails(a, op);
    hide Numbered, NotAhead, EmailsDistinct, TokensDistinct, FewSessions, Next;
  }

  lemma {:induction false} RunKeepsInvariant(states: seq<Accounts>, ops: seq<Op>, i: nat)
    requires Run(states, ops) && i < |states|
    ensures Inv(states[i])
    decreases i
  {
    if i == 0 {
      forall u ensures |SessionsOf(NoAccounts.sessions, u)| <= MAX_ACTIVE_SESSIONS {
        assert SessionsOf(NoAccounts.sessions, u) == {};
      }
    } else {
      RunKeepsInvariant(states, ops, i - 1);
      StepKeeps(states[i - 1], ops[i - 1]);
      hide Next, Inv;
    }
  }

  // ------------------------------------------------------------ generations

  /** The transaction gives the user a new password or status. */
  predicate ChangesCredentials(a: Accounts, op: Op, u: Id) {
    op.UpdateUser? && op.id == u && Bumps(op.update) && Apply(a, op).Some?
  }

  /** The transaction revokes one of the user's app passwords. */
  predicate Revokes(a: Accounts, op: Op, u: Id) {
    op.RevokeAppPassword? && op.user == u && Apply(a, op).Some?
  }

  /** How many of the steps i..j change the user's credentials. */
  function Changes(states: seq<Accounts>, ops: seq<Op>, u: Id, i: nat, j: nat): nat
    requires i <= j <= |ops| && |states| == |ops| + 1
  {
    if i == j then 0
    else
      Changes(states, ops, u, i, j - 1) + if ChangesCredentials(states[j - 1], ops[j - 1], u) then 1 else 0
  }

  function Revocations(states: seq<Accounts>, ops: seq<Op>, u: Id, i: nat, j: nat): nat
    requires i <= j <= |ops| && |states| == |ops| + 1
  {
    if i == j then 0 else Revocations(states, ops, u, i, j - 1) + if Revokes(states[j - 1], ops[j - 1], u) then 1 else 0
  }

  /** The user after some changes and revocations. */
  predicate Counted(before: User, after: User, changes: nat, revocations: nat) {
    && after.auth == before.auth + changes && after.protocol == before.protocol + changes + revocations
    && (changes == 0 ==> after.hash == before.hash && after.status == before.status)
  }

  lemma CountedMore(before: User, middle: User, after: User, c: nat, r: nat, d: nat, q: nat)
    requires Counted(before, middle, c, r) && Counted(middle, after, d, q)
    ensures Counted(before, after, c + d, r + q)
  {
  }

  lemma StepGenerations(a: Accounts, op: Op, u: Id)
    requires Numbered(a) && u in a.users
    ensures u in Next(a, op).users
    ensures Counted(a.users[u], Next(a, op).users[u], if ChangesCredentials(a, op, u) then 1 else 0,
                    if Revokes(a, op, u) then 1 else 0)
  {
    hide Rivals, LosesLastAdmin, Newest, Unexpired, SessionsWithout, AllRevoked;
  }

  /** Generations count: the authentication version by password and status
      changes, the protocol version by those and revocations. */
  lemma {:induction false} GenerationsCount(states: seq<Accounts>, ops: seq<Op>, u: Id, i: nat, j: nat)
    requires Run(states, ops) && i <= j <= |ops| && u in states[i].users
    ensures u in states[j].users
    ensures Counted(states[i].users[u], states[j].users[u], Changes(states, ops, u, i, j),
            Revocations(states, ops, u, i, j))
    decreases j
  {
    if i < j {
      GenerationsCount(states, ops, u, i, j - 1);
      NumberedAlways(states, ops, j - 1);
      assert states[j] == Next(states[j - 1], ops[j - 1]);
      hide Run, Numbered, Next, ChangesCredentials, Revokes, Counted;
      var a, op := states[j - 1], ops[j - 1];
      StepGenerations(a, op, u);
      CountedMore(states[i].users[u], a.users[u], states[j].users[u], Changes(states, ops, u, i, j - 1),
        Revocations(states, ops, u, i, j - 1),
                  if ChangesCredentials(a, op, u) then 1 else 0, if Revokes(a, op, u) then 1 else 0);
    }
  }

  lemma {:induction false} NoneChanged(states: seq<Accounts>, ops: seq<Op>, u: Id, i: nat, j: nat, k: nat)
    requires |states| == |ops| + 1 && i <= k < j <= |ops|
    ensures ChangesCredentials(states[k], ops[k], u) ==> Changes(states, ops, u, i, j) > 0
    ensures Revokes(states[k], ops[k], u) ==> Revocations(states, ops, u, i, j) > 0
    decreases j
  {
    hide ChangesCredentials, Revokes;
    if k < j - 1 {
      NoneChanged(states, ops, u, i, j - 1, k);
    }
  }

  // --------------------------------------------------------------- sessions

  /** A session that lets its user in, of the generation the user had at step i,
      has seen no password or status change since: the credential checked then
      is the current one. */
  lemma AcceptedWebSession(states: seq<Accounts>, ops: seq<Op>, i: nat, j: nat, s: Id)
    requires Run(states, ops) && i <= j <= |ops| && Lets(states[j], s)
    requires var u := states[j].sessions[s].user;
               u in states[i].users && states[j].sessions[s].auth == states[i].users[u].auth
    ensures var u := states[j].sessions[s].user;
            && (forall k :: i <= k < j ==> !ChangesCredentials(states[k], ops[k], u))
            && states[j].users[u].hash == states[i].users[u].hash && states[i].users[u].status == Active
  {
    var u := states[j].sessions[s].user;
    GenerationsCount(states, ops, u, i, j);
    forall k | i <= k < j ensures !ChangesCredentials(states[k], ops[k], u) {
      NoneChanged(states, ops, u, i, j, k);
    }
    hide Run, ChangesCredentials;
  }

  /** The same session, seen again. */
  predicate SameSession(before: Session, after: Session) {
    after.(lastSeen := before.lastSeen) == before
  }

  lemma StepSession(a: Accounts, op: Op, s: Id)
    requires Numbered(a) && s < a.nextId && s in Next(a, op).sessions
    ensures s in a.sessions && SameSession(a.sessions[s], Next(a, op).sessions[s])
  {
    hide Rivals, LosesLastAdmin;
  }

  /** A session keeps its user, token and generation for as long as it exists,
      and its id is not used again. */
  lemma {:induction false} SessionIsFixed(states: seq<Accounts>, ops: seq<Op>, i: nat, j: nat, s: Id)
    requires Run(states, ops) && i <= j <= |ops| && s < states[i].nextId && s in states[j].sessions
    ensures s in states[i].sessions && SameSession(states[i].sessions[s], states[j].sessions[s])
    decreases j
  {
    hide *;
    RunLength(states, ops);
    if i < j {
      LastStep(states, ops, j);
      NumberedAlways(states, ops, j - 1);
      IdsGrow(states, ops, i, j - 1);
      StepSession(states[j - 1], ops[j - 1], s);
      SessionIsFixed(states, ops, i, j - 1, s);
      SameSessionTransitive(states[i].sessions[s], states[j - 1].sessions[s], states[j].sessions[s]);
    } else {
      SameSessionReflexive(states[j].sessions[s]);
    }
  }

  lemma SameSessionReflexive(a: Session)
    ensures SameSession(a, a)
  {
  }

  lemma SameSessionTransitive(a: Session, b: Session, c: Session)
    requires SameSession(a, b) && SameSession(b, c)
    ensures SameSession(a, c)
  {
  }

  lemma RunLength(states: seq<Accounts>, ops: seq<Op>)
    requires Run(states, ops)
    ensures |states| == |ops| + 1
  {
  }

  lemma LastStep(states: seq<Accounts>, ops: seq<Op>, j: nat)
    requires Run(states, ops) && 0 < j <= |ops|
    ensures j < |states| && states[j] == Next(states[j - 1], ops[j - 1])
  {
    hide Next;
  }

  lemma NumberedAlways(states: seq<Accounts>, ops: seq<Op>, i: nat)
    requires Run(states, ops) && i < |states|
    ensures Numbered(states[i])
  {
    RunKeepsInvariant(states, ops, i);
  }

  lemma {:induction false} IdsGrow(states: seq<Accounts>, ops: seq<Op>, i: nat, j: nat)
    requires Run(states, ops) && i <= j <= |ops|
    ensures states[i].nextId <= states[j].nextId
    decreases j
  {
    if i < j {
      IdsGrow(states, ops, i, j - 1);
      assert states[j - 1].nextId <= Next(states[j - 1], ops[j - 1]).nextId by {
        hide Rivals, LosesLastAdmin;
      }
      hide Next;
    }
  }

  /** A login in three separate steps: the user row is read at step i, the
      credential checked against it, the session created at step m with the
      version read, and used at step j. Whatever happens in between, an accepted
      use means that no password or status change did. */
  lemma LoginIsCurrent(states: seq<Accounts>, ops: seq<Op>, i: nat, m: nat, j: nat, u: Id)
    requires Run(states, ops) && i <= m < j <= |ops| && u in states[i].users
    requires ops[m].CreateSession? && ops[m].user == u && ops[m].expected == states[i].users[u].auth
             && Apply(states[m], ops[m]).Some?
    requires Lets(states[j], states[m].nextId)
    ensures forall k :: i <= k < j ==> !ChangesCredentials(states[k], ops[k], u)
    ensures states[j].sessions[states[m].nextId].user == u && states[j].users[u].hash == states[i].users[u].hash
  {
    var s := states[m].nextId;
    assert s in states[m + 1].sessions && states[m + 1].sessions[s].user == u
      && states[m + 1].sessions[s].auth == ops[m].expected
           && s < states[m + 1].nextId by {
      hide Newest, Unexpired;
    }
    hide Next, Apply;
    SessionIsFixed(states, ops, m + 1, j, s);
    AcceptedWebSession(states, ops, i, j, s);
  }

  /** A session that exists when its user's password or status changes never lets
      anybody in again: suspending and reactivating revives nothing. */
  lemma NeverRevived(states: seq<Accounts>, ops: seq<Op>, k: nat, j: nat, s: Id)
    requires Run(states, ops) && k < j <= |ops| && s in states[k].sessions
    requires ChangesCredentials(states[k], ops[k], states[k].sessions[s].user)
    ensures !Lets(states[j], s)
  {
    var u := states[k].sessions[s].user;
    RunKeepsInvariant(states, ops, k);
    GenerationsCount(states, ops, u, k, j);
    NoneChanged(states, ops, u, k, j, k);
    if s in states[j].sessions {
      SessionIsFixed(states, ops, k, j, s);
    }
    hide Run, ChangesCredentials, FewSessions, TokensDistinct, EmailsDistinct;
  }

  /** At most one session lets in with a token, and its user has at most twenty. */
  lemma SessionsAreBounded(states: seq<Accounts>, ops: seq<Op>, i: nat, u: Id, r: Id, s: Id)
    requires Run(states, ops) && i < |states| && r in states[i].sessions && s in states[i].sessions
    ensures |SessionsOf(states[i].sessions, u)| <= MAX_ACTIVE_SESSIONS
    ensures states[i].sessions[r].token == states[i].sessions[s].token ==> r == s
  {
    RunKeepsInvariant(states, ops, i);
  }

  // --------------------------------------------------- protocol connections

  /** What an authenticated IMAP or SMTP connection checks before it acts: the
      account is active and of the protocol version it logged in with. */
  predicate Admits(a: Accounts, u: Id, version: nat) {
    u in a.users && a.users[u].status == Active && a.users[u].protocol == version
  }

  /** A connection that passes the check has seen no password or status change
      and no revocation since its account row was read. */
  lemma AcceptedProtocolSession(states: seq<Accounts>, ops: seq<Op>, i: nat, j: nat, u: Id)
    requires Run(states, ops) && i <= j <= |ops| && u in states[i].users
    requires Admits(states[j], u, states[i].users[u].protocol)
    ensures forall k :: i <= k < j ==> !ChangesCredentials(states[k], ops[k], u) && !Revokes(states[k], ops[k], u)
    ensures states[j].users[u].hash == states[i].users[u].hash && states[i].users[u].status == Active
  {
    GenerationsCount(states, ops, u, i, j);
    forall k | i <= k < j ensures !ChangesCredentials(states[k], ops[k], u) && !Revokes(states[k], ops[k], u) {
      NoneChanged(states, ops, u, i, j, k);
    }
    hide Run, ChangesCredentials, Revokes;
  }

  /** Conversely, while the account is active, only those events close the
      connection. */
  lemma RefusedProtocolSession(states: seq<Accounts>, ops: seq<Op>, i: nat, j: nat, u: Id)
    requires Run(states, ops) && i <= j <= |ops| && u in states[i].users && states[i].users[u].status == Active
    ensures Admits(states[j], u, states[i].users[u].protocol) <==>
            Changes(states, ops, u, i, j) + Revocations(states, ops, u, i, j) == 0
  {
    GenerationsCount(states, ops, u, i, j);
    hide Run;
  }

  lemma StepAppPassword(a: Accounts, op: Op, p: Id)
    requires Numbered(a) && p in a.appPasswords
    ensures var b := Next(a, op);
            && p in b.appPasswords && b.appPasswords[p].user == a.appPasswords[p].user
               && b.appPasswords[p].secret == a.appPasswords[p].secret
            && (a.appPasswords[p].revoked ==> b.appPasswords[p].revoked)
            && (!a.appPasswords[p].revoked && b.appPasswords[p].revoked ==>
                  ChangesCredentials(a, op, a.appPasswords[p].user) || Revokes(a, op, a.appPasswords[p].user))
  {
    hide Rivals, LosesLastAdmin, Newest, Unexpired, SessionsWithout;
  }

  lemma {:induction false} AppPasswordStays(states: seq<Accounts>, ops: seq<Op>, m: nat, j: nat, p: Id)
    requires Run(states, ops) && m <= j <= |ops| && p in states[m].appPasswords && !states[m].appPasswords[p].revoked
    requires var u := states[m].appPasswords[p].user;
             forall k :: m <= k < j ==> !ChangesCredentials(states[k], ops[k], u) && !Revokes(states[k], ops[k], u)
    ensures p in states[j].appPasswords && !states[j].appPasswords[p].revoked
            && states[j].appPasswords[p].user == states[m].appPasswords[p].user
    decreases j
  {
    if m < j {
      AppPasswordStays(states, ops, m, j - 1, p);
      NumberedAlways(states, ops, j - 1);
      StepAppPassword(states[j - 1], ops[j - 1], p);
      hide Next, ChangesCredentials, Revokes, Numbered;
    }
  }

  /** A connection that logged in with an app password, read at step i and found
      unrevoked at step m, passes the check only while that app password is
      still not revoked. */
  lemma AppPasswordIsCurrent(states: seq<Accounts>, ops: seq<Op>, i: nat, m: nat, j: nat, u: Id, p: Id)
    requires Run(states, ops) && i <= m <= j <= |ops| && u in states[i].users
    requires p in states[m].appPasswords && states[m].appPasswords[p].user == u && !states[m].appPasswords[p].revoked
    requires Admits(states[j], u, states[i].users[u].protocol)
    ensures p in states[j].appPasswords && !states[j].appPasswords[p].revoked
  {
    AcceptedProtocolSession(states, ops, i, j, u);
    hide Admits, ChangesCredentials, Revokes;
    AppPasswordStays(states, ops, m, j, p);
  }

  // --------------------------------------------------------- administrators

  lemma StepKeepsAdmin(a: Accounts, op: Op)
    requires Numbered(a) && ActiveAdmins(a.users) != {}
    ensures ActiveAdmins(Next(a, op).users) != {}
  {
    var b := Next(a, op);
    hide Rivals, Newest, Unexpired, SessionsWithout, AllRevoked;
    if op.UpdateUser? && op.id in a.users && IsActiveAdmin(a.users[op.id]) {
      if Apply(a, op).Some? {
        if IsActiveAdmin(b.users[op.id]) {
          assert op.id in ActiveAdmins(b.users);
        } else {
          AnotherAdmin(ActiveAdmins(a.users), op.id);
          var other :| other in ActiveAdmins(a.users) && other != op.id;
          assert other in ActiveAdmins(b.users);
        }
      }
    } else {
      var admin :| admin in ActiveAdmins(a.users);
      assert admin in ActiveAdmins(b.users);
    }
  }

  lemma AnotherAdmin(admins: set<Id>, id: Id)
    requires |admins| > 1
    ensures exists other :: other in admins && other != id
  {
    var x :| x in admins;
    if x == id {
      assert |admins - {x}| > 0;
      var y :| y in admins - {x};
    }
  }

  /** Once there is an active administrator there always is one. */
  lemma {:induction false} AnAdminStays(states: seq<Accounts>, ops: seq<Op>, i: nat, j: nat)
    requires Run(states, ops) && i <= j <= |ops| && ActiveAdmins(states[i].users) != {}
    ensures ActiveAdmins(states[j].users) != {}
    decreases j
  {
    if i < j {
      AnAdminStays(states, ops, i, j - 1);
      RunKeepsInvariant(states, ops, j - 1);
      StepKeepsAdmin(states[j - 1], ops[j - 1]);
      hide Next, Inv;
    }
  }
}
