/** What each transaction on accounts leaves of the rows, and when it is refused,
    said of the tables before and after it. */
module AccountRows {
  import opened Common
  import opened Times
  import opened Credentials

  /** Nobody else is an active administrator. */
  predicate OnlyAdmin(users: map<Id, User>, id: Id) {
    forall u :: u in users && u != id ==> users[u].role != Admin || users[u].status != Active
  }

  /** An update is refused for an account that is not there, and when it takes the
      only active administrator away. A new password and a suspension end the
      sessions of the account and revoke its app passwords. */
  lemma UpdateLeaves(a: Accounts, id: Id, update: Update)
    ensures Apply(a, UpdateUser(id, update)).None? <==>
              id !in a.users
              || (&& a.users[id].role == Admin && a.users[id].status == Active && OnlyAdmin(a.users, id)
                  && (update.role == Some(Ordinary) || update.status == Some(Suspended)))
    ensures forall b :: Apply(a, UpdateUser(id, update)) == Some(b) ==>
              && id in a.users && b.users.Keys == a.users.Keys && b.nextId == a.nextId && b.now == a.now
              && (forall u :: u in a.users && u != id ==> b.users[u] == a.users[u])
              && RowUpdated(a.users[id], b.users[id], update)
              && var ends := update.hash.Some? || update.status == Some(Suspended);
                 && (forall s :: s in b.sessions <==> s in a.sessions && !(ends && a.sessions[s].user == id))
                 && (forall s :: s in b.sessions ==> b.sessions[s] == a.sessions[s])
                 && b.appPasswords.Keys == a.appPasswords.Keys
                 && (forall p :: p in a.appPasswords ==>
                       b.appPasswords[p] == if ends && a.appPasswords[p].user == id
                                            then a.appPasswords[p].(revoked := true) else a.appPasswords[p])
  {
    if id in a.users {
      LosesLastAdminIs(a.users, id, update);
    }
    hide LosesLastAdmin;
  }

  lemma CreateUserLeaves(a: Accounts, email: string, hash: string, role: Role)
    ensures Apply(a, CreateUser(email, hash, role)) ==
            if exists u :: u in a.users && a.users[u].email == email then None
            else Some(a.(users := a.users[a.nextId := User(email, hash, role, Active, 1, 1)], nextId := a.nextId + 1))
  {
  }

  /** The session is alive: it has not expired. */
  predicate Alive(a: Accounts, s: Id) {
    s in a.sessions && a.sessions[s].expiresAt > a.now
  }

  /** Session r of the user comes before s when the newest ones are kept. */
  predicate Ahead(a: Accounts, user: Id, r: Id, s: Id) {
    && Alive(a, r) && s in a.sessions && a.sessions[r].user == user
    && var x, y := a.sessions[r], a.sessions[s];
       || x.lastSeen > y.lastSeen
       || (x.lastSeen == y.lastSeen && x.createdAt > y.createdAt)
       || (x.lastSeen == y.lastSeen && x.createdAt == y.createdAt && r > s)
  }

  /** The sessions a login leaves: those alive that are not the user's or have
      fewer than nineteen of the user's ahead of them. */
  ghost predicate Stays(a: Accounts, user: Id, s: Id) {
    Alive(a, s) && (a.sessions[s].user == user ==> |set r | r in a.sessions && Ahead(a, user, r, s)| < 19)
  }

  lemma StaysIs(a: Accounts, user: Id)
    ensures var kept := Newest(Unexpired(a.sessions, a.now), user, MAX_ACTIVE_SESSIONS - 1);
            && (forall s :: s in kept <==> Stays(a, user, s))
            && (forall s :: s in kept ==> kept[s] == a.sessions[s])
  {
    var live := Unexpired(a.sessions, a.now);
    forall s | s in live ensures Rivals(live, user, s) == set r | r in a.sessions && Ahead(a, user, r, s) {
    }
  }

  /** A login opens a session exactly for an active user of the expected version,
      and if no session that stays has the token. */
  lemma CreateSessionLeaves(a: Accounts, user: Id, expected: nat, token: string, expiresAt: Time)
    ensures Apply(a, CreateSession(user, expected, token, expiresAt)).Some? <==>
              && user in a.users && a.users[user].status == Active && a.users[user].auth == expected
              && forall s :: Stays(a, user, s) ==> a.sessions[s].token != token
    ensures forall b :: Apply(a, CreateSession(user, expected, token, expiresAt)) == Some(b) ==>
              && b == a.(sessions := b.sessions, nextId := a.nextId + 1)
              && (forall s :: s in b.sessions <==> s == a.nextId || Stays(a, user, s))
              && (forall s :: s in b.sessions && s != a.nextId ==> b.sessions[s] == a.sessions[s])
              && b.sessions[a.nextId] == Session(user, token, expected, a.now, expiresAt, a.now)
  {
    StaysIs(a, user);
    hide Newest, Unexpired, Stays;
  }

  /** A visit notes the time in the sessions with the token, if one of them lets
      its user in: alive, the user active, of the user's version. */
  lemma VisitLeaves(a: Accounts, token: string)
    ensures var lets := exists s ::
                          && s in a.sessions && a.sessions[s].token == token && a.sessions[s].expiresAt > a.now
                          && a.sessions[s].user in a.users && a.users[a.sessions[s].user].status == Active
                          && a.users[a.sessions[s].user].auth == a.sessions[s].auth;
            exists b ::
              && Apply(a, Visit(token)) == Some(b)
              && b == a.(sessions := b.sessions) && b.sessions.Keys == a.sessions.Keys
              && forall s :: s in a.sessions ==>
                   b.sessions[s] == if lets && a.sessions[s].token == token then a.sessions[s].(lastSeen := a.now)
                                    else a.sessions[s]
  {
    assert Apply(a, Visit(token)) == Some(Visited(a, token));
  }

  /** Deleting takes just the sessions with the token, or those that are over. */
  lemma DeletesLeave(a: Accounts, token: string)
    ensures var b := Next(a, DeleteSession(token));
            && b == a.(sessions := b.sessions)
            && (forall s :: s in b.sessions <==> s in a.sessions && a.sessions[s].token != token)
            && (forall s :: s in b.sessions ==> b.sessions[s] == a.sessions[s])
    ensures var b := Next(a, DeleteExpired);
            && b == a.(sessions := b.sessions)
            && (forall s :: s in b.sessions <==> Alive(a, s))
            && (forall s :: s in b.sessions ==> b.sessions[s] == a.sessions[s])
  {
  }

  lemma AppPasswordsLeave(a: Accounts, user: Id, name: string, secret: string, id: Id)
    ensures Apply(a, CreateAppPassword(user, name, secret)) ==
            if user !in a.users || forall i :: 0 <= i < |name| ==> name[i] in {' ', '\t', '\r', '\n'} then None
            else Some(a.(appPasswords := a.appPasswords[a.nextId := AppPassword(user, secret, false)],
                         nextId := a.nextId + 1))
    ensures Apply(a, RevokeAppPassword(user, id)) ==
            if user in a.users && id in a.appPasswords && a.appPasswords[id].user == user && !a.appPasswords[id].revoked
            then Some(a.(appPasswords := a.appPasswords[id := a.appPasswords[id].(revoked := true)],
                         users := a.users[user := a.users[user].(protocol := a.users[user].protocol + 1)]))
            else None
  {
    var i, j := TrimDropsBlanks(name);
    hide Trim;
    if i < j {
      assert name[i] !in {' ', '\t', '\r', '\n'};
    }
  }
}
