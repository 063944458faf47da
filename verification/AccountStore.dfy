/** The account tables as the program's transactions change them: each commits or
    leaves everything as it was, and together they form a run of Credentials. */
module AccountStore {
  import opened Common
  import opened Times
  import opened Credentials

  datatype Outcome = Committed | Refused

  /** After eviction the user has at most nineteen sessions, and the next id is
      not one of those that stay. */
  lemma RoomForOne(states: seq<Accounts>, ops: seq<Op>, user: Id)
    requires Run(states, ops)
    ensures var a := states[|states| - 1];
            var kept := Newest(Unexpired(a.sessions, a.now), user, MAX_ACTIVE_SESSIONS - 1);
            a.nextId !in kept && |SessionsOf(kept, user)| <= MAX_ACTIVE_SESSIONS - 1
  {
    var a := states[|states| - 1];
    NumberedAlways(states, ops, |states| - 1);
    hide Run, Rivals;
    NewestAreFew(Unexpired(a.sessions, a.now), user, MAX_ACTIVE_SESSIONS - 1);
  }

  class Store {
    var users: map<Id, User>
    var sessions: map<Id, Session>
    var appPasswords: map<Id, AppPassword>
    var nextId: Id
    var now: Time
    ghost var states: seq<Accounts>
    ghost var ops: seq<Op>

    function State(): Accounts
      reads this
    {
      Accounts(users, sessions, appPasswords, nextId, now)
    }

    /** The store is at the end of a run of transactions. */
    ghost predicate Valid()
      reads this
    {
      Run(states, ops) && states[|states| - 1] == State()
    }

    constructor ()
      ensures Valid() && State() == NoAccounts
    {
      users, sessions, appPasswords, nextId, now := map[], map[], map[], 0, 0;
      states, ops := [NoAccounts], [];
    }

    /** The tables are as after a transaction: add it to the run. */
    ghost method Record(op: Op)
      requires Run(states, ops) && State() == Next(states[|states| - 1], op)
      modifies `states, `ops
      ensures Valid() && ops == old(ops) + [op] && states == old(states) + [State()]
    {
      hide Next;
      states, ops := states + [State()], ops + [op];
    }

    method Advance(elapsed: nat)
      requires Valid()
      modifies `now, `states, `ops
      ensures Valid() && ops == old(ops) + [Tick(elapsed)] && states == old(states) + [State()]
      ensures now == old(now) + elapsed
    {
      hide Run;
      now := now + elapsed;
      Record(Tick(elapsed));
    }

    method CreateUser(email: string, hash: string, role: Role) returns (outcome: Outcome)
      requires Valid()
      modifies this
      ensures Valid() && ops == old(ops) + [Op.CreateUser(email, hash, role)] && states == old(states) + [State()]
      ensures outcome == Refused <==> EmailTaken(old(users), email)
    {
      hide Run;
      var taken := FindEmail(email);
      if taken.Some? {
        Record(Op.CreateUser(email, hash, role));
        return Refused;
      }
      users := users[nextId := User(email, hash, role, Active, 1, 1)];
      nextId := nextId + 1;
      Record(Op.CreateUser(email, hash, role));
      return Committed;
    }

    /** The user with an address. */
    method FindEmail(email: string) returns (found: Option<Id>)
      ensures found.Some? ==> found.value in users && users[found.value].email == email
      ensures found.None? ==> !EmailTaken(users, email)
    {
      var left := users.Keys;
      while left != {}
        invariant left <= users.Keys && forall u :: u in users && u !in left ==> users[u].email != email
        decreases left
      {
        var u :| u in left;
        if users[u].email == email {
          return Some(u);
        }
        left := left - {u};
      }
      return None;
    }

    method CountActiveAdmins() returns (count: nat)
      ensures count == |ActiveAdmins(users)|
    {
      ghost var seen: set<Id> := {};
      ghost var admins: set<Id> := {};
      var left := users.Keys;
      count := 0;
      while left != {}
        invariant seen !! left && seen + left == users.Keys
        invariant admins == (set u | u in seen && IsActiveAdmin(users[u])) && count == |admins|
        decreases left
      {
        var u :| u in left;
        if users[u].role == Admin && users[u].status == Active {
          count := count + 1;
          admins := admins + {u};
        }
        left := left - {u};
        seen := seen + {u};
      }
      assert admins == ActiveAdmins(users);
    }

    /** The account exists, and the update leaves an active administrator. */
    method MayUpdate(id: Id, update: Update) returns (ok: bool)
      ensures ok <==> id in users && !LosesLastAdmin(users, id, update)
    {
      if id !in users {
        return false;
      }
      if update.role.Some? || update.status.Some? {
        var current := users[id];
        var nextRole, nextStatus := current.role, current.status;
        if update.role.Some? {
          nextRole := update.role.value;
        }
        if update.status.Some? {
          nextStatus := update.status.value;
        }
        if current.role == Admin && current.status == Active && (nextRole != Admin || nextStatus != Active) {
          var activeAdmins := CountActiveAdmins();
          if activeAdmins <= 1 {
            return false;
          }
        }
      }
      return true;
    }

    /** The changed columns of a row, one after the other. */
    static method Revise(user: User, update: Update) returns (row: User)
      ensures row == Revised(user, update)
    {
      row := user;
      if update.status.Some? {
        row := row.(status := update.status.value);
      }
      if update.role.Some? {
        row := row.(role := update.role.value);
      }
      if update.hash.Some? {
        row := row.(hash := update.hash.value);
      }
      if update.hash.Some? || update.status.Some? {
        row := row.(auth := row.auth + 1, protocol := row.protocol + 1);
      }
    }

    /** Changes an account. A new password or status starts a new generation; a
        new password or a suspension also deletes the sessions and revokes the app
        passwords; the last active administrator is not taken away. */
    method UpdateUser(id: Id, update: Update) returns (outcome: Outcome)
      requires Valid()
      modifies this
      ensures Valid() && ops == old(ops) + [Op.UpdateUser(id, update)] && states == old(states) + [State()]
      ensures outcome == Refused <==> id !in old(users) || LosesLastAdmin(old(users), id, update)
      ensures outcome == Committed ==> id in users && users[id] == Revised(old(users)[id], update)
      ensures outcome == Committed ==>
                && id in old(users) && users == old(users)[id := users[id]]
                && RowUpdated(old(users)[id], users[id], update)
      ensures outcome == Refused ==> State() == old(State())
      ensures outcome == Committed && Ends(update) ==>
                && (forall s :: s in sessions ==> sessions[s].user != id)
                && (forall p :: p in appPasswords && appPasswords[p].user == id ==> appPasswords[p].revoked)
    {
      if id in users {
        RevisedIsUpdated(users[id], update);
      }
      hide Run, LosesLastAdmin, Revised, Bumps, RowUpdated;
      var ok := MayUpdate(id, update);
      if !ok {
        Record(Op.UpdateUser(id, update));
        return Refused;
      }
      var row := Revise(users[id], update);
      users := users[id := row];
      if update.hash.Some? || (update.status.Some? && update.status.value == Suspended) {
        sessions := map s | s in sessions && sessions[s].user != id :: sessions[s];
        appPasswords := map p | p in appPasswords :: RevokedFor(appPasswords[p], id);
      }
      Record(Op.UpdateUser(id, update));
      return Committed;
    }

    /** The sessions that stay when a user logs in: the expired ones go, and the
        user's oldest beyond the newest nineteen. */
    method Remaining(user: Id) returns (kept: map<Id, Session>)
      ensures kept == Newest(Unexpired(sessions, now), user, MAX_ACTIVE_SESSIONS - 1)
    {
      var live := map s | s in sessions && sessions[s].expiresAt > now :: sessions[s];
      kept := map s | s in live && (live[s].user != user || |Rivals(live, user, s)| < MAX_ACTIVE_SESSIONS - 1) ::
        live[s];
    }

    /** Opens a session for the user row the caller has read. */
    method CreateSession(user: Id, expected: nat, token: string, expiresAt: Time) returns (session: Option<Id>)
      requires Valid()
      modifies this
      ensures Valid() && ops == old(ops) + [Op.CreateSession(user, expected, token, expiresAt)]
              && states == old(states) + [State()]
      ensures session.Some? <==> Apply(old(State()), ops[|ops| - 1]).Some?
      ensures session.Some? ==>
                && session.value == old(nextId) && session.value in sessions
                && sessions[session.value] == Session(user, token, expected, now, expiresAt, now)
                && |SessionsOf(sessions, user)| <= MAX_ACTIVE_SESSIONS
      ensures session.None? ==> State() == old(State())
    {
      ghost var op := Op.CreateSession(user, expected, token, expiresAt);
      RoomForOne(states, ops, user);
      hide Run, Newest, Unexpired, SessionsOf;
      var kept := Remaining(user);
      if !(user in users && users[user].status == Active && users[user].auth == expected)
         || exists s :: s in kept && kept[s].token == token {
        Record(op);
        return None;
      }
      SessionsWithOneMore(kept, nextId, Session(user, token, expected, now, expiresAt, now), user);
      sessions := kept[nextId := Session(user, token, expected, now, expiresAt, now)];
      nextId := nextId + 1;
      Record(op);
      return Some(nextId - 1);
    }

    /** The session that lets in with a token. */
    method FindSession(token: string) returns (found: Option<Id>)
      ensures found.Some? ==>
                found.value in sessions && sessions[found.value].token == token && Lets(State(), found.value)
      ensures found.None? ==> forall s :: s in sessions && sessions[s].token == token ==> !Lets(State(), s)
    {
      var left := sessions.Keys;
      while left != {}
        invariant left <= sessions.Keys
        invariant forall s :: s in sessions && s !in left && sessions[s].token == token ==> !Lets(State(), s)
        decreases left
      {
        var s :| s in left;
        if sessions[s].token == token && sessions[s].expiresAt > now && sessions[s].user in users
           && users[sessions[s].user].status == Active && sessions[s].auth == users[sessions[s].user].auth {
          return Some(s);
        }
        left := left - {s};
      }
      return None;
    }

    /** The user a token lets in, and a note that the session was seen. */
    method UserForSession(token: string) returns (user: Option<Id>)
      requires Valid()
      modifies this
      ensures Valid() && ops == old(ops) + [Visit(token)] && states == old(states) + [State()]
      ensures users == old(users) && appPasswords == old(appPasswords)
      ensures user.Some? <==> exists s :: s in old(sessions) && Lets(old(State()), s) && old(sessions)[s].token == token
      ensures user.Some? ==> exists s ::
                && s in old(sessions) && Lets(old(State()), s) && old(sessions)[s].token == token
                && old(sessions)[s].user == user.value
    {
      hide Run;
      ghost var before := State();
      var found := FindSession(token);
      if found.None? {
        Record(Visit(token));
        return None;
      }
      assert found.value in before.sessions && Lets(before, found.value) && before.sessions[found.value].token == token;
      user := Some(sessions[found.value].user);
      hide Lets;
      sessions := map s | s in sessions :: Seen(sessions[s], token, now);
      Record(Visit(token));
    }

    method DeleteSession(token: string)
      requires Valid()
      modifies this
      ensures Valid() && ops == old(ops) + [Op.DeleteSession(token)] && states == old(states) + [State()]
      ensures forall s :: s in sessions ==> sessions[s].token != token
    {
      hide Run;
      sessions := map s | s in sessions && sessions[s].token != token :: sessions[s];
      Record(Op.DeleteSession(token));
    }

    method DeleteExpiredSessions()
      requires Valid()
      modifies this
      ensures Valid() && ops == old(ops) + [DeleteExpired] && states == old(states) + [State()]
      ensures forall s :: s in sessions ==> sessions[s].expiresAt > now
    {
      hide Run;
      sessions := map s | s in sessions && sessions[s].expiresAt > now :: sessions[s];
      Record(DeleteExpired);
    }

    method CreateAppPassword(user: Id, name: string, secret: string) returns (id: Option<Id>)
      requires Valid()
      modifies this
      ensures Valid() && ops == old(ops) + [Op.CreateAppPassword(user, name, secret)]
              && states == old(states) + [State()]
      ensures id.Some? <==> Trim(name) != [] && user in old(users)
      ensures id.Some? ==>
                && id.value !in old(appPasswords)
                && appPasswords == old(appPasswords)[id.value := AppPassword(user, secret, false)]
    {
      NumberedAlways(states, ops, |states| - 1);
      hide Run;
      if Trim(name) == "" || user !in users {
        Record(Op.CreateAppPassword(user, name, secret));
        return None;
      }
      appPasswords := appPasswords[nextId := AppPassword(user, secret, false)];
      nextId := nextId + 1;
      Record(Op.CreateAppPassword(user, name, secret));
      return Some(nextId - 1);
    }

    /** Revokes an app password and starts a new protocol generation. */
    method RevokeAppPassword(user: Id, id: Id) returns (outcome: Outcome)
      requires Valid()
      modifies this
      ensures Valid() && ops == old(ops) + [Op.RevokeAppPassword(user, id)] && states == old(states) + [State()]
      ensures outcome == Committed <==>
                && id in old(appPasswords)
                && old(appPasswords)[id] == AppPassword(user, old(appPasswords)[id].secret, false)
      ensures outcome == Committed ==>
                && id in appPasswords && appPasswords[id].revoked && user in users && user in old(users)
                && users[user].protocol == old(users)[user].protocol + 1
      ensures sessions == old(sessions)
    {
      NumberedAlways(states, ops, |states| - 1);
      hide Run;
      if id !in appPasswords || appPasswords[id].user != user || appPasswords[id].revoked {
        Record(Op.RevokeAppPassword(user, id));
        return Refused;
      }
      appPasswords := appPasswords[id := appPasswords[id].(revoked := true)];
      users := users[user := users[user].(protocol := users[user].protocol + 1)];
      Record(Op.RevokeAppPassword(user, id));
      return Committed;
    }

    /** First part of authentication: the row of an active account. */
    method ReadUser(email: string) returns (user: Option<Id>)
      requires Valid()
      ensures user.Some? ==>
                user.value in users && users[user.value].email == email && users[user.value].status == Active
      ensures user.None? ==> forall u :: u in users && users[u].email == email ==> users[u].status != Active
    {
      assert EmailsDistinct(users) by {
        RunKeepsInvariant(states, ops, |states| - 1);
      }
      hide Run;
      user := FindEmail(email);
      if user.Some? && users[user.value].status != Active {
        user := None;
      }
    }

    /** Second part, for mail clients: an app password that is not revoked now. */
    method FindAppPassword(user: Id, secret: string) returns (found: Option<Id>)
      ensures found.Some? ==>
                found.value in appPasswords && appPasswords[found.value] == AppPassword(user, secret, false)
      ensures found.None? ==> forall p :: p in appPasswords ==> appPasswords[p] != AppPassword(user, secret, false)
    {
      var left := appPasswords.Keys;
      while left != {}
        invariant left <= appPasswords.Keys
        invariant forall p :: p in appPasswords && p !in left ==> appPasswords[p] != AppPassword(user, secret, false)
        decreases left
      {
        var p :| p in left;
        if appPasswords[p].user == user && appPasswords[p].secret == secret && !appPasswords[p].revoked {
          return Some(p);
        }
        left := left - {p};
      }
      return None;
    }
  }

  /** The outcome of a check: passed, failed, or the store gave no answer. */
  datatype Check = Current | Outdated | Unanswered

  /** A mail client's connection after it has logged in. */
  class ProtocolSession {
    var authenticated: bool
    const user: Id
    /** The protocol version of the account row read at login. */
    const version: nat

    constructor (user: Id, version: nat)
      ensures authenticated && this.user == user && this.version == version
    {
      authenticated, this.user, this.version := true, user, version;
    }

    /** Checked before every mail transaction command. A connection that fails the
        check is logged out and stays so, whatever becomes of the account. */
    method RequireActive(store: Store, answers: bool) returns (check: Check)
      modifies `authenticated
      ensures check == Current <==> old(authenticated) && answers && Admits(store.State(), user, version)
      ensures check == Current <==>
                old(authenticated) && answers && user in store.users && store.users[user].status == Active
                && store.users[user].protocol == version
      ensures check == Unanswered <==> old(authenticated) && !answers
      ensures authenticated == (old(authenticated) && (answers ==> Admits(store.State(), user, version)))
    {
      if !authenticated {
        return Outdated;
      }
      if !answers {
        return Unanswered;
      }
      if user !in store.users {
        authenticated := false;
        return Outdated;
      }
      var account := store.users[user];
      if account.status != Active || account.protocol != version {
        authenticated := false;
        return Outdated;
      }
      return Current;
    }

    /** Checked before every mailbox operation. */
    method EnsureActive(store: Store, answers: bool) returns (check: Check)
      ensures check == Current <==> answers && Admits(store.State(), user, version)
      ensures check == Current <==>
                answers && user in store.users && store.users[user].status == Active
                && store.users[user].protocol == version
      ensures check == Unanswered <==> !answers
    {
      if !answers {
        return Unanswered;
      }
      if user !in store.users {
        return Outdated;
      }
      var account := store.users[user];
      return if account.status == Active && account.protocol == version then Current else Outdated;
    }
  }

  /** A connection that logged in when the store was at step i of its run and is
      admitted now has a credential nobody has changed or revoked since. */
  lemma AdmittedConnectionIsCurrent(store: Store, c: ProtocolSession, i: nat)
    requires store.Valid() && i < |store.states| && c.user in store.states[i].users
    requires c.version == store.states[i].users[c.user].protocol && Admits(store.State(), c.user, c.version)
    ensures forall k :: i <= k < |store.ops| ==>
              !ChangesCredentials(store.states[k], store.ops[k], c.user)
                && !Revokes(store.states[k], store.ops[k], c.user)
    ensures store.users[c.user].hash == store.states[i].users[c.user].hash
  {
    AcceptedProtocolSession(store.states, store.ops, i, |store.ops|, c.user);
  }
}
