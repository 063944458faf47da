/** What holds over whole runs of the mail store, for every interleaving of its
    transactions. */
module MailHistory {
  import opened Common
  import opened MailTables
  import opened MailInvariants

  lemma EmptyTablesKeep()
    ensures Inv(EmptyTables)
  {
  }

  lemma {:induction false} RunKeepsInvariant(states: seq<Tables>, ops: seq<Op>, i: nat)
    requires Run(states, ops) && i < |states|
    ensures Inv(states[i])
    decreases i
  {
    hide Inv, Evolves;
    if i == 0 {
      EmptyTablesKeep();
    } else {
      RunKeepsInvariant(states, ops, i - 1);
      StepKeeps(states[i - 1], ops[i - 1]);
    }
  }

  lemma {:induction false} RunEvolves(states: seq<Tables>, ops: seq<Op>, i: nat, j: nat)
    requires Run(states, ops) && i <= j < |states|
    ensures Inv(states[i]) && Inv(states[j]) && Evolves(states[i], states[j])
    decreases j - i
  {
    hide Inv, Evolves;
    RunKeepsInvariant(states, ops, i);
    RunKeepsInvariant(states, ops, j);
    if i == j {
      EvolvesReflexive(states[i]);
    } else {
      RunEvolves(states, ops, i, j - 1);
      StepKeeps(states[j - 1], ops[j - 1]);
      EvolvesTransitive(states[i], states[j - 1], states[j]);
    }
  }

  // ------------------------------------------------------------------- UIDs

  /** Within one mailbox row a UID names one entry, and so one message, in every
      state of the run: it is never given out again. */
  lemma UidNeverReassigned(states: seq<Tables>, ops: seq<Op>, i: nat, j: nat, e: Id, f: Id)
    requires Run(states, ops) && i <= j < |states|
    requires e in states[i].entries && f in states[j].entries
    requires states[i].entries[e].mailbox == states[j].entries[f].mailbox
    requires states[i].entries[e].uid == states[j].entries[f].uid
    ensures e == f && states[i].entries[e].message == states[j].entries[f].message
  {
    RunEvolves(states, ops, i, j);
    UidPinned(states[i], states[j], e, f);
  }

  lemma UidPinned(t: Tables, u: Tables, e: Id, f: Id)
    requires Uids(t) && ForeignKeys(t) && UidsStable(t, u) && EntriesStable(t, u)
    requires e in t.entries && f in u.entries
    requires t.entries[e].mailbox == u.entries[f].mailbox && t.entries[e].uid == u.entries[f].uid
    ensures e == f && t.entries[e].message == u.entries[f].message
  {
    assert HasOldUid(t, u, f);
    assert SamePlace(t, u, f);
  }

  /** In every reachable state UIDs lie in [1, uid_next) and are distinct per
      mailbox row, counting expunged entries; the counter never goes back. */
  lemma UidsOfReachableStates(states: seq<Tables>, ops: seq<Op>, i: nat, j: nat, m: Id)
    requires Run(states, ops) && i <= j < |states|
    requires m in states[i].mailboxes && m in states[j].mailboxes
    ensures states[i].mailboxes[m].uidNext <= states[j].mailboxes[m].uidNext
    ensures states[i].mailboxes[m].uidValidity == states[j].mailboxes[m].uidValidity
    ensures forall e :: e in states[j].entries && states[j].entries[e].mailbox == m ==>
              1 <= states[j].entries[e].uid < states[j].mailboxes[m].uidNext
    ensures forall e, f :: e in states[j].entries && f in states[j].entries && e != f
                           && states[j].entries[e].mailbox == m && states[j].entries[f].mailbox == m ==>
              states[j].entries[e].uid != states[j].entries[f].uid
  {
    RunEvolves(states, ops, i, j);
    hide ForeignKeys, UsedIds, DraftsNeverHidden, MailboxKeys, Indexed, QueueKeys;
    hide NoRevival, EntriesStable, Retained, DraftsHeld;
  }

  // -------------------------------------------------------------- retention

  /** A message that is not a draft never disappears and never changes. */
  lemma CorrespondenceIsRetained(states: seq<Tables>, ops: seq<Op>, i: nat, j: nat, m: Id)
    requires Run(states, ops) && i <= j < |states|
    requires m in states[i].messages && states[i].messages[m].direction != Draft
    ensures m in states[j].messages
    ensures states[j].messages[m].direction == states[i].messages[m].direction
    ensures states[j].messages[m].raw == states[i].messages[m].raw
    ensures states[j].messages[m].size == states[i].messages[m].size
    ensures states[j].messages[m].text == states[i].messages[m].text
  {
    RunEvolves(states, ops, i, j);
    hide Inv, NoRevival, UidsStable, EntriesStable, DraftsHeld;
  }

  /** A draft that once had an entry exists exactly while some entry points to it. */
  lemma DraftLivesWithItsEntries(states: seq<Tables>, ops: seq<Op>, i: nat, j: nat, m: Id)
    requires Run(states, ops) && i <= j < |states|
    requires IsDraft(states[i], m) && HasEntry(states[i], m)
    ensures m in states[j].messages <==> HasEntry(states[j], m)
  {
    RunEvolves(states, ops, i, j);
    hide UsedIds, Uids, DraftsNeverHidden, MailboxKeys, Indexed, QueueKeys, NoRevival, UidsStable, EntriesStable,
         Retained;
    assert HasEntry(states[j], m) ==> m in states[j].messages;
  }

  /** An expunged entry never becomes visible again, and never was a draft's. */
  lemma ExpungeIsFinal(states: seq<Tables>, ops: seq<Op>, i: nat, j: nat, e: Id)
    requires Run(states, ops) && i <= j < |states|
    requires e in states[i].entries && !Visible(states[i].entries[e])
    ensures !IsDraft(states[i], states[i].entries[e].message)
    ensures e in states[j].entries ==> !Visible(states[j].entries[e])
  {
    RunEvolves(states, ops, i, j);
    hide ForeignKeys, UsedIds, Uids, MailboxKeys, Indexed, QueueKeys, NoRevival, UidsStable, Retained, DraftsHeld;
  }

  /** The search index holds one row per message, with the message's own text. */
  lemma IndexIsExact(states: seq<Tables>, ops: seq<Op>, i: nat, m: Id)
    requires Run(states, ops) && i < |states|
    ensures m in states[i].messages <==> exists r :: r in states[i].index && states[i].index[r].message == m
    ensures m in states[i].messages ==>
              exists r :: r in states[i].index && states[i].index[r] == SearchRow(m, states[i].messages[m].text)
                          && forall s :: s in states[i].index && states[i].index[s].message == m ==> s == r
  {
    RunKeepsInvariant(states, ops, i);
    hide ForeignKeys, UsedIds, Uids, DraftsNeverHidden, MailboxKeys, QueueKeys;
    var t := states[i];
    if m in t.messages {
      assert HasIndexRow(t, m);
      var r :| r in t.index && t.index[r].message == m;
      assert t.index[r] == SearchRow(m, t.messages[m].text);
    }
  }

  /** What a client saw in a listing stays true of the message while it exists. */
  lemma ListingStaysTrue(states: seq<Tables>, ops: seq<Op>, i: nat, j: nat, m: Id)
    requires Run(states, ops) && i <= j < |states|
    requires m in states[i].messages && m in states[j].messages
    ensures states[i].messages[m].size == states[j].messages[m].size
  {
    RunEvolves(states, ops, i, j);
    hide Inv, NoRevival, UidsStable, EntriesStable, DraftsHeld;
  }

  // ------------------------------------------------------------ UIDVALIDITY

  /** Two live mailboxes of one user never share a name or a UIDVALIDITY. */
  lemma UidValidityDistinct(states: seq<Tables>, ops: seq<Op>, i: nat, m: Id, n: Id)
    requires Run(states, ops) && i < |states|
    requires m in states[i].mailboxes && n in states[i].mailboxes && m != n
    requires states[i].mailboxes[m].user == states[i].mailboxes[n].user
    ensures states[i].mailboxes[m].uidValidity != states[i].mailboxes[n].uidValidity
    ensures !EqualFold(states[i].mailboxes[m].name, states[i].mailboxes[n].name)
  {
    RunKeepsInvariant(states, ops, i);
    hide EqualFold, ForeignKeys, UsedIds, Uids, DraftsNeverHidden, Indexed, QueueKeys;
  }

  lemma SameMaximum(t: Tables, u: Tables, boxes: set<Id>)
    requires boxes != {} && boxes <= t.mailboxes.Keys && boxes <= u.mailboxes.Keys
    requires forall m :: m in boxes ==> u.mailboxes[m] == t.mailboxes[m]
    ensures MaxValidity(t, boxes) == MaxValidity(u, boxes)
  {
    MaxValidityIsMaximum(t, boxes);
    MaxValidityIsMaximum(u, boxes);
  }

  /** Deleting mailbox `m` and creating one with its name again gives the same
      UIDVALIDITY, with UIDs restarting at 1, exactly when the deleted value was
      one above all others: the generator looks at live mailboxes only. */
  lemma RecreationReusesUidValidity(t: Tables, user: Id, m: Id, name: string, now: Time)
    requires Inv(t) && Names(t, m, user, name)
    requires DeleteMailbox(t, user, name).Some?
    requires CreateMailbox(DeleteMailbox(t, user, name).value, user, name, now).Some?
    ensures var deleted := DeleteMailbox(t, user, name).value;
            var created := CreateMailbox(deleted, user, name, now).value;
            var others := UserMailboxes(t, user) - {m};
            && m !in deleted.mailboxes
            && deleted.nextId in created.mailboxes
            && created.mailboxes[deleted.nextId].uidNext == 1
            && (created.mailboxes[deleted.nextId].uidValidity == t.mailboxes[m].uidValidity <==>
                t.mailboxes[m].uidValidity == 1 + if others == {} then now else MaxValidity(t, others))
  {
    hide ForeignKeys, UsedIds, Uids, DraftsNeverHidden, Indexed, QueueKeys, EqualFold;
    var box := FindMailbox(t, user, name).value;
    OneMailboxPerName(t, user, name, m, box);
    var deleted := DeleteMailbox(t, user, name).value;
    var others := UserMailboxes(t, user) - {m};
    assert deleted.mailboxes == t.mailboxes - {m};
    assert UserMailboxes(deleted, user) == others;
    if others != {} {
      SameMaximum(t, deleted, others);
    }
  }

  lemma OneMailboxPerName(t: Tables, user: Id, name: string, m: Id, n: Id)
    requires MailboxKeys(t) && Names(t, m, user, name) && Names(t, n, user, name)
    ensures m == n
  {
  }

  lemma CreatedMailbox(t: Tables, user: Id, name: string, now: Time, created: Tables)
    requires UsedIds(t) && UserMailboxes(t, user) != {} && CreateMailbox(t, user, name, now) == Some(created)
    ensures Names(created, t.nextId, user, name)
    ensures UserMailboxes(created, user) - {t.nextId} == UserMailboxes(t, user)
    ensures created.mailboxes[t.nextId].uidValidity == 1 + MaxValidity(created, UserMailboxes(t, user))
  {
    EqualFoldReflexive(name);
    hide EqualFold;
    assert t.nextId !in t.mailboxes;
    assert UserMailboxes(created, user) - {t.nextId} == UserMailboxes(t, user);
    SameMaximum(t, created, UserMailboxes(t, user));
  }

  /** So the newest mailbox of a user always gets its old UIDVALIDITY back. */
  lemma NewestMailboxReusesUidValidity(t: Tables, user: Id, name: string, first: Time, second: Time,
                                       created: Tables, deleted: Tables, again: Tables)
    requires Inv(t) && UserMailboxes(t, user) != {}
    requires CreateMailbox(t, user, name, first) == Some(created)
    requires DeleteMailbox(created, user, name) == Some(deleted)
    requires CreateMailbox(deleted, user, name, second) == Some(again)
    ensures t.nextId in created.mailboxes && t.nextId !in deleted.mailboxes && deleted.nextId in again.mailboxes
    ensures again.mailboxes[deleted.nextId].uidValidity == created.mailboxes[t.nextId].uidValidity
  {
    CreateMailboxKeeps(t, user, name, first);
    CreatedMailbox(t, user, name, first, created);
    hide Inv, CreateMailbox, DeleteMailbox;
    RecreationReusesUidValidity(created, user, t.nextId, name, second);
  }
}
