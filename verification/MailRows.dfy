/** What each transaction leaves, row by row, said of the tables before and after
    it and not of how it gets there. */
module MailRows {
  import opened Common
  import opened MailTables
  import opened MailInvariants
  import opened MailEffects
  import opened MailHistory
  import opened MailProofs
  import QueueLink

  // ---------------------------------------------------------------- lookups

  /** The mailbox of the user has the name, up to the case of letters. */
  predicate Called(t: Tables, m: Id, user: Id, name: string) {
    m in t.mailboxes && t.mailboxes[m].user == user && Alike(t.mailboxes[m].name, name)
  }

  lemma CalledIsNamed(t: Tables, m: Id, user: Id, name: string)
    ensures Called(t, m, user, name) <==> Names(t, m, user, name)
  {
    if m in t.mailboxes {
      EqualFoldIsAlike(t.mailboxes[m].name, name);
    }
    hide EqualFold, Alike;
  }

  /** The lookup by name finds the one mailbox that has it. */
  lemma FoundExactly(t: Tables, user: Id, name: string)
    requires MailboxKeys(t)
    ensures forall m: Id :: FindMailbox(t, user, name) == Some(m) <==> Called(t, m, user, name)
    ensures FindMailbox(t, user, name).None? <==> forall m: Id :: !Called(t, m, user, name)
  {
    hide EqualFold, Alike;
    forall m: Id ensures FindMailbox(t, user, name) == Some(m) <==> Called(t, m, user, name) {
      CalledIsNamed(t, m, user, name);
      if Names(t, m, user, name) {
        OneMailboxPerName(t, user, name, m, FindMailbox(t, user, name).value);
      }
    }
  }

  // ------------------------------------------------------------------ saves

  /** How many of the n entries numbered from `first` on lie in the mailbox. */
  function Landed(entries: map<Id, Entry>, first: Id, n: nat, m: Id): nat {
    if n == 0 then 0
    else Landed(entries, first, n - 1, m)
         + if first + n - 1 in entries && entries[first + n - 1].mailbox == m then 1 else 0
  }

  lemma {:induction false} LandedSame(before: map<Id, Entry>, after: map<Id, Entry>, first: Id, n: nat, m: Id)
    requires forall e :: first <= e < first + n ==> e in before && e in after && before[e] == after[e]
    ensures Landed(before, first, n, m) == Landed(after, first, n, m)
  {
    if n > 0 {
      LandedSame(before, after, first, n - 1, m);
    }
  }

  /** The mailbox a delivery is for: the one it names, INBOX if it names none. */
  function BoxName(d: Delivery): string {
    if d.mailbox == "" then "INBOX" else d.mailbox
  }

  /** The entry of the k-th delivery: in the mailbox it is for, of its
      user, with its flags, and the next UID there. */
  predicate DeliveredEntry(t: Tables, u: Tables, first: Id, message: Id, d: Delivery, k: nat, date: Time, now: Time) {
    && first + k in u.entries
    && var row := u.entries[first + k];
    && Called(t, row.mailbox, d.user, BoxName(d))
    && row.user == d.user && row.message == message && row.flags == d.flags
    && row.internalDate == date && row.createdAt == now && row.deletedAt == None && row.expungedAt == None
    && row.uid == t.mailboxes[row.mailbox].uidNext + Landed(u.entries, first, k, row.mailbox)
  }

  /** The n entries from `first` on are those of the deliveries; the others are as
      they were. */
  ghost predicate Entered(t: Tables, u: Tables, first: Id, message: Id, deliveries: seq<Delivery>, n: nat, date: Time,
      now: Time)
    requires n <= |deliveries|
  {
    && (forall e :: e in u.entries <==> e in t.entries || first <= e < first + n)
    && (forall e :: e in t.entries ==> u.entries[e] == t.entries[e])
    && (forall k :: 0 <= k < n ==> DeliveredEntry(t, u, first, message, deliveries[k], k, date, now))
  }

  /** Each mailbox has counted the entries that landed in it. */
  ghost predicate Advanced(t: Tables, u: Tables, first: Id, n: nat) {
    && u.mailboxes.Keys == t.mailboxes.Keys
    && (forall m :: m in t.mailboxes ==>
          u.mailboxes[m] == t.mailboxes[m].(uidNext := t.mailboxes[m].uidNext + Landed(u.entries, first, n, m)))
  }

  ghost predicate Arrived(t: Tables, u: Tables, first: Id, message: Id, deliveries: seq<Delivery>, n: nat, date: Time,
      now: Time)
    requires n <= |deliveries|
  {
    Entered(t, u, first, message, deliveries, n, date, now) && Advanced(t, u, first, n)
  }

  /** The tables after one more delivery. */
  ghost function DeliverOne(t: Tables, message: Id, d: Delivery, date: Time, now: Time): Option<Tables> {
    var box := FindMailbox(t, d.user, if d.mailbox == "" then INBOX else d.mailbox);
    if box.None? then None else Some(InsertEntry(t, box.value, message, d.flags, date, now))
  }

  lemma {:induction false} DeliverLast(t: Tables, message: Id, deliveries: seq<Delivery>, n: nat, date: Time, now: Time)
    requires n < |deliveries|
    ensures var front := DeliverAll(t, message, deliveries[..n], date, now);
            DeliverAll(t, message, deliveries[..n + 1], date, now) ==
            if front.None? then None else DeliverOne(front.value, message, deliveries[n], date, now)
    decreases n
  {
    hide FindMailbox, InsertEntry;
    if n == 0 {
      assert deliveries[..1][1..] == [] && deliveries[..0] == [];
    } else {
      var d := deliveries[0];
      var box := FindMailbox(t, d.user, if d.mailbox == "" then INBOX else d.mailbox);
      assert deliveries[..n + 1][1..] == deliveries[1..][..n] && deliveries[..n][1..] == deliveries[1..][..n - 1];
      if box.Some? {
        FoundNames(t, d.user, if d.mailbox == "" then INBOX else d.mailbox);
        DeliverLast(InsertEntry(t, box.value, message, d.flags, date, now), message, deliveries[1..], n - 1, date, now);
      }
    }
  }

  lemma SameNames(t: Tables, u: Tables)
    requires MailboxKeys(t) && u.mailboxes.Keys == t.mailboxes.Keys
    requires forall m :: m in t.mailboxes ==> u.mailboxes[m] == t.mailboxes[m].(uidNext := u.mailboxes[m].uidNext)
    ensures MailboxKeys(u) && forall m, user, name :: Called(u, m, user, name) <==> Called(t, m, user, name)
  {
    hide EqualFold, Alike;
  }

  lemma LandedSoFar(v: Tables, u: Tables, first: Id, n: nat)
    requires forall e :: first <= e < first + n ==> e in v.entries && e in u.entries && v.entries[e] == u.entries[e]
    ensures forall k: nat, m: Id :: k <= n ==> Landed(v.entries, first, k, m) == Landed(u.entries, first, k, m)
  {
    forall k: nat, m: Id | k <= n ensures Landed(v.entries, first, k, m) == Landed(u.entries, first, k, m) {
      LandedSame(v.entries, u.entries, first, k, m);
    }
  }

  lemma OneMoreAdvances(t: Tables, v: Tables, u: Tables, first: Id, n: nat, box: Id)
    requires Advanced(t, v, first, n) && box in v.mailboxes && first + n in u.entries
    requires u.entries[first + n].mailbox == box
    requires u.mailboxes == v.mailboxes[box := v.mailboxes[box].(uidNext := v.mailboxes[box].uidNext + 1)]
    requires forall m: Id :: Landed(v.entries, first, n, m) == Landed(u.entries, first, n, m)
    ensures Advanced(t, u, first, n + 1)
  {
  }

  lemma OneMoreEnters(t: Tables, v: Tables, u: Tables, first: Id, message: Id, deliveries: seq<Delivery>, n: nat,
      date: Time, now: Time)
    requires n < |deliveries| && Entered(t, v, first, message, deliveries, n, date, now)
    requires forall e :: e in t.entries ==> e < first
    requires first + n in u.entries && u.entries == v.entries[first + n := u.entries[first + n]]
    requires DeliveredEntry(t, u, first, message, deliveries[n], n, date, now)
    requires forall k: nat, m: Id :: k <= n ==> Landed(v.entries, first, k, m) == Landed(u.entries, first, k, m)
    ensures Entered(t, u, first, message, deliveries, n + 1, date, now)
  {
    hide Called, BoxName, Landed;
    forall k | 0 <= k < n ensures DeliveredEntry(t, u, first, message, deliveries[k], k, date, now) {
      assert DeliveredEntry(t, v, first, message, deliveries[k], k, date, now);
    }
    hide DeliveredEntry;
  }

  lemma LastEntry(t: Tables, v: Tables, u: Tables, first: Id, message: Id, d: Delivery, n: nat, box: Id, date: Time,
      now: Time)
    requires Advanced(t, v, first, n) && v.nextId == first + n && box in v.mailboxes
             && Called(t, box, d.user, BoxName(d))
    requires u == InsertEntry(v, box, message, d.flags, date, now)
    requires Landed(v.entries, first, n, box) == Landed(u.entries, first, n, box)
    ensures DeliveredEntry(t, u, first, message, d, n, date, now)
  {
    OwnerOfCalled(t, box, d.user, BoxName(d));
    hide Called, BoxName, Landed;
  }

  lemma OneMoreArrives(t: Tables, v: Tables, u: Tables, first: Id, message: Id, deliveries: seq<Delivery>, n: nat,
      box: Id, date: Time, now: Time)
    requires n < |deliveries| && Arrived(t, v, first, message, deliveries, n, date, now)
    requires forall e :: e in t.entries ==> e < first
    requires v.nextId == first + n && box in v.mailboxes
    requires Called(t, box, deliveries[n].user, BoxName(deliveries[n]))
    requires u == InsertEntry(v, box, message, deliveries[n].flags, date, now)
    ensures Arrived(t, u, first, message, deliveries, n + 1, date, now)
  {
    hide Called, BoxName, DeliveredEntry, Advanced, Landed;
    LandedSoFar(v, u, first, n);
    hide Entered;
    LastEntry(t, v, u, first, message, deliveries[n], n, box, date, now);
    OneMoreEnters(t, v, u, first, message, deliveries, n, date, now);
    OneMoreAdvances(t, v, u, first, n, box);
  }

  lemma {:induction false} DeliveriesLand(t: Tables, message: Id, deliveries: seq<Delivery>, n: nat, date: Time,
      now: Time)
    requires n <= |deliveries| && MailboxKeys(t) && forall e :: e in t.entries ==> e < t.nextId
    ensures var u := DeliverAll(t, message, deliveries[..n], date, now);
            u.Some? ==>
              && Arrived(t, u.value, t.nextId, message, deliveries, n, date, now)
              && u.value == t.(entries := u.value.entries, mailboxes := u.value.mailboxes, nextId := t.nextId + n)
    ensures DeliverAll(t, message, deliveries[..n], date, now).Some? <==>
              forall k :: 0 <= k < n ==> HasBox(t, deliveries[k])
  {
    hide EqualFold, Alike, Arrived, HasBox, FindMailbox, DeliverAll, MailboxKeys;
    if n == 0 {
      ArrivedNone(t, message, deliveries, date, now);
    } else {
      DeliveriesLand(t, message, deliveries, n - 1, date, now);
      DeliverLast(t, message, deliveries, n - 1, date, now);
      var front := DeliverAll(t, message, deliveries[..n - 1], date, now);
      if front.Some? {
        LastLands(t, front.value, message, deliveries, n - 1, date, now);
      }
    }
  }

  /** The user has the mailbox a delivery names. */
  ghost predicate HasBox(t: Tables, d: Delivery) {
    exists m: Id :: Called(t, m, d.user, BoxName(d))
  }

  lemma ArrivedNone(t: Tables, message: Id, deliveries: seq<Delivery>, date: Time, now: Time)
    ensures DeliverAll(t, message, deliveries[..0], date, now) == Some(t)
    ensures Arrived(t, t, t.nextId, message, deliveries, 0, date, now)
  {
  }

  lemma LastLands(t: Tables, v: Tables, message: Id, deliveries: seq<Delivery>, n: nat, date: Time, now: Time)
    requires n < |deliveries| && MailboxKeys(t) && Arrived(t, v, t.nextId, message, deliveries, n, date, now)
    requires forall e :: e in t.entries ==> e < t.nextId
    requires v == t.(entries := v.entries, mailboxes := v.mailboxes, nextId := t.nextId + n)
    ensures var u := DeliverOne(v, message, deliveries[n], date, now);
            && (u.Some? <==> HasBox(t, deliveries[n]))
            && (u.Some? ==>
                  && Arrived(t, u.value, t.nextId, message, deliveries, n + 1, date, now)
                  && u.value == t.(entries := u.value.entries, mailboxes := u.value.mailboxes,
                     nextId := t.nextId + n + 1))
  {
    var d := deliveries[n];
    var name := if d.mailbox == "" then INBOX else d.mailbox;
    assert name == BoxName(d);
    SameNames(t, v);
    hide EqualFold, Alike, FindMailbox, MailboxKeys, Called;
    FoundExactly(v, d.user, name);
    var box := FindMailbox(v, d.user, name);
    if box.Some? {
      assert Called(t, box.value, d.user, name);
      OwnerOfCalled(v, box.value, d.user, name);
      OneMoreArrives(t, v, DeliverOne(v, message, d, date, now).value, t.nextId, message, deliveries, n, box.value,
        date, now);
    }
  }

  lemma OwnerOfCalled(t: Tables, m: Id, user: Id, name: string)
    requires Called(t, m, user, name)
    ensures m in t.mailboxes && t.mailboxes[m].user == user
  {
  }

  /** The entries that are not of the draft a save replaces. */
  function Rest(t: Tables, replaced: Option<Id>): map<Id, Entry> {
    map e | e in t.entries && Some(t.entries[e].message) != replaced :: t.entries[e]
  }

  /** The new message stands in place of the draft it replaces. */
  ghost predicate SavedMessage(t: Tables, u: Tables, replaced: Option<Id>, m: Message) {
    && (forall x :: x in u.messages <==> x == t.nextId || (x in t.messages && Some(x) != replaced))
    && (forall x :: x in u.messages && x != t.nextId ==> u.messages[x] == t.messages[x])
    && u.messages[t.nextId] == m.(size := if m.size == 0 then |m.raw| else m.size)
  }

  /** A queue row for each recipient, in lower case and without blanks around it. */
  ghost predicate SavedQueue(t: Tables, u: Tables, first: Id, recipients: seq<string>) {
    && (forall q :: q in u.queue <==> q in t.queue || first <= q < first + |recipients|)
    && (forall q :: q in t.queue ==> u.queue[q] == t.queue[q])
    && (forall q :: q in u.queue && q !in t.queue ==>
          u.queue[q] == QueueRow(t.nextId, Lower(Trim(recipients[q - first]))))
  }

  /** What a save leaves: the message, an entry for each delivery, and the queue
      rows. */
  ghost predicate Saved(t: Tables, u: Tables, replaced: Option<Id>, m: Message, deliveries: seq<Delivery>,
      recipients: seq<string>, date: Time, now: Time)
  {
    && u.users == t.users
    && SavedMessage(t, u, replaced, m)
    && Arrived(t.(entries := Rest(t, replaced)), u, t.nextId + 2, t.nextId, deliveries, |deliveries|, date, now)
    && SavedQueue(t, u, t.nextId + 2 + |deliveries|, recipients)
  }

  /** The draft a save replaces goes with its entries, unless a queue row refers to
      it. */
  lemma DraftGone(t: Tables, draft: Id)
    requires IsDraft(t, draft) && HasEntry(t, draft)
    ensures var v := Purge(t, EntriesOf(t, draft));
            && v.entries == Rest(t, Some(draft)) && v.messages == t.messages - {draft}
            && v == t.(entries := v.entries, messages := v.messages, index := v.index)
    ensures Referenced(t, Orphans(t, EntriesOf(t, draft))) <==>
              exists q :: q in t.queue && t.queue[q].message == draft
  {
    var e :| e in t.entries && t.entries[e].message == draft;
    assert e in EntriesOf(t, draft);
    assert Orphans(t, EntriesOf(t, draft)) == {draft};
    assert t.entries - EntriesOf(t, draft) == Rest(t, Some(draft));
  }

  /** The tables a save puts its entries into. */
  ghost function Prepared(t: Tables, replaced: Option<Id>, m: Message): Tables {
    InsertMessage(if replaced.Some? then Purge(t, EntriesOf(t, replaced.value)) else t, WithDefaults(m))
  }

  lemma PreparedRows(t: Tables, replaced: Option<Id>, m: Message)
    requires replaced.Some? ==> IsDraft(t, replaced.value) && HasEntry(t, replaced.value)
    ensures var v := Prepared(t, replaced, m);
            && v.entries == Rest(t, replaced) && v.mailboxes == t.mailboxes && v.users == t.users && v.queue == t.queue
            && v.nextId == t.nextId + 2
            && v.messages == (t.messages - (if replaced.Some? then {replaced.value} else {}))
                             [t.nextId := m.(size := if m.size == 0 then |m.raw| else m.size)]
  {
    if replaced.Some? {
      DraftGone(t, replaced.value);
    } else {
      assert Rest(t, replaced) == t.entries && t.messages - {} == t.messages;
    }
    hide Purge, EntriesOf, IsDraft;
  }

  lemma SavedFrom(t: Tables, v: Tables, w: Tables, u: Tables, replaced: Option<Id>, m: Message,
      deliveries: seq<Delivery>, recipients: seq<string>, date: Time, now: Time)
    requires UsedIds(t) && v.entries == Rest(t, replaced) && v.mailboxes == t.mailboxes && v.users == t.users
    requires v.queue == t.queue && v.nextId == t.nextId + 2 && (replaced.Some? ==> replaced.value in t.messages)
    requires v.messages == (t.messages - (if replaced.Some? then {replaced.value} else {}))
                           [t.nextId := m.(size := if m.size == 0 then |m.raw| else m.size)]
    requires Arrived(v, w, v.nextId, t.nextId, deliveries, |deliveries|, date, now)
    requires w == v.(entries := w.entries, mailboxes := w.mailboxes, nextId := v.nextId + |deliveries|)
    requires QueueAll(w, t.nextId, recipients) == Some(u)
    ensures Saved(t, u, replaced, m, deliveries, recipients, date, now)
  {
    hide Arrived, QueueAll, Rest, SavedMessage, SavedQueue;
    QueueAllRows(w, t.nextId, recipients);
    ArrivedHere(v, w, t.(entries := Rest(t, replaced)), u, v.nextId, t.nextId, deliveries, date, now);
    QueuedHere(t, w, u, recipients);
    MessageHere(t, v, u, replaced, m);
  }

  lemma MessageHere(t: Tables, v: Tables, u: Tables, replaced: Option<Id>, m: Message)
    requires v.messages == (t.messages - (if replaced.Some? then {replaced.value} else {}))
                           [t.nextId := m.(size := if m.size == 0 then |m.raw| else m.size)]
    requires u.messages == v.messages
    ensures SavedMessage(t, u, replaced, m)
  {
  }

  lemma NormalizedAre(recipients: seq<string>)
    ensures var keys := QueueLink.Normalized(recipients);
            |keys| == |recipients| && forall i :: 0 <= i < |keys| ==> keys[i] == Lower(Trim(recipients[i]))
  {
    hide Lower, Trim;
  }

  lemma FromAppended(t: Tables, w: Tables, u: Tables, recipients: seq<string>, keys: seq<string>)
    requires w.queue == t.queue && QueueLink.Appended(w, u, t.nextId, keys) && |keys| == |recipients|
    requires forall i :: 0 <= i < |keys| ==> keys[i] == Lower(Trim(recipients[i]))
    ensures SavedQueue(t, u, w.nextId, recipients)
  {
    hide Lower, Trim;
  }

  lemma QueuedHere(t: Tables, w: Tables, u: Tables, recipients: seq<string>)
    requires UsedIds(t) && w.queue == t.queue && w.nextId >= t.nextId
    requires QueueAll(w, t.nextId, recipients) == Some(u)
    ensures SavedQueue(t, u, w.nextId, recipients)
  {
    assert forall q :: q in t.queue ==> q < w.nextId;
    assert QueueLink.Numbered(w);
    hide *;
    NormalizedAre(recipients);
    QueueLink.QueueAllAppends(w, t.nextId, recipients);
    FromAppended(t, w, u, recipients, QueueLink.Normalized(recipients));
  }

  lemma {:induction false} QueueAllRows(t: Tables, message: Id, recipients: seq<string>)
    ensures var u := QueueAll(t, message, recipients);
            u.Some? ==> u.value == t.(queue := u.value.queue, nextId := u.value.nextId)
    decreases |recipients|
  {
    if recipients != [] {
      var row := QueueKey(message, recipients[0]);
      QueueAllRows(t.(queue := t.queue[t.nextId := row], nextId := t.nextId + 1), message, recipients[1..]);
    }
  }

  lemma ArrivedHere(t: Tables, u: Tables, t2: Tables, u2: Tables, first: Id, message: Id, deliveries: seq<Delivery>,
      date: Time, now: Time)
    requires Arrived(t, u, first, message, deliveries, |deliveries|, date, now)
    requires t2.entries == t.entries && t2.mailboxes == t.mailboxes && u2.entries == u.entries
             && u2.mailboxes == u.mailboxes
    ensures Arrived(t2, u2, first, message, deliveries, |deliveries|, date, now)
  {
    forall k | 0 <= k < |deliveries| ensures DeliveredEntry(t2, u2, first, message, deliveries[k], k, date, now) {
      assert DeliveredEntry(t, u, first, message, deliveries[k], k, date, now);
    }
    hide DeliveredEntry;
  }

  /** A committed save leaves just that. */
  lemma SaveLeaves(t: Tables, op: Op, u: Tables)
    requires Inv(t) && op.OpSave? && Enabled(t, op) && Commit(t, op) == Some(u)
    requires op.replaced.Some? ==> HasEntry(t, op.replaced.value)
    ensures Saved(t, u, op.replaced, op.mail, op.deliveries, op.recipients, op.date, op.now)
  {
    hide *;
    InvParts(t);
    OpIsSave(t, op);
    var v := Prepared(t, op.replaced, op.mail);
    PreparedRows(t, op.replaced, op.mail);
    RestIsOld(t, op.replaced);
    MailboxKeysCarry(t, v);
    SaveIs(t, op.replaced, op.mail, op.deliveries, op.recipients, op.archiveFull, op.date, op.now);
    assert op.deliveries[..|op.deliveries|] == op.deliveries;
    DeliveriesLand(v, t.nextId, op.deliveries, |op.deliveries|, op.date, op.now);
    var w := DeliverAll(v, t.nextId, op.deliveries, op.date, op.now).value;
    SavedFrom(t, v, w, u, op.replaced, op.mail, op.deliveries, op.recipients, op.date, op.now);
  }

  lemma InvParts(t: Tables)
    requires Inv(t)
    ensures ForeignKeys(t) && UsedIds(t) && MailboxKeys(t)
  {
    hide ForeignKeys, UsedIds, Uids, DraftsNeverHidden, MailboxKeys, Indexed, QueueKeys;
  }

  lemma SaveIs(t: Tables, replaced: Option<Id>, m: Message, deliveries: seq<Delivery>, recipients: seq<string>,
      full: bool, date: Time, now: Time)
    requires Save(t, replaced, m, deliveries, recipients, full, date, now).Some?
    ensures var w := DeliverAll(Prepared(t, replaced, m), t.nextId, deliveries, date, now);
            w.Some? && Save(t, replaced, m, deliveries, recipients, full, date, now) ==
                       QueueAll(w.value, t.nextId, recipients)
  {
    assert replaced.Some? ==> Purge(t, EntriesOf(t, replaced.value)).nextId == t.nextId;
    hide Purge, InsertMessage, DeliverAll, QueueAll, QuotaAllows, Referenced, Orphans, EntriesOf;
  }

  lemma RestIsOld(t: Tables, replaced: Option<Id>)
    requires UsedIds(t)
    ensures forall e :: e in Rest(t, replaced) ==> e < t.nextId
  {
  }

  /** The deliveries to a user. */
  function To(deliveries: seq<Delivery>, n: nat, user: Id): set<nat>
    requires n <= |deliveries|
  {
    set k: nat | k < n && deliveries[k].user == user
  }

  lemma {:induction false} CopiesAreCounted(deliveries: seq<Delivery>, n: nat, user: Id)
    requires n <= |deliveries|
    ensures Copies(deliveries[..n], user) == |To(deliveries, n, user)|
  {
    if n == 0 {
      assert deliveries[..0] == [] && To(deliveries, n, user) == {};
    } else {
      CopiesSnoc(deliveries, n - 1);
      CopiesAreCounted(deliveries, n - 1, user);
      var before, after := To(deliveries, n - 1, user), To(deliveries, n, user);
      if deliveries[n - 1].user == user {
        assert after == before + {n - 1};
      } else {
        assert after == before;
      }
    }
  }

  /** Every user a save delivers to is active and has room for all its copies,
      beside the entries that stay. */
  ghost predicate RoomForAll(t: Tables, replaced: Option<Id>, size: nat, deliveries: seq<Delivery>) {
    forall i :: 0 <= i < |deliveries| ==>
      var user := deliveries[i].user;
      && user in t.users && t.users[user].active
      && (t.users[user].quota == 0
          || Used(t.(entries := Rest(t, replaced)), user) + size * |To(deliveries, |deliveries|, user)|
             <= t.users[user].quota)
  }

  lemma QuotaIsRoom(t: Tables, v: Tables, replaced: Option<Id>, size: nat, deliveries: seq<Delivery>)
    requires v.entries == Rest(t, replaced) && v.users == t.users && ForeignKeys(t)
    requires forall x :: x in t.messages && Some(x) != replaced ==> x in v.messages && v.messages[x] == t.messages[x]
    ensures QuotaAllows(v, size, deliveries) <==> RoomForAll(t, replaced, size, deliveries)
  {
    assert deliveries[..|deliveries|] == deliveries;
    forall user: Id
      ensures Used(v, user) == Used(t.(entries := Rest(t, replaced)), user)
      ensures Copies(deliveries, user) == |To(deliveries, |deliveries|, user)|
    {
      assert Weights(v, user) == Weights(t.(entries := Rest(t, replaced)), user);
      CopiesAreCounted(deliveries, |deliveries|, user);
    }
    hide Used, Copies, To, Rest;
  }

  /** What a save asks of the tables and of its arguments. */
  ghost predicate Savable(t: Tables, replaced: Option<Id>, size: nat, deliveries: seq<Delivery>,
      recipients: seq<string>) {
    && (forall q :: q in t.queue ==> Some(t.queue[q].message) != replaced)
    && RoomForAll(t, replaced, size, deliveries)
    && (forall k :: 0 <= k < |deliveries| ==> HasBox(t, deliveries[k]))
    && (forall i, j :: 0 <= i < j < |recipients| ==> Lower(Trim(recipients[i])) != Lower(Trim(recipients[j])))
  }

  lemma KeysDiffer(message: Id, recipients: seq<string>)
    ensures DistinctKeys(message, recipients) <==>
              forall i, j :: 0 <= i < j < |recipients| ==> Lower(Trim(recipients[i])) != Lower(Trim(recipients[j]))
  {
    hide Lower, Trim;
    if DistinctKeys(message, recipients) {
      forall i, j | 0 <= i < j < |recipients| ensures Lower(Trim(recipients[i])) != Lower(Trim(recipients[j])) {
        assert QueueKey(message, recipients[i]) != QueueKey(message, recipients[j]);
      }
    }
  }

  /** Nothing is queued for a message that is only now being stored. */
  lemma NewMessageUnqueued(t: Tables, w: Tables, message: Id, recipients: seq<string>)
    requires ForeignKeys(t) && UsedIds(t) && w.queue == t.queue && message == t.nextId
    ensures NoneQueued(w, message, recipients)
  {
    hide Lower, Trim;
    assert forall q :: q in w.queue ==> w.queue[q].message != message;
  }

  lemma SameBoxes(t: Tables, v: Tables, d: Delivery)
    requires v.mailboxes == t.mailboxes
    ensures HasBox(v, d) <==> HasBox(t, d)
  {
    assert forall m: Id :: Called(v, m, d.user, BoxName(d)) <==> Called(t, m, d.user, BoxName(d));
  }

  /** A save commits exactly when the archive has room and the draft, the users,
      the mailboxes and the recipients allow it. */
  lemma SaveCommitsExactlyWhen(t: Tables, op: Op)
    requires Inv(t) && op.OpSave? && Enabled(t, op)
    requires op.replaced.Some? ==> HasEntry(t, op.replaced.value)
    ensures Commit(t, op).Some? <==>
              && !op.archiveFull
              && Savable(t, op.replaced, if op.mail.size == 0 then |op.mail.raw| else op.mail.size,
                         op.deliveries, op.recipients)
  {
    var size := if op.mail.size == 0 then |op.mail.raw| else op.mail.size;
    hide *;
    SaveSteps(t, op.replaced, op.mail, op.deliveries, op.recipients, op.archiveFull, op.date, op.now);
    DraftUnreferenced(t, op.replaced);
    PreparedQuota(t, op.replaced, op.mail, size, op.deliveries);
    RowsCommit(t, op.replaced, op.mail, op.deliveries, op.recipients, op.date, op.now);
    OpIsSave(t, op);
    SavableParts(t, op.replaced, size, op.deliveries, op.recipients);
  }

  lemma OpIsSave(t: Tables, op: Op)
    requires op.OpSave? && Enabled(t, op)
    ensures Commit(t, op) == Save(t, op.replaced, op.mail, op.deliveries, op.recipients, op.archiveFull, op.date,
            op.now)
    ensures op.replaced.Some? ==> IsDraft(t, op.replaced.value) && op.replaced.value in t.messages
  {
    hide Save;
  }

  lemma SavableParts(t: Tables, replaced: Option<Id>, size: nat, deliveries: seq<Delivery>, recipients: seq<string>)
    ensures Savable(t, replaced, size, deliveries, recipients) <==>
              && !(exists q :: q in t.queue && Some(t.queue[q].message) == replaced)
              && RoomForAll(t, replaced, size, deliveries)
              && (forall k :: 0 <= k < |deliveries| ==> HasBox(t, deliveries[k]))
              && (forall i, j :: 0 <= i < j < |recipients| ==> Lower(Trim(recipients[i])) != Lower(Trim(recipients[j])))
  {
    hide RoomForAll, HasBox, Lower, Trim;
  }

  /** The checks of a save, in order. */
  lemma SaveSteps(t: Tables, replaced: Option<Id>, m: Message, deliveries: seq<Delivery>, recipients: seq<string>,
      full: bool, date: Time, now: Time)
    requires replaced.Some? ==> IsDraft(t, replaced.value) && HasEntry(t, replaced.value)
    ensures var v := Prepared(t, replaced, m);
            var rest := if replaced.Some? then Purge(t, EntriesOf(t, replaced.value)) else t;
            var size := if m.size == 0 then |m.raw| else m.size;
            var w := DeliverAll(v, t.nextId, deliveries, date, now);
            Save(t, replaced, m, deliveries, recipients, full, date, now).Some? <==>
              && !(replaced.Some? && Referenced(t, Orphans(t, EntriesOf(t, replaced.value))))
              && !full && QuotaAllows(rest, size, deliveries)
              && w.Some? && QueueAll(w.value, t.nextId, recipients).Some?
  {
    if replaced.Some? {
      DraftGone(t, replaced.value);
    }
    hide Purge, InsertMessage, DeliverAll, QueueAll, QuotaAllows, Referenced, Orphans, EntriesOf;
  }

  lemma RowsCommit(t: Tables, replaced: Option<Id>, m: Message, deliveries: seq<Delivery>, recipients: seq<string>,
      date: Time, now: Time)
    requires Inv(t) && (replaced.Some? ==> IsDraft(t, replaced.value) && HasEntry(t, replaced.value))
    ensures var w := DeliverAll(Prepared(t, replaced, m), t.nextId, deliveries, date, now);
            (w.Some? && QueueAll(w.value, t.nextId, recipients).Some?) <==>
              && (forall k :: 0 <= k < |deliveries| ==> HasBox(t, deliveries[k]))
              && (forall i, j :: 0 <= i < j < |recipients| ==> Lower(Trim(recipients[i])) != Lower(Trim(recipients[j])))
  {
    var v := Prepared(t, replaced, m);
    PreparedRows(t, replaced, m);
    RestIsOld(t, replaced);
    MailboxKeysCarry(t, v);
    assert ForeignKeys(t) && UsedIds(t) && deliveries[..|deliveries|] == deliveries;
    hide *;
    DeliveriesLand(v, t.nextId, deliveries, |deliveries|, date, now);
    forall k | 0 <= k < |deliveries| ensures HasBox(v, deliveries[k]) <==> HasBox(t, deliveries[k]) {
      SameBoxes(t, v, deliveries[k]);
    }
    var w := DeliverAll(v, t.nextId, deliveries, date, now);
    if w.Some? {
      QueueCommits(t, w.value, recipients);
    }
  }

  lemma MailboxKeysCarry(t: Tables, u: Tables)
    requires Inv(t) && u.mailboxes == t.mailboxes
    ensures MailboxKeys(u)
  {
    hide EqualFold, ForeignKeys, UsedIds, Uids, DraftsNeverHidden, Indexed, QueueKeys;
  }

  lemma QueueCommits(t: Tables, w: Tables, recipients: seq<string>)
    requires ForeignKeys(t) && UsedIds(t) && w.queue == t.queue && w.nextId >= t.nextId
    ensures QueueAll(w, t.nextId, recipients).Some? <==>
              forall i, j :: 0 <= i < j < |recipients| ==> Lower(Trim(recipients[i])) != Lower(Trim(recipients[j]))
  {
    assert forall q :: q in w.queue ==> q < w.nextId;
    NewMessageUnqueued(t, w, t.nextId, recipients);
    hide *;
    QueueAcceptsDistinct(w, t.nextId, recipients);
    KeysDiffer(t.nextId, recipients);
  }

  lemma DraftUnreferenced(t: Tables, replaced: Option<Id>)
    requires replaced.Some? ==> IsDraft(t, replaced.value) && HasEntry(t, replaced.value)
    ensures (replaced.Some? && Referenced(t, Orphans(t, EntriesOf(t, replaced.value)))) <==>
              exists q :: q in t.queue && Some(t.queue[q].message) == replaced
  {
    if replaced.Some? {
      DraftGone(t, replaced.value);
    }
    hide Orphans, Referenced, EntriesOf, Purge;
  }

  /** The quota check comes before the message is inserted, which has no entry yet. */
  lemma PreparedQuota(t: Tables, replaced: Option<Id>, m: Message, size: nat, deliveries: seq<Delivery>)
    requires ForeignKeys(t) && (replaced.Some? ==> IsDraft(t, replaced.value) && HasEntry(t, replaced.value))
    ensures var v := if replaced.Some? then Purge(t, EntriesOf(t, replaced.value)) else t;
            QuotaAllows(v, size, deliveries) <==> RoomForAll(t, replaced, size, deliveries)
  {
    if replaced.Some? {
      DraftGone(t, replaced.value);
    } else {
      assert Rest(t, replaced) == t.entries;
    }
    var v := if replaced.Some? then Purge(t, EntriesOf(t, replaced.value)) else t;
    hide Purge, EntriesOf, QuotaAllows, RoomForAll, ForeignKeys;
    QuotaIsRoom(t, v, replaced, size, deliveries);
  }
}
