/** The store itself: tables updated row by row inside transactions, every error
    path restoring the tables as they were at BEGIN. */
module MailStore {
  import opened Common
  import T = MailTables
  import opened MailInvariants
  import Q = MailQuota
  import R = MailRows
  import opened MailProofs

  type Id = T.Id
  type Time = T.Time

  datatype Result =
    | Committed
    | NotFound
    | Conflict
    | QuotaExceeded
    | ArchiveFull
    | Forbidden
    | ResourceLimit
    | InvalidName
    | ConstraintFailed

  class Store {
    var users: map<Id, T.User>
    var mailboxes: map<Id, T.Mailbox>
    var messages: map<Id, T.Message>
    var entries: map<Id, T.Entry>
    var queue: map<Id, T.QueueRow>
    var index: map<Id, T.SearchRow>
    var nextId: Id

    function State(): T.Tables
      reads this
    {
      T.Tables(users, mailboxes, messages, entries, queue, index, nextId)
    }

    ghost predicate Valid()
      reads this
    {
      Inv(State())
    }

    constructor ()
      ensures Valid() && State() == T.EmptyTables
    {
      users, mailboxes, messages, entries, queue, index, nextId := map[], map[], map[], map[], map[], map[], 0;
    }

    /** ROLLBACK */
    method Restore(tx: T.Tables)
      modifies this
      ensures State() == tx
    {
      users, mailboxes, messages := tx.users, tx.mailboxes, tx.messages;
      entries, queue, index, nextId := tx.entries, tx.queue, tx.index, tx.nextId;
    }

    // ------------------------------------------------------------- queries

    method FindMailbox(user: Id, name: string) returns (box: Option<Id>)
      requires Valid()
      ensures box == T.FindMailbox(State(), user, name)
      ensures forall m: Id :: box == Some(m) <==>
                m in mailboxes && mailboxes[m].user == user && Alike(mailboxes[m].name, name)
    {
      R.InvParts(State());
      R.FoundExactly(State(), user, name);
      hide Inv, R.Called, Alike, ForeignKeys, UsedIds, MailboxKeys;
      var rest := mailboxes.Keys;
      box := None;
      while rest != {}
        invariant rest <= mailboxes.Keys && box == None
        invariant forall m :: m in mailboxes && m !in rest ==> !T.Names(State(), m, user, name)
        decreases |rest|
      {
        var m :| m in rest;
        if mailboxes[m].user == user && EqualFold(mailboxes[m].name, name) {
          FoundMailbox(State(), user, name, m);
          return Some(m);
        }
        rest := rest - {m};
      }
    }

    /** The mailbox a client selects: blanks around its name do not count. */
    method GetMailbox(user: Id, raw: string) returns (box: Option<Id>)
      requires Valid()
      ensures box == T.FindMailbox(State(), user, Trim(raw))
    {
      box := FindMailbox(user, Trim(raw));
    }

    /** The visible entry of the user denoted by `ref` that was created last. */
    method LookupEntry(user: Id, ref: Id) returns (found: Option<Id>)
      ensures found.Some? ==> T.Selected(State(), user, ref, found.value)
      ensures found.None? ==> forall e :: !T.Matches(State(), user, ref, e)
      ensures found.Some? ==>
                && found.value in entries && entries[found.value].user == user
                   && entries[found.value].expungedAt == None
                && (found.value == ref || entries[found.value].message == ref)
      ensures forall e :: e in entries && entries[e].user == user && entries[e].expungedAt == None
                          && (e == ref || entries[e].message == ref) ==>
                found.Some? && entries[e].createdAt <= entries[found.value].createdAt
    {
      var rest := entries.Keys;
      found := None;
      while rest != {}
        invariant rest <= entries.Keys
        invariant found.Some? ==> T.Matches(State(), user, ref, found.value)
        invariant forall e :: T.Matches(State(), user, ref, e) && e !in rest ==>
                    found.Some? && entries[e].createdAt <= entries[found.value].createdAt
        decreases |rest|
      {
        var e :| e in rest;
        if T.Matches(State(), user, ref, e) && (found.None? || entries[found.value].createdAt < entries[e].createdAt) {
          found := Some(e);
        }
        rest := rest - {e};
      }
    }

    /** The draft message a save may replace, the newest one. */
    method LookupDraft(user: Id, ref: Id) returns (found: Option<Id>)
      ensures found.Some? ==> exists e :: T.ReplacesNewest(State(), user, ref, e) && entries[e].message == found.value
      ensures found.None? ==> forall e :: !T.Replaces(State(), user, ref, e)
      ensures found.Some? ==> found.value in messages && messages[found.value].direction == T.Draft
                              && forall e :: e in entries && entries[e].message == found.value ==>
                                 entries[e].user == user
    {
      var rest := entries.Keys;
      var best: Option<Id> := None;
      while rest != {}
        invariant rest <= entries.Keys
        invariant best.None? ==> forall e :: e !in rest ==> !T.Replaces(State(), user, ref, e)
        invariant best.Some? ==> T.Replaces(State(), user, ref, best.value)
        invariant best.Some? ==> forall e :: e !in rest && T.Replaces(State(), user, ref, e) ==>
                  entries[e].createdAt <= entries[best.value].createdAt
        decreases |rest|
      {
        var e :| e in rest;
        if T.Matches(State(), user, ref, e) && T.IsDraft(State(), entries[e].message)
           && forall x :: x in entries && entries[x].message == entries[e].message ==> entries[x].user == user {
          assert T.Replaces(State(), user, ref, e);
          if best.None? || entries[e].createdAt > entries[best.value].createdAt {
            best := Some(e);
          }
        }
        rest := rest - {e};
      }
      if best.None? {
        return None;
      }
      assert T.ReplacesNewest(State(), user, ref, best.value);
      found := Some(entries[best.value].message);
    }

    method UsedBytes(user: Id) returns (used: nat)
      ensures used == T.Used(State(), user)
    {
      var weights := T.Weights(State(), user);
      var rest := weights;
      used := 0;
      while rest != map[]
        invariant used + T.Sum(rest) == T.Sum(weights)
        decreases |rest|
      {
        var e :| e in rest;
        Q.SumRemove(rest, e);
        assert (rest - {e}).Keys == rest.Keys - {e};
        used := used + rest[e];
        rest := rest - {e};
      }
    }

    // --------------------------------------------------------------- saving

    /** deliveryCounts: how many copies each user gets. */
    method CountCopies(deliveries: seq<T.Delivery>) returns (counts: map<Id, nat>)
      ensures forall u :: u in counts <==> exists k :: 0 <= k < |deliveries| && deliveries[k].user == u
      ensures forall u :: u in counts ==> counts[u] == T.Copies(deliveries, u)
    {
      counts := map[];
      for i := 0 to |deliveries|
        invariant forall u :: u in counts <==> exists k :: 0 <= k < i && deliveries[k].user == u
        invariant forall u :: (if u in counts then counts[u] else 0) == T.Copies(deliveries[..i], u)
      {
        var u := deliveries[i].user;
        CopiesSnoc(deliveries, i);
        counts := counts[u := (if u in counts then counts[u] else 0) + 1];
      }
      assert deliveries[..|deliveries|] == deliveries;
    }

    /** Every user who gets copies is active and has room for all of them. */
    method CheckQuota(size: nat, deliveries: seq<T.Delivery>) returns (result: Result)
      ensures result == Committed <==> T.QuotaAllows(State(), size, deliveries)
      ensures result == NotFound ==>
                exists i :: 0 <= i < |deliveries| && (deliveries[i].user !in users || !users[deliveries[i].user].active)
      ensures result == Committed || result == NotFound || result == QuotaExceeded
    {
      hide T.Used, T.Fits, T.Copies;
      var counts := CountCopies(deliveries);
      var rest := counts.Keys;
      while rest != {}
        invariant rest <= counts.Keys
        invariant forall u :: u in counts && u !in rest ==>
                    u in users && users[u].active && T.Fits(State(), u, size * T.Copies(deliveries, u))
        decreases |rest|
      {
        var u :| u in rest;
        if u !in users || !users[u].active {
          return NotFound;
        }
        var used := UsedBytes(u);
        FitsExactlyWhen(State(), u, size * counts[u]);
        if users[u].quota > 0 && used + size * counts[u] > users[u].quota {
          return QuotaExceeded;
        }
        rest := rest - {u};
      }
      result := Committed;
    }

    /** DELETE of one message row with the cascade to the index; refused while a
        queue row references it. */
    method DeleteMessageRow(message: Id) returns (ok: bool)
      modifies this
      ensures ok <==> !T.Referenced(old(State()), {message})
      ensures State() == if ok then T.DeleteMessages(old(State()), {message}) else old(State())
      ensures entries == old(entries)
    {
      if exists q :: q in queue && queue[q].message == message {
        return false;
      }
      messages := messages - {message};
      index := map r | r in index && index[r].message != message :: index[r];
      ok := true;
    }

    /** One entry, with the next UID of the mailbox the delivery is for. */
    method SaveMailboxEntry(message: Id, d: T.Delivery, date: Time, now: Time) returns (ok: bool)
      requires Valid() && message in messages
      modifies this
      ensures var box := T.FindMailbox(old(State()), d.user, if d.mailbox == "" then T.INBOX else d.mailbox);
              && (ok <==> box.Some?)
              && (ok ==> Valid() && box.value in old(mailboxes)
                         && State() == T.InsertEntry(old(State()), box.value, message, d.flags, date, now))
      ensures message in messages
    {
      hide Inv, Evolves, Alike;
      var box := FindMailbox(d.user, if d.mailbox == "" then T.INBOX else d.mailbox);
      if box.None? {
        return false;
      }
      InsertEntryKeeps(State(), box.value, message, d.flags, date, now);
      var row := mailboxes[box.value];
      entries := entries[nextId := T.Entry(box.value, row.user, message, row.uidNext, d.flags, date, now, None, None)];
      mailboxes := mailboxes[box.value := row.(uidNext := row.uidNext + 1)];
      nextId := nextId + 1;
      ok := true;
    }

    /** Inserts one entry per delivery; None when a mailbox is missing. */
    method InsertDeliveries(message: Id, deliveries: seq<T.Delivery>, date: Time, now: Time) returns (ok: bool)
      requires Valid() && message in messages
      modifies this
      ensures ok <==> T.DeliverAll(old(State()), message, deliveries, date, now).Some?
      ensures ok ==> Valid() && Some(State()) == T.DeliverAll(old(State()), message, deliveries, date, now)
      ensures ok ==> message in messages
    {
      hide Alike, Inv, Evolves;
      for i := 0 to |deliveries|
        invariant Valid() && message in messages
        invariant T.DeliverAll(old(State()), message, deliveries, date, now) ==
                  T.DeliverAll(State(), message, deliveries[i..], date, now)
      {
        var d := deliveries[i];
        assert deliveries[i..][0] == d && deliveries[i..][1..] == deliveries[i + 1..];
        ok := SaveMailboxEntry(message, d, date, now);
        if !ok {
          return;
        }
      }
      ok := true;
    }

    method InsertQueueRows(message: Id, recipients: seq<string>) returns (ok: bool)
      requires Valid() && message in messages
      modifies this
      ensures ok <==> T.QueueAll(old(State()), message, recipients).Some?
      ensures ok ==> Valid() && Some(State()) == T.QueueAll(old(State()), message, recipients)
    {
      hide Inv, Evolves;
      for i := 0 to |recipients|
        invariant Valid() && message in messages
        invariant T.QueueAll(old(State()), message, recipients) == T.QueueAll(State(), message, recipients[i..])
      {
        assert recipients[i..][0] == recipients[i] && recipients[i..][1..] == recipients[i + 1..];
        var row := T.QueueKey(message, recipients[i]);
        if row in queue.Values {
          return false;
        }
        InsertQueueKeeps(State(), message, row);
        queue := queue[nextId := row];
        nextId := nextId + 1;
      }
      ok := true;
    }

    /** Removes the draft a save replaces: its owner's entries, then the message. */
    method DropDraft(actor: Id, ref: Id) returns (draft: Option<Id>, ok: bool)
      requires Valid()
      modifies this
      ensures draft.None? ==> State() == old(State()) && forall e :: !T.Replaces(old(State()), actor, ref, e)
      ensures draft.Some? ==>
                && (exists e :: T.ReplacesNewest(old(State()), actor, ref, e) && old(entries)[e].message == draft.value)
                && (ok <==> !T.Referenced(old(State()),
                   T.Orphans(old(State()), T.EntriesOf(old(State()), draft.value))))
                && (ok ==> Valid() && State() == T.Purge(old(State()), T.EntriesOf(old(State()), draft.value)))
    {
      hide Inv, Evolves, T.Purge, T.Orphans, T.DeleteMessages, T.Referenced, T.Replaces, T.ReplacesNewest, T.EntriesOf;
      var tx := State();
      draft := LookupDraft(actor, ref);
      ok := false;
      if draft.Some? {
        var m := draft.value;
        entries := map e | e in entries && !(entries[e].message == m && entries[e].user == actor) :: entries[e];
        ghost var emptied := State();
        ok := DeleteMessageRow(m);
        ReplacedDraft(tx, actor, ref, m);
        SameQueueSameReferences(tx, emptied, {m});
        if ok {
          PurgeKeeps(tx, T.EntriesOf(tx, m));
        }
      }
    }

    /** The part of saveMessage after the draft is gone. */
    method StoreMessage(mail: T.Message, deliveries: seq<T.Delivery>, recipients: seq<string>,
                        archiveFull: bool, date: Time, now: Time) returns (result: Result)
      requires Valid()
      modifies this
      ensures result == Committed <==>
                T.Save(old(State()), None, mail, deliveries, recipients, archiveFull, date, now).Some?
      ensures result == Committed ==>
                Some(State()) == T.Save(old(State()), None, mail, deliveries, recipients, archiveFull, date, now)
      ensures result == ArchiveFull <==> archiveFull
    {
      hide Inv, Evolves, T.QuotaAllows, T.DeliverAll, T.QueueAll;
      ghost var tx := State();
      if archiveFull {
        return ArchiveFull;
      }
      var message := T.WithDefaults(mail);
      var checked := CheckQuota(message.size, deliveries);
      if checked != Committed {
        return checked;
      }
      InsertMessageKeeps(tx, message);
      var id := nextId;
      messages := messages[id := message];
      index := index[id + 1 := T.SearchRow(id, message.text)];
      nextId := id + 2;
      assert State() == T.InsertMessage(tx, message);
      var delivered := InsertDeliveries(id, deliveries, date, now);
      if !delivered {
        return NotFound;
      }
      var queued := InsertQueueRows(id, recipients);
      result := if queued then Committed else Conflict;
    }

    /** saveMessage, with the draft it replaced in `replaced`. */
    method Save(actor: Id, draft: Option<Id>, mail: T.Message, deliveries: seq<T.Delivery>, recipients: seq<string>,
                archiveFull: bool, date: Time, now: Time) returns (result: Result, replaced: Option<Id>)
      requires Valid()
      modifies this
      ensures Valid()
      ensures draft.None? ==> replaced.None?
      ensures draft.Some? && replaced.None? ==>
                result == NotFound && State() == old(State())
                  && forall e :: !T.Replaces(old(State()), actor, draft.value, e)
      ensures draft.Some? && replaced.Some? ==>
                exists e :: T.ReplacesNewest(old(State()), actor, draft.value, e)
                  && old(entries)[e].message == replaced.value
      ensures draft.None? || replaced.Some? ==>
                T.Performs(old(State()), T.OpSave(actor, replaced, mail, deliveries, recipients, archiveFull, date,
                  now),
                           result == Committed, State())
      ensures result == Committed ==> R.Saved(old(State()), State(), replaced, mail, deliveries, recipients, date, now)
    {
      hide Inv, Evolves, T.Purge, T.Orphans, T.Referenced, T.Save, R.Saved;
      var tx := State();
      replaced := None;
      if draft.Some? {
        var ok;
        replaced, ok := DropDraft(actor, draft.value);
        if replaced.None? {
          return NotFound, None;
        }
        SaveReplacing(tx, replaced.value, mail, deliveries, recipients, archiveFull, date, now);
        if !ok {
          Restore(tx);
          return ConstraintFailed, replaced;
        }
      }
      StepKeeps(tx, T.OpSave(actor, replaced, mail, deliveries, recipients, archiveFull, date, now));
      result := StoreMessage(mail, deliveries, recipients, archiveFull, date, now);
      if result != Committed {
        Restore(tx);
      } else {
        R.SaveLeaves(tx, T.OpSave(actor, replaced, mail, deliveries, recipients, archiveFull, date, now), State());
      }
    }

    // ------------------------------------------------------- copy and move

    /** IMAP COPY: quota first, then one row per listed entry with a local UID
        counter that is written back once. */
    method Copy(user: Id, destination: string, listed: seq<T.Listed>, now: Time) returns (result: Result)
      requires Valid()
      modifies this
      ensures Valid()
      ensures T.Performs(old(State()), T.OpCopy(user, destination, listed, now), result == Committed, State())
      ensures result == QuotaExceeded ==> listed != [] && !T.Fits(old(State()), user, T.TotalSize(listed))
    {
      hide Alike, Inv, Evolves, T.Used;
      var tx := State();
      StepKeeps(tx, T.OpCopy(user, destination, listed, now));
      if listed == [] {
        return Committed;
      }
      var box := FindMailbox(user, destination);
      if box.None? || user !in users {
        return NotFound;
      }
      var used := UsedBytes(user);
      var additional := AddSizes(listed);
      if users[user].quota > 0 && used + additional > users[user].quota {
        return QuotaExceeded;
      }
      var ok := CopyRows(box.value, listed, now);
      if !ok {
        Restore(tx);
        return ConstraintFailed;
      }
      result := Committed;
    }

    method AddSizes(listed: seq<T.Listed>) returns (additional: nat)
      ensures additional == T.TotalSize(listed)
    {
      additional := 0;
      for i := 0 to |listed|
        invariant additional + T.TotalSize(listed[i..]) == T.TotalSize(listed)
      {
        assert listed[i..][0] == listed[i] && listed[i..][1..] == listed[i + 1..];
        additional := additional + listed[i].size;
      }
    }

    method CopyRows(box: Id, listed: seq<T.Listed>, now: Time) returns (ok: bool)
      requires box in mailboxes
      modifies this
      ensures ok <==> T.CopyAll(old(State()), box, listed, now).Some?
      ensures ok ==> Some(State()) == T.CopyAll(old(State()), box, listed, now)
    {
      ghost var spec := State();
      var row := mailboxes[box];
      var uidNext := row.uidNext;
      for i := 0 to |listed|
        invariant box in spec.mailboxes && mailboxes == old(mailboxes)
        invariant spec == State().(mailboxes := mailboxes[box := row.(uidNext := uidNext)])
        invariant T.CopyAll(old(State()), box, listed, now) == T.CopyAll(spec, box, listed[i..], now)
      {
        var x := listed[i];
        assert listed[i..][0] == x && listed[i..][1..] == listed[i + 1..];
        if x.message !in messages {
          return false;
        }
        spec := T.InsertEntry(spec, box, x.message, x.flags + {T.Recent}, x.internalDate, now);
        entries := entries[nextId := T.Entry(box, row.user, x.message, uidNext, x.flags + {T.Recent}, x.internalDate,
          now, None, None)];
        nextId := nextId + 1;
        uidNext := uidNext + 1;
      }
      mailboxes := mailboxes[box := row.(uidNext := uidNext)];
      ok := true;
    }

    /** IMAP MOVE. */
    method MoveSelected(user: Id, source: Id, destination: string, selected: seq<Id>, now: Time)
        returns (result: Result)
      requires Valid()
      modifies this
      ensures Valid()
      ensures T.Performs(old(State()), T.OpMoveSelected(user, source, destination, selected, now), result == Committed,
              State())
      ensures result == Committed || result == NotFound
    {
      hide Alike, Inv, Evolves;
      StepKeeps(State(), T.OpMoveSelected(user, source, destination, selected, now));
      if selected == [] {
        return Committed;
      }
      var box := FindMailbox(user, destination);
      if box.None? {
        return NotFound;
      }
      MoveRows(user, source, box.value, selected, now);
      result := Committed;
    }

    method MoveRows(user: Id, source: Id, destination: Id, selected: seq<Id>, now: Time)
      requires destination in mailboxes
      modifies this
      ensures State() == T.MoveAll(old(State()), user, source, destination, selected, now)
    {
      ghost var spec := State();
      var box := mailboxes[destination];
      var uidNext := box.uidNext;
      for i := 0 to |selected|
        invariant destination in spec.mailboxes && mailboxes == old(mailboxes)
        invariant spec == State().(mailboxes := mailboxes[destination := box.(uidNext := uidNext)])
        invariant T.MoveAll(old(State()), user, source, destination, selected, now) ==
                  T.MoveAll(spec, user, source, destination, selected[i..], now)
      {
        var e := selected[i];
        MoveAllNext(spec, user, source, destination, selected, i, now);
        hide T.MoveAll, T.MoveStep;
        if T.Movable(State(), user, source, e) {
          MoveStepMailboxes(spec, destination, e, now);
          MoveRow(destination, e, uidNext, now);
          spec := T.MoveStep(spec, destination, e, now);
          uidNext := uidNext + 1;
        }
      }
      mailboxes := mailboxes[destination := box.(uidNext := uidNext)];
    }

    /** Inserts the destination row with the given UID and retires the source row. */
    method MoveRow(destination: Id, e: Id, uid: int, now: Time)
      requires destination in mailboxes && e in entries
      modifies this
      ensures State() == var counted := old(mailboxes)[destination := old(mailboxes)[destination].(uidNext := uid)];
                         T.MoveStep(old(State()).(mailboxes := counted), destination, e, now)
                           .(mailboxes := old(mailboxes))
    {
      var row := entries[e];
      entries := entries[nextId := T.Entry(destination, mailboxes[destination].user, row.message, uid,
                                           row.flags + {T.Recent}, row.internalDate, now, None, None)];
      nextId := nextId + 1;
      if T.IsDraft(State(), row.message) {
        entries := entries - {e};
      } else {
        entries := map x | x in entries :: if x in {e} then T.ExpungedEntry(entries[x], now) else entries[x];
      }
    }

    /** The web move: the row itself is rehomed. */
    method MoveMessage(user: Id, ref: Id, raw: string, now: Time) returns (result: Result, found: Option<Id>)
      requires Valid()
      modifies this
      ensures Valid()
      ensures found.None? ==>
                result == NotFound && State() == old(State()) && forall e :: !T.Matches(old(State()), user, ref, e)
      ensures found.Some? ==>
                T.Performs(old(State()), T.OpMoveOne(user, ref, found.value, Trim(raw), now), result == Committed,
                  State())
    {
      var mailbox := Trim(raw);
      hide Alike, Inv, Evolves, Trim, T.TrashedAt, EqualFold;
      found := LookupEntry(user, ref);
      if found.None? {
        return NotFound, None;
      }
      var e := found.value;
      StepKeeps(State(), T.OpMoveOne(user, ref, e, mailbox, now));
      var target := FindMailbox(user, mailbox);
      if target.None? {
        return NotFound, found;
      }
      var row := entries[e];
      if row.mailbox == target.value {
        entries := entries[e := row.(deletedAt := T.TrashedAt(mailbox, now))];
      } else {
        var box := mailboxes[target.value];
        entries := entries[e := row.(mailbox := target.value, uid := box.uidNext,
          deletedAt := T.TrashedAt(mailbox, now))];
        mailboxes := mailboxes[target.value := box.(uidNext := box.uidNext + 1)];
      }
      result := Committed;
    }

    // ----------------------------------------------------- flags and expunge

    method UpdateFlags(user: Id, ref: Id, flags: set<T.Flag>) returns (result: Result, found: Option<Id>)
      requires Valid()
      modifies this
      ensures Valid()
      ensures found.None? ==>
                result == NotFound && State() == old(State()) && forall e :: !T.Matches(old(State()), user, ref, e)
      ensures found.Some? ==>
                T.Performs(old(State()), T.OpUpdateFlags(user, ref, found.value, flags), result == Committed, State())
    {
      hide Inv, Evolves;
      found := LookupEntry(user, ref);
      if found.None? {
        return NotFound, None;
      }
      StepKeeps(State(), T.OpUpdateFlags(user, ref, found.value, flags));
      entries := entries[found.value := entries[found.value].(flags := flags)];
      result := Committed;
    }

    method SetEntryFlags(user: Id, mailbox: Id, entry: Id, flags: set<T.Flag>, now: Time) returns (result: Result)
      requires Valid()
      modifies this
      ensures Valid()
      ensures T.Performs(old(State()), T.OpSetEntryFlags(user, mailbox, entry, flags, now), result == Committed,
              State())
      ensures result == Committed || result == NotFound
    {
      hide Inv, Evolves;
      StepKeeps(State(), T.OpSetEntryFlags(user, mailbox, entry, flags, now));
      if !T.Movable(State(), user, mailbox, entry) {
        return NotFound;
      }
      var row := entries[entry];
      var deletedAt: Option<Time> := None;
      if T.Deleted in flags {
        deletedAt := if row.deletedAt.Some? then row.deletedAt else Some(now);
      }
      entries := entries[entry := row.(flags := flags, deletedAt := deletedAt)];
      result := Committed;
    }

    method ExpungeMessage(user: Id, ref: Id, now: Time) returns (result: Result, found: Option<Id>)
      requires Valid()
      modifies this
      ensures Valid()
      ensures found.None? ==>
                result == NotFound && State() == old(State()) && forall e :: !T.Matches(old(State()), user, ref, e)
      ensures found.Some? ==>
                T.Performs(old(State()), T.OpExpungeOne(user, ref, found.value, now), result == Committed, State())
    {
      hide Inv, Evolves, T.Purge, T.SoftExpunge, T.Orphans, T.Referenced;
      var tx := State();
      found := LookupEntry(user, ref);
      if found.None? {
        return NotFound, None;
      }
      var e := found.value;
      StepKeeps(tx, T.OpExpungeOne(user, ref, e, now));
      if T.IsDraft(State(), entries[e].message) {
        var ok := RemoveDraftEntry(e);
        if !ok {
          Restore(tx);
          return ConstraintFailed, found;
        }
      } else {
        SetExpunged(e, now);
      }
      result := Committed;
    }

    /** Deletes one draft entry, and the draft when no entry is left. */
    method RemoveDraftEntry(e: Id) returns (ok: bool)
      requires e in entries && T.IsDraft(State(), entries[e].message)
      modifies this
      ensures ok <==> !T.Referenced(old(State()), T.Orphans(old(State()), {e}))
      ensures ok ==> State() == T.Purge(old(State()), {e})
    {
      ghost var before := State();
      var message := entries[e].message;
      entries := entries - {e};
      OneOrphan(before, e);
      hide T.Orphans, T.Referenced;
      ok := true;
      if !exists x :: x in entries && entries[x].message == message {
        ok := DeleteMessageRow(message);
      }
    }

    /** EXPUNGE, entry by entry over the entries that carry \Deleted. */
    method ExpungeDeleted(user: Id, mailbox: Id, now: Time) returns (result: Result, count: nat)
      requires Valid()
      modifies this
      ensures Valid()
      ensures T.Performs(old(State()), T.OpExpungeDeleted(user, mailbox, now), result == Committed, State())
      ensures result == Committed ==> count == |T.Condemned(old(State()), user, mailbox)|
    {
      hide Inv, Evolves, Expunged, T.ExpungeDeleted;
      hide T.Orphans, T.Purge, T.SoftExpunge, T.Condemned, T.DraftEntries, T.Referenced;
      var tx := State();
      StepKeeps(tx, T.OpExpungeDeleted(user, mailbox, now));
      var candidates := T.Condemned(tx, user, mailbox);
      ExpungedAll(tx, user, mailbox, now);
      var rest := candidates;
      count := 0;
      ExpungeStart(tx, now);
      while rest != {}
        invariant rest <= candidates && count == |candidates - rest|
        invariant State() == Expunged(tx, candidates - rest, now)
        invariant !T.Referenced(tx, T.Orphans(tx, T.DraftEntries(tx, candidates - rest)))
        decreases |rest|
      {
        var e :| e in rest;
        ghost var done := candidates - rest;
        assert candidates - (rest - {e}) == done + {e};
        CondemnedEntry(tx, user, mailbox, e, done, now);
        if T.IsDraft(State(), entries[e].message) {
          ExpungeNextDraft(tx, done, e, now);
          var ok := RemoveDraftEntry(e);
          if !ok {
            OrphansGrow(tx, done + {e}, candidates);
            Restore(tx);
            return ConstraintFailed, 0;
          }
        } else {
          ExpungeNextKept(tx, done, e, now);
          assert State() == Expunged(tx, done, now);
          SetExpunged(e, now);
        }
        count := count + 1;
        rest := rest - {e};
      }
      assert candidates - {} == candidates;
      result := Committed;
    }

    method SetExpunged(e: Id, now: Time)
      requires e in entries
      modifies this
      ensures State() == T.SoftExpunge(old(State()), {e}, now)
    {
      entries := map x | x in entries :: if x in {e} then T.ExpungedEntry(entries[x], now) else entries[x];
    }

    // ------------------------------------------------ accounts and mailboxes

    /** A new account with one mailbox row per system name, in order. */
    method CreateUser(quota: nat, now: Time) returns (user: Id)
      requires Valid()
      modifies this
      ensures Valid() && user == old(nextId)
      ensures T.Performs(old(State()), T.OpCreateUser(quota, now), true, State())
    {
      hide Inv, Evolves, SystemPrefix, T.SystemRows;
      StepKeeps(State(), T.OpCreateUser(quota, now));
      user := nextId;
      users := users[user := T.User(true, quota)];
      InsertSystemMailboxes(user, now);
    }

    method InsertSystemMailboxes(user: Id, now: Time)
      requires nextId == user
      modifies this
      ensures State() == old(State()).(mailboxes := old(mailboxes) + T.SystemRows(user, user + 1, now),
                                       nextId := user + 1 + |T.SYSTEM_MAILBOXES|)
    {
      hide SystemPrefix, T.SystemRows;
      nextId := user + 1;
      SystemPrefixEnds(user, user + 1, now);
      assert old(mailboxes) + SystemPrefix(user, user + 1, now, 0) == old(mailboxes);
      for i := 0 to |T.SYSTEM_MAILBOXES|
        invariant mailboxes == old(mailboxes) + SystemPrefix(user, user + 1, now, i) && nextId == user + 1 + i
        invariant users == old(users) && messages == old(messages) && entries == old(entries)
        invariant queue == old(queue) && index == old(index)
      {
        SystemPrefixGrows(user, user + 1, now, i);
        UnionUpdate(old(mailboxes), SystemPrefix(user, user + 1, now, i), user + 1 + i,
                    T.Mailbox(user, T.SYSTEM_MAILBOXES[i], now + i, 1, true));
        assert nextId == user + 1 + i;
        mailboxes := mailboxes[nextId := T.Mailbox(user, T.SYSTEM_MAILBOXES[i], now + i, 1, true)];
        nextId := nextId + 1;
      }
    }

    method SetUser(user: Id, row: T.User) returns (result: Result)
      requires Valid()
      modifies this
      ensures Valid()
      ensures T.Performs(old(State()), T.OpSetUser(user, row), result == Committed, State())
      ensures result == Committed || result == NotFound
    {
      hide Inv, Evolves;
      StepKeeps(State(), T.OpSetUser(user, row));
      if user !in users {
        return NotFound;
      }
      users := users[user := row];
      result := Committed;
    }

    /** COUNT(*) and COALESCE(MAX(uid_validity), now) over the user's mailboxes. */
    method CountMailboxes(user: Id, now: Time) returns (count: nat, maxValidity: int)
      ensures count == |T.UserMailboxes(State(), user)| && maxValidity + 1 == T.NextValidity(State(), user, now)
    {
      var boxes := T.UserMailboxes(State(), user);
      count := |boxes|;
      if boxes == {} {
        return count, now;
      }
      var first :| first in boxes;
      maxValidity := mailboxes[first].uidValidity;
      var rest := boxes - {first};
      while rest != {}
        invariant rest <= boxes
        invariant exists m :: m in boxes && mailboxes[m].uidValidity == maxValidity
        invariant forall m :: m in boxes && m !in rest ==> mailboxes[m].uidValidity <= maxValidity
        decreases |rest|
      {
        var m :| m in rest;
        maxValidity := Max(maxValidity, mailboxes[m].uidValidity);
        rest := rest - {m};
      }
      MaxValidityIsMaximum(State(), boxes);
    }

    /** A name that is not valid is refused before the transaction begins. */
    method CreateMailbox(user: Id, raw: string, now: Time) returns (result: Result)
      requires Valid()
      modifies this
      ensures Valid()
      ensures result == InvalidName <==> T.ValidMailboxName(raw).None?
      ensures result == InvalidName ==> State() == old(State())
      ensures result != InvalidName ==>
                T.Performs(old(State()), T.OpCreateMailbox(user, T.ValidMailboxName(raw).value, now),
                  result == Committed, State())
      ensures result == ResourceLimit
              <==> T.ValidMailboxName(raw).Some? && |T.UserMailboxes(old(State()), user)| >= T.MAX_MAILBOXES
    {
      hide Alike, Inv, Evolves, EqualFold, T.UserMailboxes, T.NextValidity, T.ValidMailboxName;
      var valid := T.ValidMailboxName(raw);
      if valid.None? {
        return InvalidName;
      }
      var name := valid.value;
      StepKeeps(State(), T.OpCreateMailbox(user, name, now));
      var count, maxValidity := CountMailboxes(user, now);
      if count >= T.MAX_MAILBOXES {
        return ResourceLimit;
      }
      var taken := FindMailbox(user, name);
      if taken.Some? || user !in users {
        return Conflict;
      }
      mailboxes := mailboxes[nextId := T.Mailbox(user, name, maxValidity + 1, 1, true)];
      nextId := nextId + 1;
      result := Committed;
    }

    /** The inbox is not renamed, and no mailbox gets a name that is not valid. */
    method RenameMailbox(user: Id, name: string, raw: string) returns (result: Result)
      requires Valid()
      modifies this
      ensures Valid()
      ensures result == Forbidden <==> EqualFold(name, T.INBOX)
      ensures result == InvalidName <==> !EqualFold(name, T.INBOX) && T.ValidMailboxName(raw).None?
      ensures result == InvalidName || result == Forbidden ==> State() == old(State())
      ensures T.ValidMailboxName(raw).Some? ==>
                T.Performs(old(State()), T.OpRenameMailbox(user, name, T.ValidMailboxName(raw).value),
                  result == Committed, State())
    {
      hide Alike, Inv, Evolves, EqualFold, T.ValidMailboxName;
      if EqualFold(name, T.INBOX) {
        return Forbidden;
      }
      var valid := T.ValidMailboxName(raw);
      if valid.None? {
        return InvalidName;
      }
      var newName := valid.value;
      StepKeeps(State(), T.OpRenameMailbox(user, name, newName));
      var box := FindMailbox(user, name);
      if box.None? {
        return NotFound;
      }
      if exists m :: m in mailboxes && m != box.value && T.Names(State(), m, user, newName) {
        return Conflict;
      }
      mailboxes := mailboxes[box.value := mailboxes[box.value].(name := newName)];
      result := Committed;
    }

    method SetSubscribed(user: Id, name: string, subscribed: bool) returns (result: Result)
      requires Valid()
      modifies this
      ensures Valid()
      ensures T.Performs(old(State()), T.OpSetSubscribed(user, name, subscribed), result == Committed, State())
      ensures result == Committed || result == NotFound
    {
      hide Alike, Inv, Evolves, EqualFold;
      StepKeeps(State(), T.OpSetSubscribed(user, name, subscribed));
      var box := FindMailbox(user, name);
      if box.None? {
        return NotFound;
      }
      mailboxes := mailboxes[box.value := mailboxes[box.value].(subscribed := subscribed)];
      result := Committed;
    }

    /** The cascade removes the entries; then each draft found beforehand goes if
        nothing points to it any more. */
    method DeleteMailbox(user: Id, raw: string) returns (result: Result)
      requires Valid()
      modifies this
      ensures Valid()
      ensures T.Performs(old(State()), T.OpDeleteMailbox(user, Trim(raw)), result == Committed, State())
      ensures result == Forbidden <==> T.IsSystemName(Trim(raw))
    {
      var name := Trim(raw);
      hide Alike, Trim, Inv, Evolves, EqualFold, T.IsSystemName, T.Purge, T.Orphans, T.Referenced, T.EntriesIn;
      var tx := State();
      StepKeeps(tx, T.OpDeleteMailbox(user, name));
      if T.IsSystemName(name) {
        return Forbidden;
      }
      var box := FindMailbox(user, name);
      if box.None? {
        return NotFound;
      }
      var ok := RemoveEntries(T.EntriesIn(tx, box.value));
      if !ok {
        Restore(tx);
        return ConstraintFailed;
      }
      PurgeMailboxes(tx, T.EntriesIn(tx, box.value));
      mailboxes := mailboxes - {box.value};
      result := Committed;
    }

    /** Physical removal of entries, then of the drafts among their messages that
        are left without any. */
    method RemoveEntries(gone: set<Id>) returns (ok: bool)
      modifies this
      ensures ok <==> !T.Referenced(old(State()), T.Orphans(old(State()), gone))
      ensures ok ==> State() == T.Purge(old(State()), gone)
    {
      hide T.Orphans, T.DeleteMessages, T.Referenced, DraftIDs;
      ghost var before := State();
      var draftIDs := DraftIDs(State(), gone);
      entries := entries - gone;
      var rest := draftIDs;
      NothingDeleted(before, gone);
      while rest != {}
        invariant rest <= draftIDs && entries == before.entries - gone
        invariant State() == T.DeleteMessages(before.(entries := before.entries - gone), T.Orphans(before, gone) - rest)
        invariant !T.Referenced(before, T.Orphans(before, gone) - rest)
        decreases |rest|
      {
        var m :| m in rest;
        OrphanOrNot(before, gone, m);
        if !exists x :: x in entries && entries[x].message == m {
          DeleteOneMore(before, gone, rest, m);
          ok := DeleteMessageRow(m);
          if !ok {
            return false;
          }
        } else {
          assert T.Orphans(before, gone) - rest == T.Orphans(before, gone) - (rest - {m});
        }
        rest := rest - {m};
      }
      assert T.Orphans(before, gone) - {} == T.Orphans(before, gone);
      ok := true;
    }

    method SetTransportStatus(message: Id, status: string)
      requires Valid()
      modifies this
      ensures Valid()
      ensures T.Performs(old(State()), T.OpSetTransportStatus(message, status), true, State())
    {
      StepKeeps(State(), T.OpSetTransportStatus(message, status));
      hide *;
      WriteStatus(message, status);
      SetTransportStatusPerforms(old(State()), message, status);
    }

    /** The UPDATE and its trigger. */
    method WriteStatus(message: Id, status: string)
      modifies this
      ensures State() == T.SetTransportStatus(old(State()), message, status)
    {
      if message in messages {
        var row := messages[message];
        messages := messages[message := row.(transportStatus := status)];
        index := map r | r in index && index[r].message != message :: index[r];
        index := index[nextId := T.SearchRow(message, row.text)];
        nextId := nextId + 1;
      }
    }
  }
}
