/** The SQLite tables of the mail store and, for every transaction, the state it
    commits. `None` is a rolled-back transaction. Row identifiers come from a
    counter, so a new identifier is never one that was used before. */
module MailTables {
  import opened Common
  import Times

  type Id = nat
  type Time = Times.Time

  datatype Direction = Inbound | Outbound | Draft | Append
  datatype Flag = Seen | Answered | Flagged | Deleted | DraftFlag | Recent

  /** The columns the full-text index copies from a message. */
  datatype SearchText = SearchText(subject: string, headerFrom: string, recipients: string, textBody: string)

  datatype User = User(active: bool, quota: nat)
  datatype Mailbox = Mailbox(user: Id, name: string, uidValidity: int, uidNext: int, subscribed: bool)
  datatype Message = Message(direction: Direction, raw: seq<bv8>, size: nat, text: SearchText, transportStatus: string)
  datatype Entry = Entry(mailbox: Id, user: Id, message: Id, uid: int, flags: set<Flag>,
                         internalDate: Time, createdAt: Time, deletedAt: Option<Time>, expungedAt: Option<Time>)
  datatype QueueRow = QueueRow(message: Id, recipient: string)
  datatype SearchRow = SearchRow(message: Id, text: SearchText)

  datatype Tables = Tables(
    users: map<Id, User>,
    mailboxes: map<Id, Mailbox>,
    messages: map<Id, Message>,
    entries: map<Id, Entry>,
    queue: map<Id, QueueRow>,
    index: map<Id, SearchRow>,
    nextId: Id)

  const EmptyTables := Tables(map[], map[], map[], map[], map[], map[], 0)

  datatype Delivery = Delivery(user: Id, mailbox: string, flags: set<Flag>)

  /** A row of an IMAP listing, held by a client between two transactions. */
  datatype Listed = Listed(entry: Id, message: Id, size: nat, flags: set<Flag>, internalDate: Time)

  const INBOX := "INBOX"
  const TRASH := "Trash"
  const SYSTEM_MAILBOXES: seq<string> := [INBOX, "Drafts", "Sent", "Archive", "Junk", TRASH]
  const MAX_MAILBOXES := 100
  const MAX_MAILBOX_NAME_BYTES := 255

  // ---------------------------------------------------------------- lookups

  predicate Visible(e: Entry) {
    e.expungedAt.None?
  }

  predicate IsDraft(t: Tables, message: Id) {
    message in t.messages && t.messages[message].direction == Draft
  }

  /** `WHERE user_id=? AND name=? COLLATE NOCASE` */
  predicate Names(t: Tables, mailbox: Id, user: Id, name: string) {
    mailbox in t.mailboxes && t.mailboxes[mailbox].user == user && EqualFold(t.mailboxes[mailbox].name, name)
  }

  ghost function FindMailbox(t: Tables, user: Id, name: string): Option<Id> {
    if exists m :: Names(t, m, user, name) then
      var m :| Names(t, m, user, name); Some(m)
    else None
  }

  /** A visible entry of the user that an entry or message identifier denotes. */
  predicate Matches(t: Tables, user: Id, ref: Id, e: Id) {
    && e in t.entries
    && t.entries[e].user == user
    && Visible(t.entries[e])
    && (e == ref || t.entries[e].message == ref)
  }

  /** `ORDER BY created_at DESC LIMIT 1` over the matching entries. */
  ghost predicate Selected(t: Tables, user: Id, ref: Id, e: Id) {
    && Matches(t, user, ref, e)
    && forall x :: Matches(t, user, ref, x) ==> t.entries[x].createdAt <= t.entries[e].createdAt
  }

  predicate SoleOwner(t: Tables, user: Id, message: Id) {
    forall x :: x in t.entries && t.entries[x].message == message ==> t.entries[x].user == user
  }

  /** An entry whose draft `user` may replace: nobody else has an entry for it. */
  predicate Replaces(t: Tables, user: Id, ref: Id, e: Id) {
    && Matches(t, user, ref, e)
    && IsDraft(t, t.entries[e].message)
    && SoleOwner(t, user, t.entries[e].message)
  }

  /** `ORDER BY created_at DESC LIMIT 1` over the drafts that may be replaced. */
  ghost predicate ReplacesNewest(t: Tables, user: Id, ref: Id, e: Id) {
    && Replaces(t, user, ref, e)
    && forall x :: Replaces(t, user, ref, x) ==> t.entries[x].createdAt <= t.entries[e].createdAt
  }

  predicate IsControl(c: char) {
    c as int < 0x20 || 0x7F <= c as int < 0xA0
  }

  /** The length of the UTF-8 encoding. */
  function Utf8Length(s: string): nat {
    if s == "" then 0
    else
      var c := s[0] as int;
      (if c < 0x80 then 1 else if c < 0x800 then 2 else if c < 0x1_0000 then 3 else 4) + Utf8Length(s[1..])
  }

  /** The name a mailbox gets: trimmed, not empty, not too long, and without
      control characters; None if there is no such name. */
  function ValidMailboxName(name: string): (r: Option<string>)
    ensures r.Some? ==> r.value != "" && !IsBlank(r.value[0]) && !IsBlank(r.value[|r.value| - 1])
  {
    var trimmed := Trim(name);
    if trimmed == "" || Utf8Length(trimmed) > MAX_MAILBOX_NAME_BYTES
      || (exists i :: 0 <= i < |trimmed| && IsControl(trimmed[i])) then None
    else Some(trimmed)
  }

  predicate IsSystemName(name: string) {
    exists i :: 0 <= i < |SYSTEM_MAILBOXES| && EqualFold(name, SYSTEM_MAILBOXES[i])
  }

  // ------------------------------------------------------- sizes and quotas

  /** The sum of the values of a finite map. */
  ghost function Sum(m: map<Id, nat>): nat
    decreases |m|
  {
    if m == map[] then 0
    else
      var k :| k in m;
      m[k] + Sum(m - {k})
  }

  function SizeOf(t: Tables, message: Id): nat {
    if message in t.messages then t.messages[message].size else 0
  }

  /** What each visible entry of a user weighs against the quota. */
  function Weights(t: Tables, user: Id): map<Id, nat> {
    map e | e in t.entries && t.entries[e].user == user && Visible(t.entries[e]) :: SizeOf(t, t.entries[e].message)
  }

  ghost function Used(t: Tables, user: Id): nat {
    Sum(Weights(t, user))
  }

  function Copies(deliveries: seq<Delivery>, user: Id): nat {
    if deliveries == [] then 0
    else (if deliveries[0].user == user then 1 else 0) + Copies(deliveries[1..], user)
  }

  ghost predicate Fits(t: Tables, user: Id, additional: nat) {
    user in t.users && (t.users[user].quota == 0 || Used(t, user) + additional <= t.users[user].quota)
  }

  function TotalSize(listed: seq<Listed>): nat {
    if listed == [] then 0 else listed[0].size + TotalSize(listed[1..])
  }

  // ---------------------------------------------------------- row operations

  /** One row of `mailbox_entries` with the next UID of its mailbox. */
  function InsertEntry(t: Tables, mailbox: Id, message: Id, flags: set<Flag>, date: Time, now: Time): Tables
    requires mailbox in t.mailboxes
  {
    var box := t.mailboxes[mailbox];
    t.(entries := t.entries[t.nextId := Entry(mailbox, box.user, message, box.uidNext, flags, date, now, None, None)],
       mailboxes := t.mailboxes[mailbox := box.(uidNext := box.uidNext + 1)],
       nextId := t.nextId + 1)
  }

  /** `INSERT INTO messages` with the trigger that indexes the new row. */
  function InsertMessage(t: Tables, m: Message): Tables {
    t.(messages := t.messages[t.nextId := m],
       index := t.index[t.nextId + 1 := SearchRow(t.nextId, m.text)],
       nextId := t.nextId + 2)
  }

  /** `DELETE FROM messages` with the trigger that drops the index rows. */
  function DeleteMessages(t: Tables, gone: set<Id>): Tables {
    t.(messages := t.messages - gone,
       index := map r | r in t.index && t.index[r].message !in gone :: t.index[r])
  }

  /** The drafts that lose their last entry when the entries in `gone` go. */
  function Orphans(t: Tables, gone: set<Id>): set<Id> {
    set e | e in gone && e in t.entries && IsDraft(t, t.entries[e].message)
            && (forall x :: x in t.entries && x !in gone ==> t.entries[x].message != t.entries[e].message)
      :: t.entries[e].message
  }

  /** Physical removal of entries, then of every draft left without one. */
  function Purge(t: Tables, gone: set<Id>): Tables {
    DeleteMessages(t.(entries := t.entries - gone), Orphans(t, gone))
  }

  /** A queue row still references one of the messages (no ON DELETE action). */
  predicate Referenced(t: Tables, messages: set<Id>) {
    exists q :: q in t.queue && t.queue[q].message in messages
  }

  function ExpungedEntry(e: Entry, now: Time): Entry {
    e.(expungedAt := Some(now), deletedAt := if e.deletedAt.Some? then e.deletedAt else Some(now))
  }

  function SoftExpunge(t: Tables, which: set<Id>, now: Time): Tables {
    t.(entries := map e | e in t.entries :: if e in which then ExpungedEntry(t.entries[e], now) else t.entries[e])
  }

  function EntriesOf(t: Tables, message: Id): set<Id> {
    set e | e in t.entries && t.entries[e].message == message
  }

  function EntriesIn(t: Tables, mailbox: Id): set<Id> {
    set e | e in t.entries && t.entries[e].mailbox == mailbox
  }

  // ----------------------------------------------------------- transactions

  function WithDefaults(m: Message): Message {
    if m.size == 0 then m.(size := |m.raw|) else m
  }

  ghost function DeliverAll(t: Tables, message: Id, deliveries: seq<Delivery>, date: Time, now: Time): Option<Tables>
    decreases deliveries
  {
    if deliveries == [] then Some(t)
    else
      var d := deliveries[0];
      var box := FindMailbox(t, d.user, if d.mailbox == "" then INBOX else d.mailbox);
      if box.None? then None
      else DeliverAll(InsertEntry(t, box.value, message, d.flags, date, now), message, deliveries[1..], date, now)
  }

  function QueueKey(message: Id, recipient: string): QueueRow {
    QueueRow(message, Lower(Trim(recipient)))
  }

  function QueueAll(t: Tables, message: Id, recipients: seq<string>): Option<Tables>
    decreases recipients
  {
    if recipients == [] then Some(t)
    else
      var row := QueueKey(message, recipients[0]);
      if row in t.queue.Values then None
      else QueueAll(t.(queue := t.queue[t.nextId := row], nextId := t.nextId + 1), message, recipients[1..])
  }

  ghost predicate QuotaAllows(t: Tables, size: nat, deliveries: seq<Delivery>) {
    forall i :: 0 <= i < |deliveries| ==>
      var u := deliveries[i].user;
      u in t.users && t.users[u].active && Fits(t, u, size * Copies(deliveries, u))
  }

  /** saveMessage: optional draft replacement, quota, message, entries, queue. */
  ghost function Save(t: Tables, replaced: Option<Id>, m: Message, deliveries: seq<Delivery>, recipients: seq<string>,
                      archiveFull: bool, date: Time, now: Time): Option<Tables>
  {
    if replaced.Some? && Referenced(t, Orphans(t, EntriesOf(t, replaced.value))) then None
    else
      var t1 := if replaced.Some? then Purge(t, EntriesOf(t, replaced.value)) else t;
      var message := WithDefaults(m);
      if archiveFull || !QuotaAllows(t1, message.size, deliveries) then None
      else
        var t2 := DeliverAll(InsertMessage(t1, message), t1.nextId, deliveries, date, now);
        if t2.None? then None else QueueAll(t2.value, t1.nextId, recipients)
  }

  function CopyAll(t: Tables, mailbox: Id, listed: seq<Listed>, now: Time): Option<Tables>
    requires mailbox in t.mailboxes
    decreases listed
  {
    if listed == [] then Some(t)
    else if listed[0].message !in t.messages then None
    else CopyAll(InsertEntry(t, mailbox, listed[0].message, listed[0].flags + {Recent}, listed[0].internalDate, now),
                 mailbox, listed[1..], now)
  }

  ghost function Copy(t: Tables, user: Id, destination: string, listed: seq<Listed>, now: Time): Option<Tables> {
    if listed == [] then Some(t)
    else
      var box := FindMailbox(t, user, destination);
      if box.None? || !Fits(t, user, TotalSize(listed)) then None
      else CopyAll(t, box.value, listed, now)
  }

  predicate Movable(t: Tables, user: Id, source: Id, e: Id) {
    e in t.entries && t.entries[e].user == user && t.entries[e].mailbox == source && Visible(t.entries[e])
  }

  /** One iteration of the IMAP move loop: copy, then retire the source row. */
  function MoveStep(t: Tables, destination: Id, e: Id, now: Time): Tables
    requires destination in t.mailboxes && e in t.entries
  {
    var row := t.entries[e];
    var copied := InsertEntry(t, destination, row.message, row.flags + {Recent}, row.internalDate, now);
    if IsDraft(t, row.message) then copied.(entries := copied.entries - {e})
    else SoftExpunge(copied, {e}, now)
  }

  function MoveAll(t: Tables, user: Id, source: Id, destination: Id, selected: seq<Id>, now: Time): Tables
    requires destination in t.mailboxes
    decreases selected
  {
    if selected == [] then t
    else if !Movable(t, user, source, selected[0]) then MoveAll(t, user, source, destination, selected[1..], now)
    else MoveAll(MoveStep(t, destination, selected[0], now), user, source, destination, selected[1..], now)
  }

  ghost function MoveSelected(t: Tables, user: Id, source: Id, destination: string, selected: seq<Id>,
      now: Time): Option<Tables> {
    if selected == [] then Some(t)
    else
      var box := FindMailbox(t, user, destination);
      if box.None? then None else Some(MoveAll(t, user, source, box.value, selected, now))
  }

  function TrashedAt(mailbox: string, now: Time): Option<Time> {
    if mailbox == TRASH then Some(now) else None
  }

  /** MoveMessage: the row itself changes mailbox and takes the next UID there. */
  function Rehome(t: Tables, e: Id, target: Id, mailbox: string, now: Time): Tables
    requires e in t.entries && target in t.mailboxes
  {
    var row := t.entries[e];
    var box := t.mailboxes[target];
    if row.mailbox == target then t.(entries := t.entries[e := row.(deletedAt := TrashedAt(mailbox, now))])
    else
      t.(entries := t.entries[e := row.(mailbox := target, uid := box.uidNext, deletedAt := TrashedAt(mailbox, now))],
         mailboxes := t.mailboxes[target := box.(uidNext := box.uidNext + 1)])
  }

  ghost function MoveOne(t: Tables, user: Id, e: Id, mailbox: string, now: Time): Option<Tables>
    requires e in t.entries
  {
    var box := FindMailbox(t, user, mailbox);
    if box.None? then None else Some(Rehome(t, e, box.value, mailbox, now))
  }

  /** Web flag update: only the flags column. */
  function UpdateFlags(t: Tables, e: Id, flags: set<Flag>): Tables
    requires e in t.entries
  {
    t.(entries := t.entries[e := t.entries[e].(flags := flags)])
  }

  /** IMAP flag update: `deleted_at` follows the \Deleted flag. */
  function SetEntryFlags(t: Tables, user: Id, mailbox: Id, e: Id, flags: set<Flag>, now: Time): Option<Tables> {
    if !Movable(t, user, mailbox, e) then None
    else
      var row := t.entries[e];
      var deletedAt := if Deleted !in flags then None else if row.deletedAt.Some? then row.deletedAt else Some(now);
      Some(t.(entries := t.entries[e := row.(flags := flags, deletedAt := deletedAt)]))
  }

  function ExpungeOne(t: Tables, e: Id, now: Time): Option<Tables>
    requires e in t.entries
  {
    if !IsDraft(t, t.entries[e].message) then Some(SoftExpunge(t, {e}, now))
    else if Referenced(t, Orphans(t, {e})) then None
    else Some(Purge(t, {e}))
  }

  function Condemned(t: Tables, user: Id, mailbox: Id): set<Id> {
    set e | e in t.entries && Movable(t, user, mailbox, e) && Deleted in t.entries[e].flags
  }

  function DraftEntries(t: Tables, which: set<Id>): set<Id> {
    set e | e in which && e in t.entries && IsDraft(t, t.entries[e].message)
  }

  /** EXPUNGE: archive entries are hidden, draft entries are removed. */
  function ExpungeDeleted(t: Tables, user: Id, mailbox: Id, now: Time): Option<Tables> {
    var condemned := Condemned(t, user, mailbox);
    var drafts := DraftEntries(t, condemned);
    if Referenced(t, Orphans(t, drafts)) then None
    else Some(SoftExpunge(Purge(t, drafts), condemned - drafts, now))
  }

  function UserMailboxes(t: Tables, user: Id): set<Id> {
    set m | m in t.mailboxes && t.mailboxes[m].user == user
  }

  /** The largest UIDVALIDITY among some mailboxes. */
  ghost function MaxValidity(t: Tables, boxes: set<Id>): int
    requires boxes != {} && boxes <= t.mailboxes.Keys
  {
    var m :| m in boxes;
    if boxes == {m} then t.mailboxes[m].uidValidity
    else Max(t.mailboxes[m].uidValidity, MaxValidity(t, boxes - {m}))
  }

  ghost function NextValidity(t: Tables, user: Id, now: Time): int {
    (if UserMailboxes(t, user) == {} then now else MaxValidity(t, UserMailboxes(t, user))) + 1
  }

  ghost function CreateMailbox(t: Tables, user: Id, name: string, now: Time): Option<Tables> {
    if |UserMailboxes(t, user)| >= MAX_MAILBOXES || user !in t.users || (exists m :: Names(t, m, user, name)) then None
    else Some(t.(mailboxes := t.mailboxes[t.nextId := Mailbox(user, name, NextValidity(t, user, now), 1, true)],
                 nextId := t.nextId + 1))
  }

  ghost function RenameMailbox(t: Tables, user: Id, oldName: string, newName: string): Option<Tables> {
    var box := FindMailbox(t, user, oldName);
    if EqualFold(oldName, INBOX) || box.None? || (exists m :: m != box.value && Names(t, m, user, newName)) then None
    else Some(t.(mailboxes := t.mailboxes[box.value := t.mailboxes[box.value].(name := newName)]))
  }

  ghost function SetSubscribed(t: Tables, user: Id, name: string, subscribed: bool): Option<Tables> {
    var box := FindMailbox(t, user, name);
    if box.None? then None
    else Some(t.(mailboxes := t.mailboxes[box.value := t.mailboxes[box.value].(subscribed := subscribed)]))
  }

  /** The mailbox row goes, its entries by cascade, then drafts left without entry. */
  ghost function DeleteMailbox(t: Tables, user: Id, name: string): Option<Tables> {
    var box := FindMailbox(t, user, name);
    if IsSystemName(name) || box.None? || Referenced(t, Orphans(t, EntriesIn(t, box.value))) then None
    else
      var purged := Purge(t, EntriesIn(t, box.value));
      Some(purged.(mailboxes := purged.mailboxes - {box.value}))
  }

  function SystemRow(user: Id, first: Id, now: Time, m: Id): Mailbox
    requires first <= m < first + |SYSTEM_MAILBOXES|
  {
    Mailbox(user, SYSTEM_MAILBOXES[m - first], now + (m - first), 1, true)
  }

  function SystemRows(user: Id, first: Id, now: Time): map<Id, Mailbox> {
    map m | first <= m < first + |SYSTEM_MAILBOXES| :: SystemRow(user, first, now, m)
  }

  /** A new account with its system mailboxes. */
  function CreateUser(t: Tables, quota: nat, now: Time): Tables {
    t.(users := t.users[t.nextId := User(true, quota)],
       mailboxes := t.mailboxes + SystemRows(t.nextId, t.nextId + 1, now),
       nextId := t.nextId + 1 + |SYSTEM_MAILBOXES|)
  }

  function SetUser(t: Tables, user: Id, row: User): Option<Tables> {
    if user !in t.users then None else Some(t.(users := t.users[user := row]))
  }

  /** `UPDATE messages SET transport_status` with the reindexing trigger. */
  function SetTransportStatus(t: Tables, message: Id, status: string): Tables {
    if message !in t.messages then t
    else
      var row := t.messages[message];
      var index := map r | r in t.index && t.index[r].message != message :: t.index[r];
      t.(messages := t.messages[message := row.(transportStatus := status)],
         index := index[t.nextId := SearchRow(message, row.text)],
         nextId := t.nextId + 1)
  }

  // ------------------------------------------------------------------- runs

  /** One transaction with its arguments; `entry` is the row its lookup chose. */
  datatype Op =
    | OpCreateUser(quota: nat, now: Time)
    | OpSetUser(user: Id, row: User)
    | OpSave(actor: Id, replaced: Option<Id>, mail: Message, deliveries: seq<Delivery>, recipients: seq<string>,
             archiveFull: bool, date: Time, now: Time)
    | OpCopy(user: Id, destination: string, listed: seq<Listed>, now: Time)
    | OpMoveSelected(user: Id, source: Id, destination: string, selected: seq<Id>, now: Time)
    | OpMoveOne(user: Id, ref: Id, entry: Id, destination: string, now: Time)
    | OpUpdateFlags(user: Id, ref: Id, entry: Id, flags: set<Flag>)
    | OpSetEntryFlags(user: Id, mailbox: Id, entry: Id, flags: set<Flag>, now: Time)
    | OpExpungeOne(user: Id, ref: Id, entry: Id, now: Time)
    | OpExpungeDeleted(user: Id, mailbox: Id, now: Time)
    | OpCreateMailbox(user: Id, name: string, now: Time)
    | OpRenameMailbox(user: Id, name: string, newName: string)
    | OpSetSubscribed(user: Id, name: string, subscribed: bool)
    | OpDeleteMailbox(user: Id, name: string)
    | OpSetTransportStatus(message: Id, status: string)

  /** The row an operation works on is one its lookup could return. */
  ghost predicate Enabled(t: Tables, op: Op) {
    match op
    case OpSave(actor, replaced, _, _, _, _, _, _) =>
      replaced.Some? ==> IsDraft(t, replaced.value) && SoleOwner(t, actor, replaced.value)
    case OpMoveOne(user, ref, e, _, _) => Selected(t, user, ref, e)
    case OpUpdateFlags(user, ref, e, _) => Selected(t, user, ref, e)
    case OpExpungeOne(user, ref, e, _) => Selected(t, user, ref, e)
    case _ => true
  }

  /** What a transaction commits, if it commits. */
  ghost function Commit(t: Tables, op: Op): Option<Tables>
    requires Enabled(t, op)
  {
    match op
    case OpCreateUser(quota, now) => Some(CreateUser(t, quota, now))
    case OpSetUser(user, row) => SetUser(t, user, row)
    case OpSave(_, replaced, m, deliveries, recipients, full, date, now) =>
      Save(t, replaced, m, deliveries, recipients, full, date, now)
    case OpCopy(user, destination, listed, now) => Copy(t, user, destination, listed, now)
    case OpMoveSelected(user, source, destination, selected, now) => MoveSelected(t, user, source, destination,
      selected, now)
    case OpMoveOne(user, _, e, destination, now) => MoveOne(t, user, e, destination, now)
    case OpUpdateFlags(_, _, e, flags) => Some(UpdateFlags(t, e, flags))
    case OpSetEntryFlags(user, mailbox, e, flags, now) => SetEntryFlags(t, user, mailbox, e, flags, now)
    case OpExpungeOne(_, _, e, now) => ExpungeOne(t, e, now)
    case OpExpungeDeleted(user, mailbox, now) => ExpungeDeleted(t, user, mailbox, now)
    case OpCreateMailbox(user, name, now) => CreateMailbox(t, user, name, now)
    case OpRenameMailbox(user, name, newName) => RenameMailbox(t, user, name, newName)
    case OpSetSubscribed(user, name, subscribed) => SetSubscribed(t, user, name, subscribed)
    case OpDeleteMailbox(user, name) => DeleteMailbox(t, user, name)
    case OpSetTransportStatus(message, status) => Some(SetTransportStatus(t, message, status))
  }

  /** The state after a transaction: committed or rolled back. */
  ghost function Apply(t: Tables, op: Op): Tables
    requires Enabled(t, op)
  {
    var committed := Commit(t, op);
    if committed.None? then t else committed.value
  }

  /** `u` is what the operation leaves of `t`; `committed` says how it ended. */
  ghost predicate Performs(t: Tables, op: Op, committed: bool, u: Tables) {
    Enabled(t, op) && u == Apply(t, op) && (committed <==> Commit(t, op).Some?)
  }

  /** Consecutive states of a store that starts empty. */
  ghost predicate Run(states: seq<Tables>, ops: seq<Op>) {
    && |states| == |ops| + 1
    && states[0] == EmptyTables
    && forall i :: 0 <= i < |ops| ==> Enabled(states[i], ops[i]) && states[i + 1] == Apply(states[i], ops[i])
  }
}
