# Brclio Mail, verified

A Dafny model of the parts of Brclio Mail whose correctness spans several
functions or whole runs, with proofs about all inputs, all interleavings of
transactions and all crash points. `dafny verify dfyconfig.toml` checks it.

| file | what it models |
|---|---|
| `Common.dfy`, `Times.dfy`, `Octets.dfy` | shared vocabulary: ASCII folding, trimming, points in time, bytes |
| `MailTables.dfy` | the SQLite tables of the mail store and what each transaction commits |
| `MailInvariants.dfy`, `MailHistory.dfy` | the invariant every transaction keeps; UIDs, retention, drafts and the search index over runs |
| `MailUidValidity.dfy`, `MailUidReuse.dfy` | what a UIDVALIDITY together with a UID names over runs in which mailboxes come and go |
| `MailQuota.dfy`, `MailEffects.dfy` | quota and conservation; order of moves, deliveries, queue rows, isolation of users |
| `MailRows.dfy`, `MailEdits.dfy` | what each transaction leaves, row by row, and exactly when it is refused, said of the tables before and after it |
| `MailProofs.dfy`, `MailStore.dfy` | the store as a class whose methods change the tables row by row, each proved to be one transaction |
| `OutgoingQueue.dfy`, `QueueStore.dfy` | the delivery queue as a protocol with crashes and lost writes, and the worker loop as a class that follows it |
| `LiteralMarker.dfy`, `StreamGuard.dfy` | the IMAP literal marker and the stream filter that enforces the limits before and after login |
| `QueueLink.dfy` | the queue rows of the mail tables and those of the queue protocol are the same |
| `AuthLimiter.dfy`, `AuthRules.dfy`, `AuthRuns.dfy`, `LoginLimiter.dfy`, `LoginRules.dfy`, `LoginRuns.dfy`, `ConnectionLimits.dfy` | attempt and connection limits |
| `Credentials.dfy`, `AccountRows.dfy`, `AccountStore.dfy` | accounts, web sessions and app passwords over any interleaving of transactions |
| `BccStripping.dfy` | removing blind-copy fields from raw message bytes |
| `SearchCriteria.dfy` | message sets and search criteria with `*` |
| `SmtpTransaction.dfy` | SMTP envelopes and what DATA stores |

How the model is built:

- Each SQLite transaction and each call under a mutex is one atomic step. A
  transaction either commits or leaves every table as it was.
- Code that changes state is a class with the same fields; its methods are proved
  to do what a function on values says, and the theorems are about that function
  and about runs of it. What the function computes is stated once more without it,
  of the values before and after alone. Several classes carry a ghost run that every method
  extends, so that a theorem about runs is one about the object.
- Row identifiers come from a counter, which stands for the random identifiers of
  the program: a new one was never used before.
- Flags are sets. Times are integers and the clock does not go back.
- What a transaction is told by the outside (a parsed message, a directory
  answer, the deliverer's verdict, how many bytes a socket has ready, whether a
  write is stored) is a parameter, and the theorems hold for every value of it.

Where the program does not do what its comments or a natural reading promise:

- The comment at `internal/store/mail.go:691-693` says twelve attempts span more
  than seven days. The code gives at least 151.5 hours; more than seven days needs
  a thirteenth attempt (`OutgoingQueue.SevenDaysNeedThirteen`), and the bound is
  reached by a run (`OutgoingQueue.TightSchedule`).
- A user's name, UIDVALIDITY and UID need not name one message for ever, as
  section 2.3.1.1 of RFC 3501 asks. They do over every stretch of a run in which
  the user's mailbox with the greatest UIDVALIDITY is not deleted
  (`MailUidValidity.NewValuesAreGreater`,
  `MailUidValidity.UidWithValidityNamesOneMessage`); after such a deletion the next
  mailbox created gets no greater value
  (`MailUidValidity.DeletingTheGreatestLowersTheNext`), so new values exceed all
  earlier ones exactly when no mailbox is created after one
  (`MailUidValidity.ValuesRiseExactlyWhen`), and otherwise two different mailboxes
  of the user have the same one (`MailUidReuse.ValuesAreSharedExactlyWhen`). A creation directly after the deletion
  repeats the value exactly when `MailHistory.RecreationReusesUidValidity` says;
  one that comes later can too (`MailUidValidity.RunThatReuses`).
- Two recipients that differ only in blanks around a quoted local part are
  accepted by RCPT, and the queue's uniqueness constraint then refuses the whole
  message (`SmtpTransaction.PaddedTwinsCollide`;
  `SmtpTransaction.TransactionIsAccepted` says exactly when).
- Setup attempts (one-hour window) share a table with login attempts (fifteen
  minutes). When it is full, a login evicts keys idle for fifteen minutes, and with
  them setup attempts of the last hour (`LoginLimiter.EvictionForgets` says exactly
  when). Then a setup attempt above the limit of its hour is admitted
  (`LoginLimiter.EvictionOverAdmits`): in a run from the empty table, ten thousand
  addresses attempt a setup, one of them ten times, and a login after a quarter of
  an hour makes room for an eleventh (`LoginRuns.SetupsCanBeLost`). Every key that
  has not lost an admission this way keeps to the limit of its own window
  (`LoginLimiter.AdmissionsAreLimited`), and login keys never lose one
  (`LoginLimiter.LoginKeysLoseNothing`). For any other rules, every key keeps to its
  own limit in every run exactly when no kind of key that admits anything has a
  window two or more units of time longer than the shortest
  (`LoginRuns.LimitsHoldExactlyWhen`).
- Where the block of an address is shorter than its attempt window, which the
  options of the authentication limiter allow and the standard ones do not, twice
  the maximum of attempts can be admitted in one window
  (`AuthRuns.ShortBlockBreaksTheBound`). At most 2 * max - 1 are in every run
  exactly when the block is at least as long as the window
  (`AuthRuns.BoundHoldsExactlyWhen`).
- A message without an empty line after its header is not stripped of Bcc fields.
  A stripped message still shows one exactly when it is such a message and has one
  (`BccStripping.BccRemainsExactlyWhen`), like the one of
  `BccStripping.SuchAMessage`.

## Model

| member | source | states |
|---|---|---|
| MailHistory.RunKeepsInvariant | internal/store/migrations.go:123-201 | every state of every run of transactions satisfies the constraints, foreign keys and trigger effects of the schema, with UIDs in [1, uid_next) and no hidden draft |
| MailInvariants.StepKeeps | internal/store/imap.go:115-387 | each of the fifteen transactions keeps the invariant and never revives an id, moves an entry's UID, drops correspondence or strands a draft |
| MailHistory.UidNeverReassigned | internal/store/mail.go:224-244 | within a mailbox row a UID names one entry and message for ever, across saves, copies, both moves, physical deletion and expunge |
| MailHistory.UidsOfReachableStates | internal/store/imap.go:166-189 | UIDs of visible and expunged entries are distinct and below uid_next, which never decreases, and UIDVALIDITY never changes |
| MailHistory.CorrespondenceIsRetained | internal/store/migrations.go:194-201 | a message that is not a draft never disappears and its bytes, size, direction and text never change |
| MailHistory.DraftLivesWithItsEntries | internal/store/imap.go:353-382 | a draft that had an entry exists exactly while some entry points to it |
| MailHistory.ExpungeIsFinal | internal/store/mail.go:517-548 | an expunged entry never becomes visible again and never belongs to a draft |
| MailHistory.IndexIsExact | internal/store/migrations.go:182-192 | the search index holds exactly one row per message, equal to its projection |
| MailHistory.ListingStaysTrue | internal/store/imap.go:76-102 | the size a client was told of a message stays true while it exists |
| MailHistory.UidValidityDistinct | internal/store/mail.go:550-575 | live mailboxes of one user have distinct names, up to case, and distinct UIDVALIDITY |
| MailHistory.RecreationReusesUidValidity | internal/store/mail.go:565-571 | deleting and recreating a mailbox repeats its UIDVALIDITY, with UIDs from 1, exactly when it was one above the maximum of the others |
| MailHistory.NewestMailboxReusesUidValidity | internal/store/mail.go:550-575 | create, delete, create of the same name always repeats the UIDVALIDITY |
| MailUidValidity.NewValuesAreGreater | internal/store/mail.go:565-571 | while the user's mailbox with the greatest UIDVALIDITY is not deleted, every mailbox created gets a greater value than all that were there |
| MailUidValidity.UidWithValidityNamesOneMessage | internal/store/mail.go:550-575 | over such a stretch a user's UIDVALIDITY and UID name one entry and message, whatever mailboxes come and go |
| MailUidValidity.DeletingTheGreatestLowersTheNext | internal/store/mail.go:565-571 | after the greatest is deleted, the next mailbox created, however much later, gets no greater value than the deleted one |
| MailUidValidity.ValuesRiseExactlyWhen | internal/store/mail.go:565-571 | in a run all new values exceed all earlier ones exactly when no mailbox is created after the greatest was deleted |
| MailUidValidity.ReuseAcrossDeletions | internal/store/mail.go:550-575 | create a and b, delete a and then b, create a: the first mailbox over again, though a was not the greatest when deleted and not created directly afterwards |
| MailUidValidity.RunThatReuses | internal/store/mail.go:550-575 | such a run from an empty store |
| MailUidValidity.OnlyDeletingRemoves | internal/store/imap.go:196-242 | a mailbox goes only when its user deletes it by name |
| MailUidValidity.OnlyCreatingAdds | internal/store/mail.go:550-575 | a mailbox comes only with a new account or by a creation, with the next value |
| MailUidValidity.InboxesOverRun | internal/store/mail.go:577-593 | in every reachable state every account has its INBOX |
| MailUidReuse.ValuesAreSharedExactlyWhen | internal/store/mail.go:565-571 | in a run two different mailboxes of a user, at the same or different times, have the same UIDVALIDITY exactly when one is created after the greatest was deleted |
| MailUidReuse.HadBetween | internal/store/mail.go:565-571 | the values a user's mailboxes have had by any step of a run leave no gap |
| MailInvariants.MaxValidityIsMaximum | internal/store/mail.go:565-571 | the value new UIDVALIDITYs are taken from is the maximum over the user's live mailboxes |
| MailRows.SaveLeaves | internal/store/mail.go:61-198 | a committed save leaves the message in place of the draft, for the k-th delivery an entry in that user's mailbox of the name given (INBOX if none) with its flags, the date and the UID counted on from the mailbox's, and a queue row per recipient, and nothing else |
| MailRows.SaveCommitsExactlyWhen | internal/store/mail.go:61-198 | a save commits exactly if the archive has room, no queue row refers to the draft, every user is active with room for all copies, every mailbox exists and the recipients differ |
| MailRows.FoundExactly | internal/store/imap.go:147-150 | a mailbox is found exactly if it is the user's and has the name letter by letter up to case |
| MailEdits.CopyLeaves | internal/store/imap.go:135-190 | the k-th listed message gets an entry in the mailbox with the listed flags and date and the next UID; refused exactly for want of mailbox, message or room |
| MailEdits.MoveLeaves | internal/store/imap.go:248-313 | the rows moved are the selected visible ones of the user in the source, in order of first mention; each has a copy in the named mailbox and is gone, and nothing else changes |
| MailEdits.MoveCommitsExactlyWhen | internal/store/imap.go:248-262 | a move is refused only for want of the mailbox |
| MailEdits.MoveOneLeaves | internal/store/mail.go:484-515 | the row changes mailbox and takes the next UID unless it is there already, and is deleted as of now exactly in the trash |
| MailEdits.FlagsLeave | internal/store/mail.go:470-482 | only the flags of the row change |
| MailEdits.EntryFlagsLeave | internal/store/imap.go:115-133 | flags are replaced; the deletion date is there exactly with the Deleted flag and stays while the flag does |
| MailEdits.ExpungeOneLeaves | internal/store/mail.go:517-548 | the entry is hidden as of now or, if a draft's, removed with the draft it was the last entry of; refused exactly if a queue row refers to that draft |
| MailEdits.ExpungeDeletedLeaves | internal/store/imap.go:315-387 | the same for all visible entries of the mailbox marked Deleted, and for no other |
| MailEdits.CreateLeaves | internal/store/mail.go:550-575 | one more mailbox, empty, with the value after the greatest of the user's; refused exactly at a hundred, for a taken name or an unknown user |
| MailEdits.RenameLeaves | internal/store/mail.go:577-593 | only the name changes; refused exactly for INBOX, an unknown mailbox or another's name |
| MailEdits.SubscribedLeaves | internal/store/mail.go:613-622 | only the subscription changes |
| MailEdits.DeleteLeaves | internal/store/imap.go:196-242 | the mailbox goes with its entries and the drafts all of whose entries they were; refused exactly for the six system names, an unknown mailbox or a queued draft |
| MailEdits.CreateUserLeaves | internal/store/accounts.go:61-99 | an active account with the six system mailboxes in order, values consecutive from the time on |
| MailEdits.StatusLeaves | internal/store/queue_status.go:42-43 | only the status and the index row of the message change, the indexed text stays |
| MailEffects.ValidNames | internal/store/mail.go:595-607 | a name is valid exactly if, trimmed, it is not empty, has at most 255 bytes and no control character |
| MailQuota.UsedIs | internal/store/accounts.go:117-120 | each entry that is not expunged adds the size of its message to the use of its user |
| MailQuota.QuotaIsKept | internal/store/mail.go:117-132 | no transaction but lowering the quota takes any user from within quota to above it |
| MailQuota.QuotaOverRuns | internal/store/imap.go:151-164 | the same over runs, with copies working from listings that may be out of date |
| MailQuota.MovesConserve | internal/store/imap.go:244-309 | both moves keep used bytes and the number of visible entries of every user |
| MailQuota.DeliveryUse | internal/store/mail.go:117-132 | a save charges each user the message size once per copy |
| MailEffects.MoveKeepsOrder | internal/store/imap.go:263-307 | an IMAP move gives the messages it moves consecutive UIDs in the order selected and touches nothing else, also into the same mailbox |
| MailEffects.DeliveriesArrive | internal/store/mail.go:163-170 | a committed save adds one entry per delivery to each user |
| MailEffects.QueueAcceptsDistinct | internal/store/migrations.go:148-160 | all queue rows of a message are accepted exactly when the normalised recipients are distinct and not queued yet |
| MailEffects.OtherUsersUntouched | internal/store/imap.go:115-387 | a transaction leaves the entries of every user it is not about unchanged |
| MailEffects.ValidNamesAreFixed | internal/store/mail.go:595-607 | a name that validation passes is trimmed and valid, and validating it again keeps it |
| MailStore.Store.FindMailbox | internal/store/imap.go:147-150 | finds the user's mailbox with a name, up to case |
| MailStore.Store.GetMailbox | internal/store/imap.go:62-74 | the same for a name a client gives, without the blanks around it |
| MailStore.Store.LookupEntry | internal/store/mail.go:484-495 | finds the visible entry an entry or message id denotes, the newest one |
| MailStore.Store.LookupDraft | internal/store/mail.go:91-100 | finds the newest draft the user may replace: nobody else has an entry for it |
| MailStore.Store.UsedBytes | internal/store/accounts.go:117-120 | the bytes of a user's visible entries |
| MailStore.Store.CheckQuota | internal/store/mail.go:117-132 | passes exactly when every addressed user is active and has room for all its copies |
| MailStore.Store.CountCopies | internal/store/mail.go:117-120 | the number of copies of each addressed user, and of nobody else |
| MailStore.Store.DropDraft | internal/store/mail.go:91-107 | removes the draft a save replaces with its entries, unless a queue row still refers to it |
| MailStore.Store.InsertDeliveries | internal/store/mail.go:163-170 | one entry per delivery with the next UID of its mailbox, or none if a mailbox is missing |
| MailStore.Store.InsertQueueRows | internal/store/mail.go:171-182 | one row per normalised recipient, or none if one is taken |
| MailStore.Store.Save | internal/store/mail.go:61-198 | a save, with or without a replaced draft, is the Save transaction of the tables or leaves them unchanged |
| MailStore.Store.Copy | internal/store/imap.go:135-190 | IMAP COPY is the Copy transaction: quota over all entries, consecutive UIDs, counter written once |
| MailStore.Store.MoveSelected | internal/store/imap.go:248-313 | IMAP MOVE is the MoveSelected transaction: copy then expunge or delete, row by row |
| MailStore.Store.MoveRows | internal/store/imap.go:263-307 | the loop moves the movable rows one by one, skipping the others |
| MailStore.Store.MoveMessage | internal/store/mail.go:484-515 | the web move gives the row itself a new mailbox, whose name is trimmed, and UID |
| MailStore.Store.UpdateFlags | internal/store/mail.go:470-482 | replaces the flags of the entry, and only those |
| MailStore.Store.SetEntryFlags | internal/store/imap.go:115-133 | replaces the flags and keeps deletion time in step with the Deleted flag |
| MailStore.Store.ExpungeMessage | internal/store/mail.go:517-548 | a draft entry is removed for good, with the draft when it was the last; any other entry is hidden |
| MailStore.Store.ExpungeDeleted | internal/store/imap.go:315-387 | EXPUNGE handles exactly the entries marked Deleted, entry by entry, and counts them |
| MailStore.Store.CreateUser | internal/store/accounts.go:61-99 | a new account gets its system mailboxes with consecutive UIDVALIDITY |
| MailStore.Store.CountMailboxes | internal/store/mail.go:560-571 | the number of the user's mailboxes and the value the next UIDVALIDITY follows |
| MailStore.Store.CreateMailbox | internal/store/mail.go:550-575 | creates a mailbox below the limit under the trimmed name if that is valid and free; refused exactly for an invalid name, at the limit or for a taken name |
| MailStore.Store.RenameMailbox | internal/store/mail.go:577-607 | renames any mailbox but INBOX to a valid, free name |
| MailStore.Store.SetSubscribed | internal/store/mail.go:613-622 | changes one mailbox's subscription |
| MailStore.Store.DeleteMailbox | internal/store/imap.go:196-242 | deletes a mailbox, its entries and the drafts that lose their last entry; never a system mailbox |
| MailStore.Store.SetTransportStatus | internal/store/queue_status.go:42-43 | writes a status and reindexes the message |
| OutgoingQueue.RunKeepsInvariant | internal/queue/worker.go:94-128 | one worker, any crashes, lost writes and recoveries: listed rows stay as listed, the held row is the worker's alone |
| OutgoingQueue.DeliveredWasAccepted | internal/queue/worker.go:112-120 | "delivered" is only written after the deliverer accepted that row |
| OutgoingQueue.AttemptsAreBounded | internal/store/mail.go:686-701 | attempts are claims, at most the maximum plus the recoveries of the row |
| OutgoingQueue.WorkerCountsLikeTheRow | internal/queue/worker.go:108-123 | from claim to write-back the worker's attempt count is the row's |
| OutgoingQueue.FinalForever | internal/store/mail.go:673-701 | a row that is delivered or failed never changes again |
| OutgoingQueue.ClaimKeepsSummary | internal/store/mail.go:673-680 | claiming keeps the summary of every message |
| OutgoingQueue.RecoverKeepsSummary | internal/store/queue_status.go:11-20 | recovering stale rows keeps the summary of every message |
| OutgoingQueue.IterationSettles | internal/queue/worker.go:104-126 | an iteration whose writes succeed leaves the transport status equal to the summary over all rows and the row delivered, failed or queued |
| OutgoingQueue.SettledForever | internal/store/queue_status.go:22-44 | once all rows of a message are final its summary, and a status reported then, never change |
| OutgoingQueue.SummaryReports | internal/store/queue_status.go:22-44 | "queued" exactly if a row is queued or being delivered, otherwise "delivered" exactly if none failed, "failed" exactly if some failed and none was delivered, "partial" exactly if both |
| OutgoingQueue.DelayTable | internal/store/mail.go:694-698 | 30, 60, 120, 240, 480, 960 and from then on 1440 minutes |
| OutgoingQueue.DelaysGrow | internal/store/mail.go:694-698 | delays lie in [30 minutes, 24 hours] and never get shorter |
| OutgoingQueue.RetrySchedule | internal/store/mail.go:686-701 | without a recovery, the n-th claim of a row comes at least the scheduled span after the first |
| OutgoingQueue.SevenDaysNeedThirteen | internal/store/mail.go:691-693 | twelve attempts span at least 151.5 hours, above five days; above seven days exactly from the thirteenth on |
| OutgoingQueue.TightSchedule | internal/store/mail.go:691-701 | some run makes its n-th attempt exactly the span after the first |
| QueueLink.SaveEnqueues | internal/store/mail.go:171-182 | the queue rows a save stores are those the protocol enqueues for its normalised recipients |
| QueueLink.WorkerKeepsLink | internal/store/mail.go:673-701 | no step of the worker changes a row's message or recipient, and the statuses it reports are those of the mail tables |
| QueueStore.Queue.Enqueue | internal/store/mail.go:171-182 | one queued row per recipient, due at once |
| QueueStore.Queue.RecoverStaleQueue | internal/store/queue_status.go:11-20 | requeues exactly the deliveries whose lease ran out and counts them |
| QueueStore.Queue.QueueReady | internal/store/mail.go:636-646 | lists the due queued rows, earliest first, as many as the limit allows |
| QueueStore.Queue.Select | internal/store/mail.go:640 | the rows the query returns: due, queued, each once, earliest first, none earlier left out |
| QueueStore.Queue.ClaimQueue | internal/store/mail.go:673-680 | claims the row exactly if it is still queued and the reply arrives |
| QueueStore.Queue.CompleteQueue | internal/store/mail.go:681-685 | marks the row delivered, one step of the protocol |
| QueueStore.Queue.RetryQueue | internal/store/mail.go:686-701 | queues the row again after the delay, or fails it at the maximum |
| QueueStore.Queue.CountRows | internal/store/queue_status.go:22-31 | counts a message's rows by status |
| QueueStore.Queue.RefreshMessageTransportStatus | internal/store/queue_status.go:22-44 | writes the summary of the message's rows, which is said of the rows and the literal status |
| QueueStore.Queue.Attempt | internal/queue/worker.go:104-126 | one iteration touches one row and one message, and settles them when its writes are stored |
| QueueStore.Queue.RunBatch | internal/queue/worker.go:94-128 | a batch is a run of protocol steps; when all writes are stored each listed row was attempted once and every message reports what its rows say |
| LiteralMarker.AcceptsExactlyMarkers | internal/imapserver/guard.go:270-297 | a line announces a literal exactly if it ends in a digits marker, with optional plus, after a blank or parenthesis |
| LiteralMarker.MarkerIsRead | internal/imapserver/guard.go:287-296 | the announced size is the decimal value below 2^64 and an error above |
| LiteralMarker.RoundTrip | internal/imapserver/guard.go:270-297 | reading undoes printing a marker after any prefix, with either line ending |
| LiteralMarker.DigitsAreDecimal | internal/imapserver/guard.go:287-296 | digits are read in base ten, with the bound 2^64 |
| StreamGuard.StandardLimits | internal/imapserver/guard.go:18-85 | the standard limits in bytes and how missing ones fall back to them |
| StreamGuard.SpentIsCost | internal/imapserver/guard.go:245-257 | before login the running count is the whole cost of the running command |
| StreamGuard.LiteralsAreNotScanned | internal/imapserver/guard.go:181-211 | framing a stream of lines and their literals sees exactly those lines, whatever bytes the literals hold |
| StreamGuard.ChargesAreExact | internal/imapserver/guard.go:245 | the 64-bit sum of line and literal is the true cost for all lines within the limits exactly when the limits add up within 64 bits |
| StreamGuard.DefaultsDoNotWrap | internal/imapserver/guard.go:45-62 | the standard limits do, for every message limit |
| StreamGuard.CoversOneMore | internal/imapserver/guard.go:236-257 | the running byte count bounds the cost of any unfinished part of a command |
| StreamGuard.WithinOneMore | internal/imapserver/guard.go:245-256 | a line that is let through keeps every command within the budget |
| StreamGuard.GuardedConn.AddPreAuthCommandBytes | internal/imapserver/guard.go:262-268 | charges exactly what fits; the budget left never wraps below zero |
| StreamGuard.GuardedConn.CollectLine | internal/imapserver/guard.go:213-230 | reads up to the first line break, or fails exactly when the line is too long or the stream ends |
| StreamGuard.GuardedConn.AdmitLine | internal/imapserver/guard.go:231-258 | refuses a line exactly for the literal cap of the current state or the command budget, and charges it otherwise |
| StreamGuard.GuardedConn.ReadValidatedLine | internal/imapserver/guard.go:213-260 | the next line of the stream and the size it announces, or the exact reason it is refused |
| StreamGuard.GuardedConn.Read | internal/imapserver/guard.go:181-211 | for any buffer and short reads: what was returned, what is pending and what is unread is the stream, and the place in it is that of a pure scan, until the first error; bytes that come with the end of the stream are part of it; a line within the limit is refused exactly for a literal above the limit of its time or, before login only, for a command that with line and literal exceeds the budget |
| StreamGuard.GuardedConn.PassLiteral | internal/imapserver/guard.go:192-200 | passes on as much of a literal as buffer, socket and literal allow, with or without the end of the stream reported along with the last bytes |
| StreamGuard.GuardedConn.PassLine | internal/imapserver/guard.go:201-210 | passes on the front of the next line and keeps the rest |
| StreamGuard.GuardedConn.MarkAuthenticated | internal/imapserver/guard.go:299-303 | from now on the limits after login apply; the place in the stream is the same |
| StreamGuard.ChunksDoNotMatter | internal/imapserver/guard.go:181-211 | two guards equally far in one stream have seen the same lines, however it was cut up |
| StreamGuard.StandardBudget | internal/imapserver/guard.go:18-26 | under the standard limits every command sent before login is within 64 KiB, its lines and literals within their caps |
| AuthRules.StandardLimits | internal/authlimit/limiter.go:64-115 | the options the limiter falls back to |
| AuthRules.ReserveRules | internal/authlimit/limiter.go:149-177 | let through exactly if neither the address nor the account is blocked; the address counts one attempt in its window, and is blocked from the maximum on |
| AuthRules.RefusalCountsNothing | internal/authlimit/limiter.go:149-165 | a refused attempt changes no running count |
| AuthRules.FailureRules | internal/authlimit/limiter.go:182-208 | a failure counts in the running window, or a new one, and the one that reaches the maximum blocks |
| AuthRules.SweepRules | internal/authlimit/limiter.go:219-229 | a sweep keeps exactly what blocks or was touched within the longest period |
| AuthRules.AttemptRules | internal/authlimit/limiter.go:124-148 | an attempt sweeps exactly when due or above the cap, and is refused if still above it |
| AuthLimiter.AttemptsAreSpread | internal/authlimit/limiter.go:124-178 | with a block at least as long as the window, no interval of window length has 2 * max admitted attempts of one address, in any run |
| AuthLimiter.StandardAttemptsPerMinute | internal/authlimit/limiter.go:12-20 | the standard limiter admits at most 119 attempts of an address in any minute |
| AuthRuns.BoundHoldsExactlyWhen | internal/authlimit/limiter.go:124-178 | in every run at most 2 * max - 1 attempts of an address are admitted per window exactly when the block is at least as long as the window |
| AuthRuns.ShortBlockBreaksTheBound | internal/authlimit/limiter.go:155-176 | for every maximum and every shorter block, a run from the empty table that admits 2 * max attempts in one window |
| AuthRuns.HalfABlockIsTooShort | internal/authlimit/limiter.go:155-176 | four attempts in six units of time with a maximum of two and a block of three |
| AuthRuns.BoundInRun | internal/authlimit/limiter.go:124-217 | the bound over runs of attempts, failures and successes |
| AuthRuns.Perform | internal/authlimit/limiter.go:124-217 | the limiter's methods make exactly the steps of such runs |
| AuthLimiter.ShortBlockAdmitsTwo | internal/authlimit/limiter.go:172-176 | with one attempt per window, every block shorter than the window lets a second one in |
| AuthLimiter.SweepDropsExpired | internal/authlimit/limiter.go:219-229 | a swept bucket blocks nobody and its counters count in windows that have run out |
| AuthLimiter.BlockHolds | internal/authlimit/limiter.go:155-157 | a block holds until it ends: no sweep and no attempt of anybody lifts it, and the blocked address or account is refused |
| AuthLimiter.FailureBlocks | internal/authlimit/limiter.go:182-208 | failures lengthen blocks only, and the one that reaches the maximum blocks its key for the whole period |
| AuthLimiter.ReserveSize | internal/authlimit/limiter.go:131-153 | a reservation adds no more buckets than keys were missing |
| AuthLimiter.Limiter.constructor | internal/authlimit/limiter.go:64-115 | options fall back to the standard ones; the empty limiter is valid |
| AuthLimiter.Limiter.SweepIfDue | internal/authlimit/limiter.go:219-229 | when due or forced, drops exactly the idle buckets |
| AuthLimiter.Limiter.ReserveBoth | internal/authlimit/limiter.go:149-177 | opens both buckets, rolls their windows and charges the address, unless one of them blocks |
| AuthLimiter.Limiter.Allow | internal/authlimit/limiter.go:124-178 | decides as specified, keeps the table within its cap and charges the address exactly when it admits |
| AuthLimiter.Limiter.Failure | internal/authlimit/limiter.go:182-208 | counts the failure in both buckets, if there is one or room for one |
| AuthLimiter.Limiter.Success | internal/authlimit/limiter.go:213-217 | forgets the account's bucket and only that |
| LoginRules.ServerRules | internal/httpapi/handlers_auth.go:32-72 | ten setups an hour, a hundred logins of an address and ten of an account in fifteen minutes |
| LoginRules.RecentPlaces | internal/httpapi/server.go:276-282 | compacting keeps exactly the times after the cutoff, in order |
| LoginRules.EvictionRules | internal/httpapi/server.go:266-271 | an eviction leaves exactly the keys with a time not before the cutoff |
| LoginRules.AttemptRules | internal/httpapi/server.go:261-289 | a new key evicts from a table of ten thousand, is refused if it is still full, and otherwise let through exactly below the limit |
| LoginLimiter.CompactInPlace | internal/httpapi/server.go:276-282 | compacting in the list's own storage keeps exactly the recent times, in order |
| LoginLimiter.EvictionForgets | internal/httpapi/server.go:266-271 | an eviction drops an admission another window still covers exactly when the last one lies between the cutoffs |
| LoginLimiter.EvictionOverAdmits | internal/httpapi/server.go:261-289 | in a full table with a setup key used up and idle, a login evicts it and a refused setup attempt is then admitted |
| LoginRuns.SetupsCanBeLost | internal/httpapi/handlers_auth.go:32 | under the server's own limits, a run from the empty table that admits eleven setups of one address in an hour |
| LoginRuns.LongRuleBreaksTheLimit | internal/httpapi/server.go:261-289 | the same for every kind of key with a positive limit and a window two units longer than the shortest: one admission above the limit |
| LoginRuns.LimitsHoldExactlyWhen | internal/httpapi/server.go:261-289 | in every run every key keeps to its own limit exactly when there is no such kind |
| LoginRuns.LimitInRun | internal/httpapi/server.go:261-289 | the limits over runs of attempts and clearings |
| LoginRuns.Perform | internal/httpapi/server.go:261-290 | the limiter's methods make exactly the steps of such runs |
| LoginLimiter.Decision | internal/httpapi/server.go:276-287 | the stored times count no less than the assured window's admissions and no more than the given window's |
| LoginLimiter.Limiter.Evict | internal/httpapi/server.go:267-271 | drops exactly the keys idle since the cutoff |
| LoginLimiter.Limiter.Judge | internal/httpapi/server.go:276-288 | decides on the recent times and appends the admission |
| LoginLimiter.Limiter.Allow | internal/httpapi/server.go:261-289 | admits a key no eviction has taken admissions from exactly if there is room in the table and fewer than limit admissions lie in its own window; never refuses what the true count admits |
| LoginLimiter.Limiter.Clear | internal/httpapi/server.go:290 | forgets the key |
| LoginLimiter.AdmissionsAreLimited | internal/httpapi/server.go:261-289 | between clearings no interval as long as its own window has more than limit admissions of a key no eviction has taken admissions from, and none as long as the shortest window of any key |
| LoginLimiter.LoginKeysLoseNothing | internal/httpapi/handlers_auth.go:32-80 | only keys with a window two units longer than the shortest can lose admissions: under the server's rules, setup keys |
| LoginLimiter.StoredListsAreComplete | internal/httpapi/server.go:265-274 | lists are sorted and hold every admission of the key's own window, or of the shortest once an eviction has taken some |
| ConnectionLimits.Limiter.Acquire | internal/connlimit/listener.go:23-33 | takes a place exactly when neither cap is reached |
| ConnectionLimits.Limiter.Release | internal/connlimit/listener.go:35-46 | gives one place back; an address without connections has no entry |
| ConnectionLimits.Limiter.Accept | internal/connlimit/listener.go:72-85 | hands out the first connection that has a place; all before it had none |
| ConnectionLimits.TrackedConn.Close | internal/connlimit/listener.go:94-98 | releases exactly once, however often it is called |
| ConnectionLimits.LiveConnectionsAreCounted | internal/connlimit/listener.go:23-46 | counts are the live connections per address, within the caps; none live means empty |
| ConnectionLimits.Guard.Admit | internal/imapserver/guard.go:97-124 | registers exactly when there is room and the key is free; a failed deadline leaves the guard as it was |
| ConnectionLimits.Guard.Release | internal/imapserver/guard.go:136-148 | unregisters only the connection registered under its key |
| ConnectionLimits.GuardedConn.Close | internal/imapserver/guard.go:328-333 | releases exactly once, even when the key has been taken again |
| ConnectionLimits.OpenConnectionsAreRegistered | internal/imapserver/guard.go:97-148 | entries and counts are exactly the open connections; none open means empty |
| AccountRows.UpdateLeaves | internal/store/accounts.go:163-253 | the new row has what the update gives and the old values elsewhere; a new password or a suspension ends that account's sessions and app passwords; refused exactly for an unknown account or the only active administrator |
| AccountRows.CreateUserLeaves | internal/store/accounts.go:35-99 | an active account of version one, refused exactly for a taken address |
| AccountRows.CreateSessionLeaves | internal/store/accounts.go:287-326 | expired sessions go, and of the user's all but the newest nineteen; the new one is opened exactly for an active user of the expected version and a new token |
| AccountRows.VisitLeaves | internal/store/accounts.go:339-348 | a visit dates the sessions with the token if one of them lets in |
| AccountRows.DeletesLeave | internal/store/accounts.go:350-358 | just the sessions with the token go, or just the expired ones |
| AccountRows.AppPasswordsLeave | internal/store/accounts.go:360-435 | one more app password, or one revoked and the protocol version raised |
| Credentials.LosesLastAdminIs | internal/store/accounts.go:204-225 | the guard on administrators, said of the rows |
| Credentials.RunKeepsInvariant | internal/store/accounts.go:35-435 | every run keeps rows consistent, sessions not ahead of their user and at most twenty per user |
| Credentials.GenerationsCount | internal/store/accounts.go:195-197 | versions count exactly the password and status changes, and for the protocol version also the revocations |
| Credentials.AcceptedWebSession | internal/store/accounts.go:339-344 | an accepted session has seen no password or status change since the user had its generation |
| Credentials.LoginIsCurrent | internal/store/accounts.go:311-321 | read user, check credential, create session, use: an accepted use means no change at any point in between |
| Credentials.NeverRevived | internal/store/accounts.go:195-240 | a session that saw a change, such as a suspension, is never accepted again, also after reactivation |
| Credentials.SessionIsFixed | internal/store/accounts.go:287-326 | a session keeps its user, token and generation while it exists, and its id is not reused |
| Credentials.SessionsAreBounded | internal/store/accounts.go:303-320 | in every state a user has at most twenty sessions, and a token belongs to one |
| Credentials.AcceptedProtocolSession | internal/imapserver/backend.go:182-196 | a mail client's connection that passes the check has seen no change and no revocation |
| Credentials.RefusedProtocolSession | internal/imapserver/backend.go:182-196 | and only those events close it |
| Credentials.AppPasswordIsCurrent | internal/store/accounts.go:255-275 | a connection logged in with an app password passes only while that app password is not revoked |
| Credentials.AnAdminStays | internal/store/accounts.go:204-225 | once there is an active administrator there always is one |
| Credentials.NewestAreFew | internal/store/accounts.go:303-310 | eviction leaves at most nineteen sessions of the user |
| Credentials.EvictionTakesTheOldest | internal/store/accounts.go:306-308 | an evicted session is older than every one kept, and none goes from a user below the limit |
| AccountStore.Store.UpdateUser | internal/store/accounts.go:163-253 | an update is the transaction; a password change or suspension deletes sessions and revokes app passwords |
| AccountStore.Store.CountActiveAdmins | internal/store/accounts.go:217-220 | counts the active administrators |
| AccountStore.Store.CreateSession | internal/store/accounts.go:287-326 | opens a session exactly for an active user of the expected generation, with at most twenty afterwards |
| AccountStore.Store.UserForSession | internal/store/accounts.go:339-348 | lets in exactly with an unexpired session of the current generation of an active user |
| AccountStore.Store.DeleteSession | internal/store/accounts.go:350-353 | no session with the token remains |
| AccountStore.Store.CreateAppPassword | internal/store/accounts.go:360-390 | a new app password for an existing user with a name |
| AccountStore.Store.RevokeAppPassword | internal/store/accounts.go:417-435 | revokes exactly an unrevoked app password of the user and starts a new protocol generation |
| AccountStore.Store.ReadUser | internal/store/accounts.go:255-259 | the active account with an address, if there is one |
| AccountStore.Store.FindAppPassword | internal/store/accounts.go:261-268 | an unrevoked app password with the secret, if there is one |
| AccountStore.ProtocolSession.RequireActive | internal/smtpserver/backend.go:267-286 | a connection that fails the check is logged out for good; one whose check gets no answer is refused and stays |
| AccountStore.ProtocolSession.EnsureActive | internal/imapserver/backend.go:182-196 | passes exactly for an active account of the version logged in with, if the store answers |
| AccountStore.AdmittedConnectionIsCurrent | internal/smtpserver/backend.go:267-286 | an admitted connection's credential has not been changed or revoked since login |
| BccStripping.SplitUndoesWriting | internal/smtpserver/backend.go:405-428 | splitting recovers the lines and body written with any mix of line endings |
| BccStripping.SplitWasWritten | internal/smtpserver/backend.go:405-428 | every message with a boundary is its lines with some endings, an empty line and its body |
| BccStripping.StripsExactlyBlindCopies | internal/smtpserver/backend.go:359-403 | splitting the stripped message gives exactly the lines outside Bcc and Resent-Bcc fields and the same body |
| BccStripping.StartsBccExactlyWhen | internal/smtpserver/backend.go:376-379 | a line starts a blind-copy field exactly if its name, without blanks and in any letters, is bcc or resent-bcc |
| BccStripping.HiddenExactlyWhen | internal/smtpserver/backend.go:367-388 | a line goes exactly if such a line stands at or before it and all since are continuations |
| BccStripping.StrippedIsCrlf | internal/smtpserver/backend.go:390-402 | a stripped header is written anew with CRLF after every line |
| BccStripping.KeptInOrder | internal/smtpserver/backend.go:367-388 | a line outside such a field stays, in order |
| BccStripping.StrippingTwice | internal/smtpserver/backend.go:359-403 | stripping is idempotent and leaves no blind-copy line |
| BccStripping.StrippingNothing | internal/smtpserver/backend.go:362-391 | it is the identity exactly without a boundary or without such a field |
| BccStripping.BccRemainsExactlyWhen | internal/smtpserver/backend.go:359-428 | a stripped message still has a line that starts a blind-copy field exactly when it has no boundary and had one |
| BccStripping.HeaderOnlyKeepsItsBcc | internal/smtpserver/backend.go:362-366 | every message of two lines without a boundary, the second a blind copy, comes out as it went in |
| BccStripping.SuchAMessage | internal/smtpserver/backend.go:362-366 | a From line and a Bcc line without an empty line |
| BccStripping.SplitRawHeader | internal/smtpserver/backend.go:408-428 | the loop computes the lines and body |
| BccStripping.KeepLines | internal/smtpserver/backend.go:367-388 | the loop keeps exactly the lines outside blind-copy fields, continuations included |
| BccStripping.StripBccHeader | internal/smtpserver/backend.go:362-403 | the method computes the stripped message |
| SearchCriteria.InRangeIs | internal/imapserver/backend.go:566-586 | a range has what lies between its ends in either order, 0 read as the maximum |
| SearchCriteria.MeaningOf | internal/imapserver/backend.go:588-611 | criteria mean all their parts, a Not the contrary, an Or either of two |
| SearchCriteria.SeqSetContains | internal/imapserver/backend.go:566-586 | membership with `*` as the maximum and reversed ranges; nothing in an empty mailbox |
| SearchCriteria.NormalizeSeqSet | internal/imapserver/backend.go:613-632 | the loop computes the normalised set |
| SearchCriteria.NormalSetHasSameMembers | internal/imapserver/backend.go:613-632 | a normalised set has only fixed, ordered ranges and the same members |
| SearchCriteria.NormalIsPlain | internal/imapserver/backend.go:588-611 | no missing criteria and no `*` remain at any depth |
| SearchCriteria.NormalKeepsMeaning | internal/imapserver/backend.go:588-611 | matching the normalised tree is what the original means with `*` as the maximum, through Not and Or |
| SearchCriteria.NormalizeCriteria | internal/imapserver/backend.go:588-611 | the recursive copy computes the normalised tree |
| SearchCriteria.Maxima | internal/imapserver/backend.go:555-564 | the number of entries and the greatest UID |
| SearchCriteria.SelectedEntries | internal/imapserver/backend.go:438-455 | the entries at exactly the places whose number, or UID, is in the set, in increasing order |
| SearchCriteria.StarSelectsTheLast | internal/imapserver/backend.go:566-586 | a range to `*` always selects the last message |
| SearchCriteria.SearchMessages | internal/imapserver/backend.go:275-306 | for exactly the messages the original criteria are meant for, in order: the UID if asked by UID, the sequence number otherwise |
| SmtpTransaction.Session.Mail | internal/smtpserver/backend.go:118-141 | whatever MAIL answers, it empties the transaction; a submission needs an active, allowed sender |
| SmtpTransaction.Session.Rcpt | internal/smtpserver/backend.go:143-182 | adds the canonical address last unless it is there up to case, and keeps the others; inbound only for local users |
| SmtpTransaction.Session.HasRecipient | internal/smtpserver/backend.go:288-295 | whether an address is there up to case |
| SmtpTransaction.Session.Reset | internal/smtpserver/backend.go:256-259 | empties the transaction |
| SmtpTransaction.Session.Data | internal/smtpserver/backend.go:184-236 | accepts exactly with recipients, a current account, a message within the limit, a fitting From header and well-formed MIME; then envelope, inbox deliveries, queued addresses and the sent copy are those of the recipients |
| SmtpTransaction.Session.ValidateHeaderFrom | internal/smtpserver/backend.go:297-318 | passes exactly with one From header of one address that the sender owns |
| SmtpTransaction.Session.ValidateInboundHeaderFrom | internal/smtpserver/backend.go:319-343 | passes exactly with one From header whose addresses are all of other domains |
| SmtpTransaction.Session.RequireActive | internal/smtpserver/backend.go:267-286 | forgets an account that is gone or changed |
| SmtpTransaction.OneInboxEach | internal/smtpserver/backend.go:212-224 | one inbox delivery for each distinct local user and no other |
| SmtpTransaction.CopiesOfTransaction | internal/smtpserver/backend.go:209-232 | each local user gets one copy, the sender of a submission one more, nobody else any |
| SmtpTransaction.DeliveriesAreRouted | internal/smtpserver/backend.go:209-232 | local users get a recent entry in INBOX and the sender a seen one in Sent, and nobody else any |
| SmtpTransaction.OutgoingInOrder | internal/smtpserver/backend.go:213-224 | the queued addresses are those without a local user, in the order of the recipients |
| SmtpTransaction.OutgoingDistinct | internal/smtpserver/backend.go:213-224 | the queued addresses are exactly the recipients without a local user, distinct up to case |
| SmtpTransaction.QueuedAddresses | internal/smtpserver/backend.go:162-182 | inbound mail queues nothing |
| SmtpTransaction.TransactionIsAccepted | internal/store/mail.go:163-182 | a transaction with room is stored exactly if no address with blanks around it is without them another outgoing one |
| SmtpTransaction.PaddedTwinsCollide | internal/smtpserver/backend.go:173-180 | two recipients RCPT accepts whose queue rows collide |
| SmtpTransaction.StoredTransaction | internal/store/mail.go:163-182 | a stored transaction leaves one entry per local user, one more for the sender, and one queue row per outgoing address |

## Left out

- Archive limit and disk reserve: whether they refuse a save is a parameter of it, since the estimate and the SQL sum measure different things.
- Attachments, audit events and the other columns of messages: they ride along with the rows and would only add easy members.
- 64-bit overflow of sizes and quotas, and the clamping of UIDs to 32 bits on reading: the counters are unbounded, as if they fitted.
- The order and canonical spelling of flags (`normalizeFlags`): flags are sets of the six the store knows.
- Full Unicode case folding and white space: folding and trimming are ASCII, in mailbox names too, so a long s in `Resent-Bcc` or a no-break space around a name is not modelled.
- Identifiers: the random ones are a counter, and a token or identifier collision is not modelled.
- Which row SQLite returns among equally old ones: the lookups may return any.
- MailStore.Store.UpdateFlags: does not keep the deletion time in step with the Deleted flag, because the web path of the program does not.
- Domains, aliases and address parsing: a recipient is resolved by a parameter.
- The contents of the error texts, the last error and delivery time of queue rows, and display names.
- Accounts are modelled twice, with the columns the mail store reads (quota, status) and with those of logins; that both tables agree is not stated. Of the mail transactions only saves are tied to the queue protocol.
- SmtpTransaction.Session.Data: the reply when the save itself fails is not modelled; when it does, TransactionIsAccepted says.
- Password hashing and token hashing: credentials are compared for equality.
- Deadlines of connections (`cappedReadDeadline`, `SetDeadline`): one-branch facts.
- LoginLimiter.Limiter.Allow: of a key that an eviction has taken admissions from it states only that nothing is refused that the true count admits; which keys those are is exact, and EvictionOverAdmits shows why no more holds.
- StreamGuard.GuardedConn.Read: says nothing of the bytes returned after the first error, since a caller that goes on reading after one is outside the contract.
- The storage shared by the slices in the login limiter: the compaction works on the list's own array, but the array is copied in and out of the table.
- ConnectionLimits.GuardedConn.Close: connections are compared by number, not by address in memory.
- Authentication that changes while a line is being read: each read is one step.
- The merging of ranges in the library's set type: a normalised set is the list of its ranges, which has the same members.
- Listings, paging, full-text queries, HTTP handlers, MIME parsing, TLS, DKIM and backups.
