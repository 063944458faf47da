/** The envelope of an SMTP transaction: recipients as they are accepted, and the
    deliveries and queue rows DATA turns them into. */
module SmtpTransaction {
  import opened Common
  import M = MailTables
  import E = MailEffects
  import I = MailInvariants

  type Id = nat

  datatype Mode = Inbound | Submission

  /** A canonical address, with the user it resolved to when it is local. */
  datatype Recipient = Recipient(address: string, user: Option<Id>)

  datatype Reply = Accepted | AuthRequired | NoSuchRecipient | NotOwned | BadAddress | NoRecipients | Temporary
    | TooLarge | Malformed | BadFrom | LocalFrom

  /** What the account check before a submission command finds. */
  datatype Check = StillActive | Gone | Unknown

  /** What the directory says of an address: a local user, nobody, or no answer. */
  datatype Resolution = Resolved(canonical: string, user: Id) | NotFound | Failed

  /** A domain of this server, another one, or no answer. */
  datatype DomainKind = Local | Foreign | Unanswered

  /** An address of a From field: its domain, and whether the sender of a
      submission may use it, if the directory answers. */
  datatype Author = Author(domain: DomainKind, allowed: Option<bool>)

  /** The header as far as it matters here: how many From fields it has, and the
      addresses of the first if they parse. */
  datatype Header = Header(fromFields: nat, authors: Option<seq<Author>>)

  /** What DATA reads: how much comes up to a fault or one byte beyond the limit,
      whether it comes without a fault, the header if it parses, and whether the
      rest of the message does. */
  datatype Content = Content(size: nat, readable: bool, header: Option<Header>, wellFormed: bool)

  const STANDARD_LIMIT := 25 * 1024 * 1024

  function SizeLimit(maximum: int): int {
    if maximum <= 0 then STANDARD_LIMIT else maximum
  }

  /** One From field with one address, or for inbound mail with at least one. */
  predicate NamesAuthors(mode: Mode, h: Header) {
    && h.fromFields == 1 && h.authors.Some?
    && if mode == Submission then |h.authors.value| == 1 else |h.authors.value| > 0
  }

  predicate HasAuthor(c: Content, domain: DomainKind, allowed: Option<bool>) {
    c.header.Some? && c.header.value.authors.Some? && Author(domain, allowed) in c.header.value.authors.value
  }

  /** The authors a submission may have: one, who is the sender. The authors
      inbound mail may have: some, all of them elsewhere. */
  predicate AuthorsFit(mode: Mode, authors: seq<Author>) {
    match mode
    case Submission => |authors| == 1 && authors[0].allowed == Some(true)
    case Inbound => |authors| > 0 && forall i :: 0 <= i < |authors| ==> authors[i].domain == Foreign
  }

  predicate FromFits(mode: Mode, c: Content) {
    c.header.Some? && c.header.value.fromFields == 1 && c.header.value.authors.Some?
      && AuthorsFit(mode, c.header.value.authors.value)
  }

  predicate Fits(mode: Mode, maximum: int, c: Content) {
    c.readable && c.size <= SizeLimit(maximum) && FromFits(mode, c) && c.wellFormed
  }

  // -------------------------------------------------------------- recipients

  /** No two addresses are the same up to the case of letters. */
  predicate AddressesDistinct(recipients: seq<Recipient>) {
    forall i, j :: 0 <= i < j < |recipients| ==> !EqualFold(recipients[i].address, recipients[j].address)
  }

  predicate AllLocal(recipients: seq<Recipient>) {
    forall i :: 0 <= i < |recipients| ==> recipients[i].user.Some?
  }

  predicate Listed(recipients: seq<Recipient>, address: string) {
    exists i :: 0 <= i < |recipients| && EqualFold(recipients[i].address, address)
  }

  function Added(recipients: seq<Recipient>, r: Recipient): seq<Recipient> {
    if Listed(recipients, r.address) then recipients else recipients + [r]
  }

  /** The recipient comes last, unless its address is there already, up to case. */
  ghost predicate AddsOnce(before: seq<Recipient>, after: seq<Recipient>, r: Recipient) {
    if exists s :: s in before && Alike(s.address, r.address) then after == before else after == before + [r]
  }

  lemma AddedOnce(recipients: seq<Recipient>, r: Recipient)
    ensures AddsOnce(recipients, Added(recipients, r), r)
  {
    hide EqualFold, Alike;
    forall s: Recipient ensures EqualFold(s.address, r.address) <==> Alike(s.address, r.address) {
      EqualFoldIsAlike(s.address, r.address);
    }
    if Listed(recipients, r.address) {
      var i :| 0 <= i < |recipients| && EqualFold(recipients[i].address, r.address);
      assert recipients[i] in recipients;
    }
  }

  lemma AddedDistinct(recipients: seq<Recipient>, r: Recipient)
    requires AddressesDistinct(recipients)
    ensures AddressesDistinct(Added(recipients, r)) && Listed(Added(recipients, r), r.address)
  {
    hide EqualFold;
    if !Listed(recipients, r.address) {
      assert Added(recipients, r)[|recipients|] == r;
      EqualFoldReflexive(r.address);
    }
  }

  // ---------------------------------------------------------------- routing

  /** The addresses that have to be sent elsewhere, in order. */
  function Outgoing(recipients: seq<Recipient>): seq<string> {
    if recipients == [] then []
    else
      var last := recipients[|recipients| - 1];
      Outgoing(recipients[..|recipients| - 1]) + if last.user.None? then [last.address] else []
  }

  function LocalUsers(recipients: seq<Recipient>): set<Id> {
    set i | 0 <= i < |recipients| && recipients[i].user.Some? :: recipients[i].user.value
  }

  /** One inbox delivery per distinct local user, in order of first mention. */
  function Inboxes(recipients: seq<Recipient>): seq<M.Delivery> {
    if recipients == [] then []
    else
      var front, last := recipients[..|recipients| - 1], recipients[|recipients| - 1];
      Inboxes(front)
      + if last.user.Some? && last.user.value !in LocalUsers(front)
        then [M.Delivery(last.user.value, M.INBOX, {M.Recent})] else []
  }

  function SentCopy(sender: Option<Id>): seq<M.Delivery> {
    if sender.Some? then [M.Delivery(sender.value, "Sent", {M.Seen})] else []
  }

  /** The deliveries of a transaction: to the inbox of each local user, recent, and
      to the sent mailbox of the sender, seen. */
  predicate Routed(recipients: seq<Recipient>, sender: Option<Id>, deliveries: seq<M.Delivery>) {
    && (forall d :: d in deliveries ==>
          || (M.Delivery(d.user, "INBOX", {M.Recent}) == d && exists r :: r in recipients && r.user == Some(d.user))
          || (M.Delivery(d.user, "Sent", {M.Seen}) == d && sender == Some(d.user)))
    && (forall r :: r in recipients && r.user.Some? ==> M.Delivery(r.user.value, "INBOX", {M.Recent}) in deliveries)
    && (sender.Some? ==> M.Delivery(sender.value, "Sent", {M.Seen}) in deliveries)
  }

  lemma {:induction false} InboxesAre(recipients: seq<Recipient>)
    ensures Routed(recipients, None, Inboxes(recipients))
  {
    if recipients != [] {
      var front, last := recipients[..|recipients| - 1], recipients[|recipients| - 1];
      assert recipients == front + [last];
      InboxesAre(front);
      if last.user.Some? && last.user.value in LocalUsers(front) {
        var i :| 0 <= i < |front| && front[i].user.Some? && front[i].user.value == last.user.value;
        assert front[i] in front;
      }
    }
  }

  lemma DeliveriesAreRouted(recipients: seq<Recipient>, sender: Option<Id>)
    ensures Routed(recipients, sender, Inboxes(recipients) + SentCopy(sender))
  {
    InboxesAre(recipients);
    hide Inboxes;
  }

  lemma {:induction false} CopiesOfBoth(first: seq<M.Delivery>, second: seq<M.Delivery>, user: Id)
    ensures M.Copies(first + second, user) == M.Copies(first, user) + M.Copies(second, user)
  {
    if first == [] {
      assert first + second == second;
    } else {
      assert (first + second)[1..] == first[1..] + second;
      CopiesOfBoth(first[1..], second, user);
    }
  }

  lemma UsersOfOneMore(recipients: seq<Recipient>)
    requires recipients != []
    ensures var last := recipients[|recipients| - 1];
            LocalUsers(recipients) == LocalUsers(recipients[..|recipients| - 1]) + if last.user.Some?
              then {last.user.value} else {}
  {
    var front, last := recipients[..|recipients| - 1], recipients[|recipients| - 1];
    forall i | 0 <= i < |front| && front[i].user.Some? ensures front[i].user.value in LocalUsers(recipients)
      && front[i].user.value in LocalUsers(front) {
      assert recipients[i] == front[i];
    }
    if last.user.Some? {
      assert recipients[|recipients| - 1].user.value in LocalUsers(recipients);
    }
    forall u | u in LocalUsers(recipients) ensures u in LocalUsers(front) || last.user == Some(u) {
      var i :| 0 <= i < |recipients| && recipients[i].user == Some(u);
      if i < |front| {
        assert front[i].user == Some(u);
      }
    }
  }

  /** Every local user gets exactly one inbox copy, and nobody else any. */
  lemma {:induction false} OneInboxEach(recipients: seq<Recipient>, user: Id)
    ensures M.Copies(Inboxes(recipients), user) == if user in LocalUsers(recipients) then 1 else 0
    ensures forall k :: 0 <= k < |Inboxes(recipients)| ==> Inboxes(recipients)[k].mailbox == M.INBOX
  {
    if recipients != [] {
      var front, last := recipients[..|recipients| - 1], recipients[|recipients| - 1];
      OneInboxEach(front, user);
      UsersOfOneMore(recipients);
      var more: seq<M.Delivery> :=
        if last.user.Some? && last.user.value !in LocalUsers(front)
          then [M.Delivery(last.user.value, M.INBOX, {M.Recent})] else [];
      hide LocalUsers;
      CopiesOfBoth(Inboxes(front), more, user);
    }
  }

  lemma OneSentCopy(sender: Option<Id>, user: Id)
    ensures M.Copies(SentCopy(sender), user) == if sender == Some(user) then 1 else 0
  {
    if sender.Some? {
      assert SentCopy(sender)[1..] == [];
    }
  }

  /** The outgoing addresses are those of the recipients without a user, each
      once, and distinct because the recipients are. */
  /** The queued addresses are those of the recipients without a local user, in
      order. */
  lemma {:induction false} OutgoingInOrder(recipients: seq<Recipient>, n: nat) returns (places: seq<nat>)
    requires n <= |recipients|
    ensures |places| == |Outgoing(recipients[..n])|
    ensures forall i, j :: 0 <= i < j < |places| ==> places[i] < places[j]
    ensures forall j :: 0 <= j < |places| ==>
              places[j] < n && Outgoing(recipients[..n])[j] == recipients[places[j]].address
    ensures forall i: nat :: i in places <==> i < n && recipients[i].user == None
  {
    if n == 0 {
      places := [];
    } else {
      places := OutgoingInOrder(recipients, n - 1);
      assert recipients[..n][..n - 1] == recipients[..n - 1];
      assert forall j :: 0 <= j < |places| ==> places[j] in places;
      if recipients[n - 1].user.None? {
        places := places + [n - 1];
      }
    }
  }

  lemma {:induction false} OutgoingDistinct(recipients: seq<Recipient>)
    requires AddressesDistinct(recipients)
    ensures forall i, j :: 0 <= i < j < |Outgoing(recipients)| ==>
            !EqualFold(Outgoing(recipients)[i], Outgoing(recipients)[j])
    ensures forall a :: a in Outgoing(recipients) <==> Recipient(a, None) in recipients
  {
    hide EqualFold;
    if recipients != [] {
      var front, last := recipients[..|recipients| - 1], recipients[|recipients| - 1];
      OutgoingDistinct(front);
      assert recipients == front + [last];
      forall i | 0 <= i < |Outgoing(front)| && last.user.None? ensures !EqualFold(Outgoing(front)[i], last.address) {
        var k :| 0 <= k < |front| && front[k] == Recipient(Outgoing(front)[i], None);
        assert recipients[k] == front[k];
      }
    }
  }

  lemma {:induction false} NothingOutgoing(recipients: seq<Recipient>)
    requires AllLocal(recipients)
    ensures Outgoing(recipients) == []
  {
    if recipients != [] {
      NothingOutgoing(recipients[..|recipients| - 1]);
    }
  }

  // ------------------------------------------------------------- queue rows

  /** The address has blanks around it, which the queue's normalisation drops. */
  predicate Padded(address: string) {
    Trim(address) != address
  }

  predicate FoldsDistinct(addresses: seq<string>) {
    forall i, j :: 0 <= i < j < |addresses| ==> !EqualFold(addresses[i], addresses[j])
  }

  /** A padded address is without its blanks another one of the list. */
  predicate PaddedTwin(addresses: seq<string>, i: nat)
    requires i < |addresses|
  {
    Padded(addresses[i]) && exists j ::
      0 <= j < |addresses| && j != i && EqualFold(Trim(addresses[i]), Trim(addresses[j]))
  }

  /** Recipients that differ in more than case get distinct queue rows exactly
      when no padded one has a twin. */
  lemma KeysDistinctUnlessPadded(message: Id, addresses: seq<string>)
    requires FoldsDistinct(addresses)
    ensures E.DistinctKeys(message, addresses) <==> forall i :: 0 <= i < |addresses| ==> !PaddedTwin(addresses, i)
  {
    if i :| 0 <= i < |addresses| && PaddedTwin(addresses, i) {
      var j :| 0 <= j < |addresses| && j != i && EqualFold(Trim(addresses[i]), Trim(addresses[j]));
      assert M.QueueKey(message, addresses[i]) == M.QueueKey(message, addresses[j]);
      assert !E.DistinctKeys(message, addresses);
    }
    if !E.DistinctKeys(message, addresses) {
      var i, j :| 0 <= i < j < |addresses| && M.QueueKey(message, addresses[i]) == M.QueueKey(message, addresses[j]);
      assert EqualFold(Trim(addresses[i]), Trim(addresses[j])) && EqualFold(Trim(addresses[j]), Trim(addresses[i]));
      assert PaddedTwin(addresses, i) || PaddedTwin(addresses, j);
    }
  }

  lemma NewMessageNotQueued(t: M.Tables, recipients: seq<string>)
    requires I.ForeignKeys(t) && I.UsedIds(t)
    ensures E.NoneQueued(t, t.nextId, recipients)
  {
    hide Lower, Trim;
  }

  /** The queue keys of some addresses. */
  function Keys(message: Id, addresses: seq<string>): set<M.QueueRow> {
    set i | 0 <= i < |addresses| :: M.QueueKey(message, addresses[i])
  }

  lemma KeysOfFirstAndRest(message: Id, addresses: seq<string>)
    requires addresses != []
    ensures Keys(message, addresses) == {M.QueueKey(message, addresses[0])} + Keys(message, addresses[1..])
  {
    hide M.QueueKey;
    var rest := addresses[1..];
    forall i | 0 <= i < |addresses| ensures M.QueueKey(message, addresses[i]) in {M.QueueKey(message, addresses[0])}
      + Keys(message, rest) {
      if i > 0 {
        assert rest[i - 1] == addresses[i];
      }
    }
    forall i | 0 <= i < |rest| ensures M.QueueKey(message, rest[i]) in Keys(message, addresses) {
      assert addresses[i + 1] == rest[i];
    }
  }

  predicate QueueNumbered(t: M.Tables) {
    forall q :: q in t.queue ==> q < t.nextId
  }

  function Queued(t: M.Tables, row: M.QueueRow): M.Tables {
    t.(queue := t.queue[t.nextId := row], nextId := t.nextId + 1)
  }

  /** What the queue rows of some addresses change. */
  predicate QueueGrows(t: M.Tables, u: M.Tables, keys: set<M.QueueRow>, n: nat) {
    && |u.queue| == |t.queue| + n && u.queue.Values == t.queue.Values + keys
    && u.entries == t.entries && u.messages == t.messages
  }

  lemma QueuedOne(t: M.Tables, row: M.QueueRow)
    requires QueueNumbered(t)
    ensures QueueNumbered(Queued(t, row)) && QueueGrows(t, Queued(t, row), {row}, 1)
  {
    assert t.nextId !in t.queue;
    E.QueuedValues(t, row);
    SizeAfter(t.queue, t.nextId, row);
  }

  lemma QueueFirst(t: M.Tables, message: Id, addresses: seq<string>)
    requires addresses != [] && M.QueueAll(t, message, addresses).Some?
    ensures M.QueueAll(t, message, addresses)
            == M.QueueAll(Queued(t, M.QueueKey(message, addresses[0])), message, addresses[1..])
  {
    hide M.QueueKey;
  }

  lemma QueueGrowsMore(t: M.Tables, v: M.Tables, u: M.Tables, row: M.QueueRow, keys: set<M.QueueRow>, n: nat)
    requires QueueGrows(t, v, {row}, 1) && QueueGrows(v, u, keys, n)
    ensures QueueGrows(t, u, {row} + keys, n + 1)
  {
  }

  /** The rows of a save whose queue rows are accepted: one per address. */
  lemma {:induction false} QueuedRows(t: M.Tables, message: Id, addresses: seq<string>)
    requires M.QueueAll(t, message, addresses).Some? && QueueNumbered(t)
    ensures QueueGrows(t, M.QueueAll(t, message, addresses).value, Keys(message, addresses), |addresses|)
    decreases |addresses|
  {
    if addresses == [] {
      assert Keys(message, addresses) == {};
    } else {
      hide M.QueueKey, QueueNumbered, Keys, QueueGrows, M.QueueAll, Queued;
      var row := M.QueueKey(message, addresses[0]);
      var v := Queued(t, row);
      QueueFirst(t, message, addresses);
      QueuedOne(t, row);
      KeysOfFirstAndRest(message, addresses);
      QueuedRows(v, message, addresses[1..]);
      QueueGrowsMore(t, v, M.QueueAll(t, message, addresses).value, row, Keys(message, addresses[1..]),
        |addresses| - 1);
    }
  }

  // ---------------------------------------------------------------- session

  class Session {
    const mode: Mode
    const maxMessageBytes: int
    var authenticated: Option<Id>
    var from: string
    var recipients: seq<Recipient>

    predicate Valid()
      reads this
    {
      AddressesDistinct(recipients) && (mode == Inbound ==> AllLocal(recipients))
    }

    constructor (mode: Mode, maxMessageBytes: int)
      ensures Valid() && this.mode == mode && this.maxMessageBytes == maxMessageBytes && recipients == [] && from == ""
              && authenticated == None
    {
      this.mode, this.maxMessageBytes := mode, maxMessageBytes;
      authenticated, from, recipients := None, "", [];
    }

    method Authenticate(user: Id)
      requires Valid()
      modifies `authenticated
      ensures Valid() && authenticated == Some(user)
    {
      authenticated := Some(user);
    }

    /** Refuses and forgets an account that is gone or changed. */
    method RequireActive(check: Check) returns (reply: Reply)
      modifies `authenticated
      ensures reply == (if old(authenticated).None? || check == Gone then AuthRequired
                        else if check == Unknown then Temporary else Accepted)
      ensures authenticated == if check == Gone then None else old(authenticated)
    {
      if authenticated.None? {
        return AuthRequired;
      }
      match check
      case Gone =>
        authenticated := None;
        return AuthRequired;
      case Unknown => return Temporary;
      case StillActive => return Accepted;
    }

    method HasRecipient(address: string) returns (found: bool)
      ensures found <==> Listed(recipients, address)
    {
      for i := 0 to |recipients|
        invariant forall k :: 0 <= k < i ==> !EqualFold(recipients[k].address, address)
      {
        if EqualFold(recipients[i].address, address) {
          return true;
        }
      }
      return false;
    }

    /** MAIL starts a transaction: whatever it answers, no recipient stays.
        `sender` is the parsed address, absent when it does not parse; an empty
        argument is the null sender. */
    method Mail(argument: string, check: Check, allowed: Option<bool>, sender: Option<string>) returns (reply: Reply)
      requires Valid()
      modifies this
      ensures Valid() && recipients == []
      ensures reply == Accepted ==> from == if argument == "" || sender.None? then "" else Lower(sender.value)
      ensures reply != Accepted ==> from == ""
      ensures reply == Accepted <==>
              && (mode == Submission ==> old(authenticated).Some? && check == StillActive && allowed == Some(true))
              && (argument == "" || sender.Some?)
      ensures authenticated == if mode == Submission && check == Gone then None else old(authenticated)
    {
      from, recipients := "", [];
      if mode == Submission {
        reply := RequireActive(check);
        if reply != Accepted {
          return;
        }
        if allowed.None? {
          return Temporary;
        }
        if !allowed.value {
          return NotOwned;
        }
      }
      if argument != "" {
        if sender.None? {
          return BadAddress;
        }
        from := Lower(sender.value);
      }
      return Accepted;
    }

    /** RCPT adds a recipient unless the same address is there already, up to the
        case of letters. Inbound, only local users are accepted. */
    method Rcpt(check: Check, resolution: Resolution, domain: DomainKind, parsed: Option<string>) returns (reply: Reply)
      requires Valid()
      modifies `authenticated, `recipients
      ensures Valid()
      ensures recipients ==
              if reply != Accepted then old(recipients)
              else if resolution.Resolved? then Added(old(recipients),
                Recipient(resolution.canonical, Some(resolution.user)))
              else if parsed.Some? then Added(old(recipients), Recipient(Lower(parsed.value), None))
              else old(recipients)
      ensures reply == Accepted && resolution.Resolved? ==>
                AddsOnce(old(recipients), recipients, Recipient(resolution.canonical, Some(resolution.user)))
      ensures reply == Accepted && !resolution.Resolved? ==>
                parsed.Some? && AddsOnce(old(recipients), recipients, Recipient(Lower(parsed.value), None))
      ensures reply == Accepted <==>
              && (mode == Submission ==> old(authenticated).Some? && check == StillActive)
              && (resolution.Resolved? || (resolution == NotFound && mode == Submission && domain == Foreign
                 && parsed.Some?))
      ensures reply == Temporary ==>
                (mode == Submission && check == Unknown) || resolution == Failed
                  || (resolution == NotFound && domain == Unanswered)
      ensures reply == NoSuchRecipient ==> resolution == NotFound && (mode == Inbound || domain == Local)
      ensures authenticated == if mode == Submission && check == Gone then None else old(authenticated)
    {
      if mode == Submission {
        reply := RequireActive(check);
        if reply != Accepted {
          return;
        }
      }
      match resolution
      case Resolved(canonical, user) =>
        AddRecipient(Recipient(canonical, Some(user)));
        return Accepted;
      case Failed => return Temporary;
      case NotFound =>
        if mode == Inbound {
          return NoSuchRecipient;
        }
        match domain
        case Unanswered => return Temporary;
        case Local => return NoSuchRecipient;
        case Foreign =>
          if parsed.None? {
            return BadAddress;
          }
          AddRecipient(Recipient(Lower(parsed.value), None));
          return Accepted;
    }

    method AddRecipient(r: Recipient)
      requires Valid() && (mode == Inbound ==> r.user.Some?)
      modifies `recipients
      ensures Valid() && recipients == Added(old(recipients), r) && AddsOnce(old(recipients), recipients, r)
    {
      AddedDistinct(recipients, r);
      AddedOnce(recipients, r);
      hide AddressesDistinct;
      var found := HasRecipient(r.address);
      if !found {
        recipients := recipients + [r];
      }
    }

    method Reset()
      modifies `from, `recipients
      ensures Valid() && recipients == [] && from == ""
    {
      from, recipients := "", [];
    }

    method Logout()
      modifies this
      ensures Valid() && recipients == [] && from == "" && authenticated == None
    {
      Reset();
      authenticated := None;
    }

    /** The reply to a From header: only the sender may write a submission. */
    method ValidateHeaderFrom(c: Content) returns (reply: Reply)
      ensures reply == Accepted <==> FromFits(Submission, c)
      ensures reply == Accepted <==>
                && c.header.Some? && c.header.value.fromFields == 1 && c.header.value.authors.Some?
                && |c.header.value.authors.value| == 1 && c.header.value.authors.value[0].allowed == Some(true)
      ensures reply == NotOwned ==> exists d :: HasAuthor(c, d, Some(false))
      ensures reply == Malformed <==> c.header.None?
      ensures reply == BadFrom <==> c.header.Some? && !NamesAuthors(Submission, c.header.value)
      ensures reply in {Accepted, Malformed, BadFrom, NotOwned, Temporary}
    {
      if c.header.None? {
        return Malformed;
      }
      if c.header.value.fromFields != 1 {
        return BadFrom;
      }
      var authors := c.header.value.authors;
      if authors.None? || |authors.value| != 1 {
        return BadFrom;
      }
      if authors.value[0].allowed.None? {
        return Temporary;
      }
      if !authors.value[0].allowed.value {
        assert HasAuthor(c, authors.value[0].domain, Some(false));
        return NotOwned;
      }
      return Accepted;
    }

    /** Nobody writes from outside in the name of a domain of this server. */
    method ValidateInboundHeaderFrom(c: Content) returns (reply: Reply)
      ensures reply == Accepted <==> FromFits(Inbound, c)
      ensures reply == Accepted <==>
                && c.header.Some? && c.header.value.fromFields == 1 && c.header.value.authors.Some?
                && c.header.value.authors.value != [] && forall a :: a in c.header.value.authors.value ==>
                   a.domain == Foreign
      ensures reply == LocalFrom ==> exists allowed :: HasAuthor(c, Local, allowed)
      ensures reply == Malformed <==> c.header.None?
      ensures reply == BadFrom <==> c.header.Some? && !NamesAuthors(Inbound, c.header.value)
      ensures reply in {Accepted, Malformed, BadFrom, LocalFrom, Temporary}
    {
      if c.header.None? {
        return Malformed;
      }
      if c.header.value.fromFields != 1 {
        return BadFrom;
      }
      var authors := c.header.value.authors;
      if authors.None? || |authors.value| == 0 {
        return BadFrom;
      }
      for i := 0 to |authors.value|
        invariant forall k :: 0 <= k < i ==> authors.value[k].domain == Foreign
      {
        match authors.value[i].domain
        case Unanswered => return Temporary;
        case Local =>
          assert HasAuthor(c, Local, authors.value[i].allowed);
          return LocalFrom;
        case Foreign =>
      }
      return Accepted;
    }

    /** DATA: the envelope, the deliveries and the queued addresses of the
        message, or why it is refused. */
    method Data(check: Check, content: Content)
        returns (reply: Reply, envelope: seq<string>, deliveries: seq<M.Delivery>, queued: seq<string>)
      requires Valid()
      modifies `authenticated
      ensures Valid() && recipients == old(recipients)
      ensures authenticated == if mode == Submission && check == Gone then None else old(authenticated)
      ensures reply == Accepted <==>
              recipients != [] && (mode == Submission ==> old(authenticated).Some? && check == StillActive)
                && Fits(mode, maxMessageBytes, content)
      ensures reply == TooLarge ==> content.size > SizeLimit(maxMessageBytes)
      ensures var limit := if maxMessageBytes <= 0 then 26_214_400 else maxMessageBytes;
              && (reply == TooLarge ==> content.size > limit)
              && (reply == Accepted ==> content.size <= limit && content.readable && content.wellFormed)
      ensures reply == NoRecipients ==> recipients == []
      ensures reply == Malformed ==> content.header.None? || !content.wellFormed
      ensures reply == BadFrom ==> content.header.Some? && !NamesAuthors(mode, content.header.value)
      ensures reply == LocalFrom ==> mode == Inbound
      ensures reply == NotOwned || reply == AuthRequired ==> mode == Submission
      ensures reply == Accepted ==>
                && |envelope| == |recipients|
                   && (forall i :: 0 <= i < |recipients| ==> envelope[i] == recipients[i].address)
                && queued == Outgoing(recipients)
                && deliveries == Inboxes(recipients) + SentCopy(if mode == Submission then authenticated else None)
                && Routed(recipients, if mode == Submission then authenticated else None, deliveries)
    {
      envelope, deliveries, queued := [], [], [];
      if mode == Submission {
        reply := RequireActive(check);
        if reply != Accepted {
          return;
        }
      }
      if |recipients| == 0 {
        reply := NoRecipients;
        return;
      }
      if !content.readable {
        reply := Temporary;
        return;
      }
      if content.size > SizeLimit(maxMessageBytes) {
        reply := TooLarge;
        return;
      }
      if mode == Submission {
        reply := ValidateHeaderFrom(content);
      } else {
        reply := ValidateInboundHeaderFrom(content);
      }
      if reply != Accepted {
        return;
      }
      DeliveriesAreRouted(recipients, if mode == Submission then authenticated else None);
      assert mode == Submission ==> SentCopy(authenticated) == [M.Delivery(authenticated.value, "Sent", {M.Seen})];
      assert content.wellFormed <==> Fits(mode, maxMessageBytes, content);
      hide *;
      var keys;
      envelope, deliveries, queued, keys := Route(recipients);
      if mode == Submission {
        var key := (authenticated.value, "Sent");
        SentIsNotInbox();
        if key !in keys {
          deliveries := deliveries + [M.Delivery(authenticated.value, "Sent", {M.Seen})];
        }
      }
      reply := if content.wellFormed then Accepted else Malformed;
    }

    /** The envelope, one inbox delivery per local user, the outgoing addresses,
        and the keys of the deliveries. */
    static method Route(recipients: seq<Recipient>)
        returns (envelope: seq<string>, deliveries: seq<M.Delivery>, queued: seq<string>, keys: set<(Id, string)>)
      ensures |envelope| == |recipients| && forall i :: 0 <= i < |recipients| ==> envelope[i] == recipients[i].address
      ensures queued == Outgoing(recipients) && deliveries == Inboxes(recipients)
      ensures forall key :: key in keys <==> key.1 == M.INBOX && key.0 in LocalUsers(recipients)
    {
      envelope, deliveries, queued, keys := [], [], [], {};
      for i := 0 to |recipients|
        invariant |envelope| == i && forall k :: 0 <= k < i ==> envelope[k] == recipients[k].address
        invariant queued == Outgoing(recipients[..i]) && deliveries == Inboxes(recipients[..i])
        invariant forall key :: key in keys <==> key.1 == M.INBOX && key.0 in LocalUsers(recipients[..i])
      {
        var rcpt := recipients[i];
        assert recipients[..i + 1][..i] == recipients[..i];
        UsersOfOneMore(recipients[..i + 1]);
        hide LocalUsers;
        envelope := envelope + [rcpt.address];
        if rcpt.user.Some? {
          var key := (rcpt.user.value, M.INBOX);
          if key !in keys {
            keys := keys + {key};
            deliveries := deliveries + [M.Delivery(rcpt.user.value, M.INBOX, {M.Recent})];
          }
        } else {
          queued := queued + [rcpt.address];
        }
      }
      assert recipients[..|recipients|] == recipients;
    }

    static lemma SentIsNotInbox()
      ensures "Sent" != M.INBOX
    {
      assert "Sent"[0] != M.INBOX[0];
    }
  }

  // ------------------------------------------------------- what gets stored

  /** The deliveries of a transaction give each local user one inbox copy and the
      sender of a submission one more, and nobody else any. */
  lemma CopiesOfTransaction(recipients: seq<Recipient>, sender: Option<Id>, user: Id)
    ensures M.Copies(Inboxes(recipients) + SentCopy(sender), user) ==
            (if user in LocalUsers(recipients) then 1 else 0) + if sender == Some(user) then 1 else 0
  {
    OneInboxEach(recipients, user);
    OneSentCopy(sender, user);
    CopiesOfBoth(Inboxes(recipients), SentCopy(sender), user);
  }

  /** Inbound mail queues nothing; a submission queues each address without a
      local user once. */
  lemma QueuedAddresses(s: Session)
    requires s.Valid()
    ensures s.mode == Inbound ==> Outgoing(s.recipients) == []
    ensures forall a :: a in Outgoing(s.recipients) <==> Recipient(a, None) in s.recipients
    ensures FoldsDistinct(Outgoing(s.recipients))
  {
    OutgoingDistinct(s.recipients);
    if s.mode == Inbound {
      NothingOutgoing(s.recipients);
    }
  }

  lemma {:induction false} DeliveriesLeaveQueue(t: M.Tables, message: Id, deliveries: seq<M.Delivery>, date: M.Time,
      now: M.Time)
    requires M.DeliverAll(t, message, deliveries, date, now).Some?
    ensures var u := M.DeliverAll(t, message, deliveries, date, now).value; u.queue == t.queue && u.nextId >= t.nextId
    decreases |deliveries|
  {
    hide EqualFold;
    if deliveries != [] {
      var d := deliveries[0];
      var box := M.FindMailbox(t, d.user, if d.mailbox == "" then M.INBOX else d.mailbox).value;
      DeliveriesLeaveQueue(M.InsertEntry(t, box, message, d.flags, date, now), message, deliveries[1..], date, now);
    }
  }

  /** The deliveries of the transaction. */
  function Plan(s: Session): seq<M.Delivery>
    reads s
  {
    Inboxes(s.recipients) + SentCopy(if s.mode == Submission then s.authenticated else None)
  }

  ghost function Stored(t: M.Tables, s: Session, m: M.Message, archiveFull: bool, date: M.Time,
      now: M.Time): Option<M.Tables>
    reads s
  {
    M.Save(t, None, m, Plan(s), Outgoing(s.recipients), archiveFull, date, now)
  }

  ghost function Delivered(t: M.Tables, s: Session, m: M.Message, date: M.Time, now: M.Time): Option<M.Tables>
    reads s
  {
    M.DeliverAll(M.InsertMessage(t, M.WithDefaults(m)), t.nextId, Plan(s), date, now)
  }

  /** The uniqueness constraint on (message, recipient) accepts the queue rows of
      a transaction exactly when no address with blanks around it, as a quoted
      local part can have, is without them another outgoing address. So a
      transaction with room for it is stored exactly then. */
  lemma TransactionIsAccepted(t: M.Tables, s: Session, m: M.Message, archiveFull: bool, date: M.Time, now: M.Time)
    requires s.Valid() && I.ForeignKeys(t) && I.UsedIds(t)
    ensures var out := Outgoing(s.recipients);
            Stored(t, s, m, archiveFull, date, now).Some? <==>
            && !archiveFull && M.QuotaAllows(t, M.WithDefaults(m).size, Plan(s)) && Delivered(t, s, m, date, now).Some?
            && forall i :: 0 <= i < |out| ==> !PaddedTwin(out, i)
  {
    StoredWhen(t, s, m, archiveFull, date, now);
    if Delivered(t, s, m, date, now).Some? {
      DeliveredQueue(t, s, m, date, now);
      OutgoingDistinct(s.recipients);
      var u := Delivered(t, s, m, date, now).value;
      assert FoldsDistinct(Outgoing(s.recipients));
      hide *;
      QueueAcceptsOutgoing(t, u, Outgoing(s.recipients));
    }
  }

  lemma StoredWhen(t: M.Tables, s: Session, m: M.Message, archiveFull: bool, date: M.Time, now: M.Time)
    ensures Stored(t, s, m, archiveFull, date, now).Some? <==>
            && !archiveFull && M.QuotaAllows(t, M.WithDefaults(m).size, Plan(s)) && Delivered(t, s, m, date, now).Some?
            && M.QueueAll(Delivered(t, s, m, date, now).value, t.nextId, Outgoing(s.recipients)).Some?
  {
    hide M.QuotaAllows, M.DeliverAll, M.QueueAll, M.InsertMessage, M.WithDefaults, Plan, Outgoing;
  }

  lemma DeliveredQueue(t: M.Tables, s: Session, m: M.Message, date: M.Time, now: M.Time)
    requires Delivered(t, s, m, date, now).Some?
    ensures var u := Delivered(t, s, m, date, now).value; u.queue == t.queue && u.nextId >= t.nextId
  {
    DeliveriesLeaveQueue(M.InsertMessage(t, M.WithDefaults(m)), t.nextId, Plan(s), date, now);
  }

  lemma QueueAcceptsOutgoing(t: M.Tables, u: M.Tables, out: seq<string>)
    requires I.ForeignKeys(t) && I.UsedIds(t) && u.queue == t.queue && u.nextId >= t.nextId && FoldsDistinct(out)
    ensures M.QueueAll(u, t.nextId, out).Some? <==> forall i :: 0 <= i < |out| ==> !PaddedTwin(out, i)
  {
    KeysDistinctUnlessPadded(t.nextId, out);
    NewMessageNotQueued(t, out);
    assert forall q :: q in u.queue ==> q < u.nextId;
    hide PaddedTwin, M.QueueAll, E.DistinctKeys, I.ForeignKeys, I.UsedIds;
    E.QueueAcceptsDistinct(u, t.nextId, out);
  }

  lemma TwinsAreDistinct()
    ensures var plain, padded := Recipient("b@c", None), Recipient(" b@c", None);
            && AddressesDistinct(Added(Added([], plain), padded))
            && Outgoing(Added(Added([], plain), padded)) == ["b@c", " b@c"]
  {
    var plain, padded := Recipient("b@c", None), Recipient(" b@c", None);
    assert |Lower("b@c")| != |Lower(" b@c")|;
    hide Lower;
    var both := [plain] + [padded];
    assert Added(Added([], plain), padded) == both;
    assert both[..1] == [plain] && [plain][..0] == [];
    assert Outgoing([plain]) == [] + ["b@c"] == ["b@c"];
    assert Outgoing(both) == Outgoing([plain]) + [" b@c"];
  }

  lemma SameKeys(message: Id)
    ensures M.QueueKey(message, "b@c") == M.QueueKey(message, " b@c")
  {
    assert Trim("b@c") == "b@c" && " b@c"[1..] == "b@c" && Trim(" b@c") == "b@c";
    hide Lower;
  }

  lemma TwinsQueue(t: M.Tables, message: Id)
    ensures M.QueueAll(t, message, ["b@c", " b@c"]) == None
  {
    SameKeys(message);
    hide M.QueueKey;
    var row := M.QueueKey(message, "b@c");
    assert ["b@c", " b@c"][1..] == [" b@c"];
    if row !in t.queue.Values {
      var q := t.queue[t.nextId := row];
      assert q[t.nextId] == row && row in q.Values;
    }
  }


  /** The constraint can fail: these two recipients are accepted one after the
      other, and their queue rows collide. */
  lemma PaddedTwinsCollide(t: M.Tables, message: Id)
    ensures var plain, padded := Recipient("b@c", None), Recipient(" b@c", None);
            && AddressesDistinct(Added(Added([], plain), padded))
            && Outgoing(Added(Added([], plain), padded)) == ["b@c", " b@c"]
            && M.QueueAll(t, message, ["b@c", " b@c"]) == None
  {
    TwinsAreDistinct();
    TwinsQueue(t, message);
  }

  /** A stored transaction leaves each local user with one entry of the message,
      the sender of a submission with one more, and one queue row for each
      outgoing address. */
  lemma StoredTransaction(t: M.Tables, s: Session, m: M.Message, archiveFull: bool, date: M.Time, now: M.Time, user: Id)
    requires s.Valid() && I.ForeignKeys(t) && I.UsedIds(t) && Stored(t, s, m, archiveFull, date, now).Some?
    ensures var u := Stored(t, s, m, archiveFull, date, now).value;
            |E.Holdings(u, user, t.nextId)| ==
              (if user in LocalUsers(s.recipients) then 1 else 0)
              + if s.mode == Submission && s.authenticated == Some(user) then 1 else 0
    ensures var u := Stored(t, s, m, archiveFull, date, now).value;
            |u.queue| == |t.queue| + |Outgoing(s.recipients)|
              && u.queue.Values == t.queue.Values + Keys(t.nextId, Outgoing(s.recipients))
  {
    var v := M.InsertMessage(t, M.WithDefaults(m));
    var u := Delivered(t, s, m, date, now).value;
    NoHoldings(t, M.WithDefaults(m), user);
    assert forall e :: e in v.entries ==> e < v.nextId;
    DeliveriesLeaveQueue(v, t.nextId, Plan(s), date, now);
    assert QueueNumbered(u);
    CopiesOfTransaction(s.recipients, if s.mode == Submission then s.authenticated else None, user);
    hide Inboxes, SentCopy, LocalUsers, Outgoing, Keys, M.DeliverAll, M.QueueAll, M.QuotaAllows, M.InsertMessage;
    E.DeliveriesArrive(v, t.nextId, Plan(s), date, now, user);
    QueuedRows(u, t.nextId, Outgoing(s.recipients));
  }

  lemma NoHoldings(t: M.Tables, m: M.Message, user: Id)
    requires I.ForeignKeys(t) && I.UsedIds(t)
    ensures E.Holdings(M.InsertMessage(t, m), user, t.nextId) == {}
  {
  }
}
